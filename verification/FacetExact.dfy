/** The facet round trip for any strings at all. */
module FacetExact {
  import opened FacetCodec
  import opened FacetRoundTrip
  import opened Prelude
  import opened Splitting
  import opened Strings

  // ---------- how long the parts can be

  predicate CutsSomewhere(parts: seq<string>, from: nat) {
    exists i | from <= i < |parts| :: Find(parts[i], AUTHORITY_SEPARATOR, 0).Some?
  }

  lemma CutLength(part: string)
    ensures var cut := if Find(part, AUTHORITY_SEPARATOR, 0).Some? then 3 else 0;
      |BeforeAuthority(part)| + |AfterAuthority(part)| + cut == |part|
  {
  }

  lemma CutsNext(parts: seq<string>, from: nat)
    requires from < |parts|
    ensures CutsSomewhere(parts, from) <==>
      (Find(parts[from], AUTHORITY_SEPARATOR, 0).Some? || CutsSomewhere(parts, from + 1))
  {
  }

  /** What is displayed and what is an authority come out of the second half,
      and where anything is cut the authority separator is lost as well. */
  lemma {:induction false} SecondHalfLength(parts: seq<string>, from: nat)
    requires from <= |parts|
    ensures var cut := if CutsSomewhere(parts, from) then 3 else 0;
      |Befores(parts, from)| + |Afters(parts, from)| + cut + SumTo(parts, from) <= SumTo(parts, |parts|)
    ensures Afters(parts, from) != "" ==> CutsSomewhere(parts, from)
    decreases |parts| - from
  {
    if from < |parts| {
      CutLength(parts[from]);
      CutsNext(parts, from);
      SecondHalfLength(parts, from + 1);
    }
  }

  /** The halves of the parts that are left make up no more than the parts. */
  lemma HalvesLength(s: string, sep: string)
    requires sep != "" && Find(s, sep, 0).Some?
    ensures var all, kept := SplitAll(s, sep), Split(s, sep);
      var cut := if CutsSomewhere(kept, |kept| / 2) then 3 else 0;
      && |Sorted(s, sep)| + |Displayed(s, sep)| + |Afters(kept, |kept| / 2)| + cut <= SumTo(all, |all|)
      && (Afters(kept, |kept| / 2) != "" ==> CutsSomewhere(kept, |kept| / 2))
  {
    var all, kept := SplitAll(s, sep), Split(s, sep);
    Dropped(all);
    LengthOfConcat(kept, |kept| / 2);
    SecondHalfLength(kept, |kept| / 2);
    SumOfAllKept(all, kept);
  }

  /** With three parts or more at least two separators are lost. */
  lemma ManyParts(parts: Parts, sep: string)
    ensures parts.Part? ==> Size(parts) + |sep| <= Total(parts, sep)
    ensures parts.Part? && parts.rest.Part? ==> Size(parts) + |sep| + |sep| <= Total(parts, sep)
  {
    SizeAtMostTotal(parts, sep);
    if parts.Part? {
      SizeAtMostTotal(parts.rest, sep);
      if parts.rest.Part? { SizeAtMostTotal(parts.rest.rest, sep); }
    }
  }

  lemma {:induction false} SizeAtMostTotal(parts: Parts, sep: string)
    ensures Size(parts) <= Total(parts, sep)
  {
    if parts.Part? { SizeAtMostTotal(parts.rest, sep); }
  }

  /** One separator and nothing else is lost. */
  ghost predicate JustTwo(s: string, sep: string, p: string, q: string)
    requires sep != ""
  {
    && s == p + (sep + q) && SplitAll(s, sep) == [p, q]
    && Find(s, sep, 0) == Some(|p|) && Find(q, sep, 0) == None
  }

  /** A text whose parts are long enough has just two of them. */
  lemma TwoParts(s: string, sep: string) returns (p: string, q: string)
    requires sep != "" && Find(s, sep, 0).Some?
    requires var all := SplitAll(s, sep); SumTo(all, |all|) + |sep| >= |s|
    ensures JustTwo(s, sep, p, q)
    ensures var all := SplitAll(s, sep); SumTo(all, |all|) + |sep| == |s|
  {
    var parts := Cut(s, sep);
    CutTotal(s, sep);
    ListedSize(parts);
    ManyParts(parts, sep);
    assert parts.Part? && parts.rest.Last?;
    p, q := parts.part, parts.rest.part;
    assert SplitAll(s, sep) == [p] + [q] == [p, q];
    FindFirst(s, sep, 0);
    CutApart(s, sep, |p|);
  }

  lemma CutApart(s: string, sep: string, i: nat)
    requires Occurs(s, sep, i)
    ensures s == s[..i] + (sep + s[i + |sep|..])
  {
    assert s[i..i + |sep|] == sep;
    assert s == s[..i] + (s[i..i + |sep|] + s[i + |sep|..]);
  }

  // ---------- two parts, told apart

  lemma JointFound(lower: string, last: string, sep: string)
    requires sep != ""
    ensures Find(lower + (sep + last), sep, 0).Some? && Find(lower + (sep + last), sep, 0).value <= |lower|
  {
    var s := lower + (sep + last);
    forall k | 0 <= k < |sep| ensures s[|lower| + k] == sep[k] {}
    assert Occurs(s, sep, |lower|);
    FindFirst(s, sep, 0);
  }

  lemma LowerEmptyFound(last: string, sep: string)
    requires sep != ""
    ensures Find("" + (sep + last), sep, 0) == Some(0)
  {
    JointFound("", last, sep);
  }

  /** Found at the joint, and nowhere behind it. */
  lemma ClearIsFound(lower: string, last: string, sep: string)
    requires sep != ""
    ensures Clear(lower, last, sep) <==>
      (Find(lower + (sep + last), sep, 0) == Some(|lower|) && Find(last, sep, 0) == None)
  {
    JointFound(lower, last, sep);
    FindFirst(lower + (sep + last), sep, 0);
    FindFirst(last, sep, 0);
  }

  lemma {:induction false} DropTwo(p: string, q: string)
    ensures DropEmptyTail([p, q]) == if q != "" then [p, q] else if p != "" then [p] else []
  {
    assert [p, q][..1] == [p] && [p][..0] == [];
    if q == "" {
      assert DropEmptyTail([p, q]) == DropEmptyTail([p, q][..1]);
      assert p == "" ==> DropEmptyTail([p]) == DropEmptyTail([p][..0]) == [];
    }
  }

  lemma DecodeTwo(s: string, sep: string, p: string, q: string)
    requires sep != "" && Split(s, sep) == [p, q]
    ensures Sorted(s, sep) == p && Displayed(s, sep) == BeforeAuthority(q)
  {
    assert [p, q] == [p] + [q];
    DecodeHalves(s, sep, [p], [q]);
    assert Concat([p], 1) == "" + p == p;
    assert Befores([q], 0) == BeforeAuthority(q) + "" == BeforeAuthority(q);
  }

  lemma DecodeJustTwo(s: string, sep: string, p: string, q: string)
    requires sep != "" && JustTwo(s, sep, p, q)
    ensures q != "" ==> Sorted(s, sep) == p && Displayed(s, sep) == BeforeAuthority(q)
    ensures q == "" ==> Sorted(s, sep) == ""
    ensures p == q == "" ==> Displayed(s, sep) == "" && Authority(s, sep) == None
  {
    DropTwo(p, q);
    if q != "" { DecodeTwo(s, sep, p, q); }
  }

  lemma SameJoint(lower: string, last: string, p: string, q: string, sep: string)
    requires lower + (sep + last) == p + (sep + q) && |p| == |lower|
    ensures p == lower && q == last
  {
    var s := lower + (sep + last);
    assert s[..|lower|] == lower && s[..|p|] == p;
    assert s[|lower| + |sep|..] == last && s[|p| + |sep|..] == q;
  }

  /** The two parts are the two sides, if the first comes back and not everything is empty. */
  lemma PartsAreSides(s: string, lower: string, last: string, sep: string, p: string, q: string)
    requires sep != "" && JustTwo(s, sep, p, q) && s == lower + (sep + last) && Sorted(s, sep) == lower
    requires p == q == "" ==> lower == ""
    ensures p == lower && q == last && Clear(lower, last, sep)
  {
    DecodeJustTwo(s, sep, p, q);
    if q == "" { LowerEmptyFound(last, sep); }
    SameJoint(lower, last, p, q, sep);
    ClearIsFound(lower, last, sep);
  }

  // ---------- all strings

  lemma EncodedLength(lower: string, value: string, authority: string, sep: string)
    ensures |lower + (sep + (value + (AUTHORITY_SEPARATOR + authority)))| == |lower| + |sep| + |value| + 3 + |authority|
  {
  }

  lemma ComesBackClear(lower: string, value: string, authority: string, sep: string)
    requires sep != "" && authority != ""
    requires var s := Encode(lower, value, authority, sep);
      Sorted(s, sep) == lower && Displayed(s, sep) == value && Authority(s, sep) == Some(authority)
    ensures Clear(lower, value + (AUTHORITY_SEPARATOR + authority), sep) && AuthorityClean(value)
  {
    var s, last := Encode(lower, value, authority, sep), value + (AUTHORITY_SEPARATOR + authority);
    EncodeGrouped(lower, value, authority, sep);
    EncodedLength(lower, value, authority, sep);
    JointFound(lower, last, sep);
    HalvesLength(s, sep);
    var p, q := TwoParts(s, sep);
    DecodeJustTwo(s, sep, p, q);
    PartsAreSides(s, lower, last, sep, p, q);
    CutsBackToValue(value, authority);
  }

  /** The round trip with an authority, for all strings: lower case, value and
      authority all come back if and only if no separator lies before, behind or
      across the one that is written, and no authority separator begins in the value. */
  lemma RoundTripIff(lower: string, value: string, authority: string, sep: string)
    requires sep != "" && authority != ""
    ensures var s := Encode(lower, value, authority, sep);
      (Sorted(s, sep) == lower && Displayed(s, sep) == value && Authority(s, sep) == Some(authority)) <==>
      (Clear(lower, value + (AUTHORITY_SEPARATOR + authority), sep) && AuthorityClean(value))
  {
    var s := Encode(lower, value, authority, sep);
    if Clear(lower, value + (AUTHORITY_SEPARATOR + authority), sep) {
      FacetRoundTrip.FacetRoundTrip(lower, value, authority, sep);
    }
    if Sorted(s, sep) == lower && Displayed(s, sep) == value && Authority(s, sep) == Some(authority) {
      ComesBackClear(lower, value, authority, sep);
    }
  }

  lemma NoneIsUncut(value: string)
    ensures |BeforeAuthority(value)| == |value| <==> Find(value, AUTHORITY_SEPARATOR, 0) == None
  {
  }

  lemma PlainComesBackClear(lower: string, value: string, sep: string)
    requires sep != ""
    requires var s := EncodePlain(lower, value, sep);
      Sorted(s, sep) == lower && Displayed(s, sep) == value && Authority(s, sep) == None
    ensures Clear(lower, value, sep) && Find(value, AUTHORITY_SEPARATOR, 0) == None && (value == "" ==> lower == "")
  {
    var s := EncodePlain(lower, value, sep);
    Assoc(lower, sep, value);
    JointFound(lower, value, sep);
    HalvesLength(s, sep);
    assert |s| == |lower| + |sep| + |value|;
    var p, q := TwoParts(s, sep);
    DecodeJustTwo(s, sep, p, q);
    if p == q == "" { assert |Sorted(s, sep)| == 0; }
    PartsAreSides(s, lower, value, sep, p, q);
    NoneIsUncut(value);
  }

  /** The round trip without an authority, for all strings. */
  lemma PlainRoundTripIff(lower: string, value: string, sep: string)
    requires sep != ""
    ensures var s := EncodePlain(lower, value, sep);
      (Sorted(s, sep) == lower && Displayed(s, sep) == value && Authority(s, sep) == None) <==>
      (Clear(lower, value, sep) && Find(value, AUTHORITY_SEPARATOR, 0) == None && (value == "" ==> lower == ""))
  {
    var s := EncodePlain(lower, value, sep);
    if Clear(lower, value, sep) && (value == "" ==> lower == "") { PlainRoundTrip(lower, value, sep); }
    if Sorted(s, sep) == lower && Displayed(s, sep) == value && Authority(s, sep) == None {
      PlainComesBackClear(lower, value, sep);
    }
  }
}
