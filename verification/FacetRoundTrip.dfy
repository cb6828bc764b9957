/** What the facet decoders recover of what the indexer wrote, and the names of
    the index fields. */
module FacetRoundTrip {
  import opened FacetCodec
  import opened Prelude
  import opened Splitting
  import opened Strings

  function Encode(lower: string, value: string, authority: string, sep: string): string {
    lower + sep + value + AUTHORITY_SEPARATOR + authority
  }

  function EncodePlain(lower: string, value: string, sep: string): string {
    lower + sep + value
  }

  /** No authority separator begins in the value, even one completed by the separator after it. */
  predicate AuthorityClean(value: string) {
    Find(value, AUTHORITY_SEPARATOR, 0) == None && (value == "" || value[|value| - 1] != '#')
  }

  lemma CleanHasNone(value: string, authority: string)
    requires AuthorityClean(value)
    ensures Find(value + (AUTHORITY_SEPARATOR + authority), AUTHORITY_SEPARATOR, 0) == Some(|value|)
  {
    var w := value + (AUTHORITY_SEPARATOR + authority);
    FindFirst(value, AUTHORITY_SEPARATOR, 0);
    assert w[|value|] == w[|value| + 1] == w[|value| + 2] == '#';
    forall j: nat | j < |value| ensures !Occurs(w, AUTHORITY_SEPARATOR, j) {
      if j + 3 <= |value| {
        OccursBefore(value, AUTHORITY_SEPARATOR + authority, AUTHORITY_SEPARATOR, j);
      } else {
        var k := |value| - 1 - j;
        assert w[j + k] != AUTHORITY_SEPARATOR[k];
      }
    }
    FindIs(w, AUTHORITY_SEPARATOR, 0, |value|);
  }

  lemma UncleanHasOne(value: string, authority: string)
    requires !AuthorityClean(value)
    ensures var found := Find(value + (AUTHORITY_SEPARATOR + authority), AUTHORITY_SEPARATOR, 0);
      found.Some? && found.value < |value|
  {
    var i := SeparatorInside(value, authority);
    FoundBefore(value + (AUTHORITY_SEPARATOR + authority), i);
  }

  lemma SeparatorInside(value: string, authority: string) returns (i: nat)
    requires !AuthorityClean(value)
    ensures i < |value| && Occurs(value + (AUTHORITY_SEPARATOR + authority), AUTHORITY_SEPARATOR, i)
  {
    if value != "" && value[|value| - 1] == '#' {
      i := |value| - 1;
      HashBeforeSeparator(value, authority);
    } else {
      i := Find(value, AUTHORITY_SEPARATOR, 0).value;
      FoundOccurs(value, i);
      OccursBefore(value, AUTHORITY_SEPARATOR + authority, AUTHORITY_SEPARATOR, i);
    }
  }

  lemma FoundOccurs(value: string, i: nat)
    requires Find(value, AUTHORITY_SEPARATOR, 0) == Some(i)
    ensures Occurs(value, AUTHORITY_SEPARATOR, i) && i + 3 <= |value|
  {
    FindFirst(value, AUTHORITY_SEPARATOR, 0);
  }

  lemma FoundBefore(w: string, i: nat)
    requires Occurs(w, AUTHORITY_SEPARATOR, i)
    ensures var found := Find(w, AUTHORITY_SEPARATOR, 0);
      found.Some? && found.value <= i
  {
    FindFirst(w, AUTHORITY_SEPARATOR, 0);
  }

  lemma HashBeforeSeparator(value: string, authority: string)
    requires value != "" && value[|value| - 1] == '#'
    ensures Occurs(value + (AUTHORITY_SEPARATOR + authority), AUTHORITY_SEPARATOR, |value| - 1)
  {
    var w, last := value + (AUTHORITY_SEPARATOR + authority), |value| - 1;
    assert w[last] == w[last + 1] == w[last + 2] == '#';
  }

  lemma AuthoritySplits(value: string, authority: string)
    ensures var w := value + AUTHORITY_SEPARATOR + authority;
      && (BeforeAuthority(w) == value <==> AuthorityClean(value))
      && (AfterAuthority(w) == authority <==> AuthorityClean(value))
  {
    var w := value + AUTHORITY_SEPARATOR + authority;
    assert w == value + (AUTHORITY_SEPARATOR + authority);
    if AuthorityClean(value) {
      CleanHasNone(value, authority);
      assert w[..|value|] == value && w[|value| + 3..] == authority;
    } else {
      UncleanHasOne(value, authority);
    }
  }

  // ---------- what the halves are

  lemma {:induction false} DropNothing(parts: seq<string>)
    requires parts != [] && parts[|parts| - 1] != ""
    ensures DropEmptyTail(parts) == parts
  {
  }

  lemma {:induction false} Dropped(parts: seq<string>)
    ensures var kept := DropEmptyTail(parts);
      |kept| <= |parts| && kept == parts[..|kept|] && forall i | |kept| <= i < |parts| :: parts[i] == ""
  {
    if parts != [] && parts[|parts| - 1] == "" {
      var init := parts[..|parts| - 1];
      Dropped(init);
      assert forall i | 0 <= i < |init| :: init[i] == parts[i];
    }
  }

  /** With no separator across the joint, the parts are those of both sides. */
  lemma SplitBothSides(lower: string, last: string, sep: string)
    requires sep != "" && NoneAcross(lower + (sep + last), |lower|, sep)
    ensures Split(lower + (sep + last), sep) == DropEmptyTail(SplitAll(lower, sep) + SplitAll(last, sep))
  {
    FindBeforeJoint(lower, last, sep);
    SplitsAtJoint(lower, last, sep);
  }

  lemma SameLength(parts: seq<string>, i: nat, b: seq<string>, k: nat)
    requires i <= |parts| && k <= |b| && parts[i..] == b[k..]
    ensures |parts| - i == |b| - k
  {
    assert |parts[i..]| == |parts| - i;
  }

  lemma SameSuffix(parts: seq<string>, i: nat, b: seq<string>, k: nat)
    requires i < |parts| && k < |b| && parts[i..] == b[k..]
    ensures parts[i] == b[k] && parts[i + 1..] == b[k + 1..]
  {
    assert parts[i..][0] == parts[i] && b[k..][0] == b[k];
    assert parts[i..][1..] == parts[i + 1..] && b[k..][1..] == b[k + 1..];
  }

  lemma BeforesStep(parts: seq<string>, i: nat, b: seq<string>, k: nat)
    requires i < |parts| && k < |b| && parts[i] == b[k] && Befores(parts, i + 1) == Befores(b, k + 1)
    ensures Befores(parts, i) == Befores(b, k)
  {
  }

  lemma {:induction false} BeforesTail(parts: seq<string>, i: nat, b: seq<string>, k: nat)
    requires i <= |parts| && k <= |b| && parts[i..] == b[k..]
    ensures Befores(parts, i) == Befores(b, k)
    decreases |b| - k
  {
    SameLength(parts, i, b, k);
    if k < |b| {
      SameSuffix(parts, i, b, k);
      BeforesTail(parts, i + 1, b, k + 1);
      BeforesStep(parts, i, b, k);
    }
  }

  lemma AftersStep(parts: seq<string>, i: nat, b: seq<string>, k: nat)
    requires i < |parts| && k < |b| && parts[i] == b[k] && Afters(parts, i + 1) == Afters(b, k + 1)
    ensures Afters(parts, i) == Afters(b, k)
  {
  }

  lemma {:induction false} AftersTail(parts: seq<string>, i: nat, b: seq<string>, k: nat)
    requires i <= |parts| && k <= |b| && parts[i..] == b[k..]
    ensures Afters(parts, i) == Afters(b, k)
    decreases |b| - k
  {
    SameLength(parts, i, b, k);
    if k < |b| {
      SameSuffix(parts, i, b, k);
      AftersTail(parts, i + 1, b, k + 1);
      AftersStep(parts, i, b, k);
    }
  }

  lemma {:induction false} ConcatPrefix(parts: seq<string>, more: seq<string>, count: nat)
    requires count <= |parts|
    ensures Concat(parts + more, count) == Concat(parts, count)
  {
    if count > 0 { ConcatPrefix(parts, more, count - 1); }
  }

  lemma {:induction false} LengthOfConcat(pieces: seq<string>, count: nat)
    requires count <= |pieces|
    ensures |Concat(pieces, count)| == SumTo(pieces, count)
  {
    if count > 0 { LengthOfConcat(pieces, count - 1); }
  }

  lemma {:induction false} LengthOfBefores(parts: seq<string>, from: nat)
    requires from <= |parts|
    ensures |Befores(parts, from)| + SumTo(parts, from) <= SumTo(parts, |parts|)
    decreases |parts| - from
  {
    if from < |parts| { LengthOfBefores(parts, from + 1); }
  }

  /** The lower case comes back from its parts if and only if it is one part. */
  lemma LowerBackIff(lower: string, sep: string)
    requires sep != ""
    ensures var ls := SplitAll(lower, sep); Concat(ls, |ls|) == lower <==> |ls| == 1
  {
    var ls := SplitAll(lower, sep);
    SplitSum(lower, sep);
    LengthOfConcat(ls, |ls|);
    if |ls| == 1 {
      WholeIsOnePart(lower, sep);
      assert Concat(ls, 1) == "" + lower == lower;
    }
  }

  // ---------- with an authority

  /** No separator lies across the one that is written, nor reaches past the value. */
  ghost predicate Unmixed(lower: string, value: string, authority: string, sep: string) {
    var last := value + (AUTHORITY_SEPARATOR + authority);
    sep != "" && NoneAcross(lower + (sep + last), |lower|, sep) && NoneBeyond(last, |value|, sep)
  }

  lemma EncodeGrouped(lower: string, value: string, authority: string, sep: string)
    ensures Encode(lower, value, authority, sep) == lower + (sep + (value + (AUTHORITY_SEPARATOR + authority)))
  {
  }

  lemma SplitEncoded(lower: string, value: string, authority: string, sep: string)
    requires Unmixed(lower, value, authority, sep)
    ensures Split(Encode(lower, value, authority, sep), sep)
         == SplitAll(lower, sep) + Extended(SplitAll(value, sep), AUTHORITY_SEPARATOR + authority)
  {
    var more := AUTHORITY_SEPARATOR + authority;
    EncodeGrouped(lower, value, authority, sep);
    SplitBothSides(lower, value + more, sep);
    SplitExtended(value, more, sep);
    var ls, vs := SplitAll(lower, sep), Extended(SplitAll(value, sep), more);
    assert (ls + vs)[|ls + vs| - 1] == vs[|vs| - 1];
    DropNothing(ls + vs);
  }

  lemma CutsBackToValue(value: string, authority: string)
    ensures |BeforeAuthority(value + (AUTHORITY_SEPARATOR + authority))| <= |value|
    ensures BeforeAuthority(value + (AUTHORITY_SEPARATOR + authority)) == value <==> AuthorityClean(value)
    ensures AfterAuthority(value + (AUTHORITY_SEPARATOR + authority)) == authority <==> AuthorityClean(value)
    ensures |AfterAuthority(value + (AUTHORITY_SEPARATOR + authority))| >= |authority|
  {
    AuthoritySplits(value, authority);
    Assoc(value, AUTHORITY_SEPARATOR, authority);
    if AuthorityClean(value) { CleanHasNone(value, authority); } else { UncleanHasOne(value, authority); }
  }

  lemma {:induction false} LengthOfDisplayed(vs: seq<string>, authority: string, from: nat)
    requires from < |vs|
    ensures |Befores(Extended(vs, AUTHORITY_SEPARATOR + authority), from)| + SumTo(vs, from) <= SumTo(vs, |vs|)
    decreases |vs| - from
  {
    if from + 1 == |vs| {
      CutsBackToValue(vs[from], authority);
    } else {
      LengthOfDisplayed(vs, authority, from + 1);
    }
  }

  /** The authority comes back from the parts if and only if the last one is
      clean and none of the others has anything after an authority separator. */
  lemma {:induction false} AuthorityBackIff(vs: seq<string>, authority: string, from: nat)
    requires from < |vs|
    ensures var found := Afters(Extended(vs, AUTHORITY_SEPARATOR + authority), from);
      && |found| >= |authority|
      && (found == authority <==>
            (AuthorityClean(vs[|vs| - 1]) && forall i | from <= i < |vs| - 1 :: AfterAuthority(vs[i]) == ""))
    decreases |vs| - from
  {
    var ext := Extended(vs, AUTHORITY_SEPARATOR + authority);
    if from + 1 == |vs| {
      CutsBackToValue(vs[from], authority);
      assert Afters(ext, from) == AfterAuthority(ext[from]) + "" == AfterAuthority(ext[from]);
    } else {
      AuthorityBackIff(vs, authority, from + 1);
      assert ext[from] == vs[from];
      PrefixedIff(AfterAuthority(vs[from]), Afters(ext, from + 1), authority);
      AllFrom(vs, from);
    }
  }

  lemma PrefixedIff(first: string, rest: string, whole: string)
    requires |rest| >= |whole|
    ensures |first + rest| >= |whole| && (first + rest == whole <==> (first == "" && rest == whole))
  {
    if first == "" { assert first + rest == rest; }
  }

  lemma AllFrom(vs: seq<string>, from: nat)
    requires from + 1 < |vs|
    ensures (forall i | from <= i < |vs| - 1 :: AfterAuthority(vs[i]) == "") <==>
      (AfterAuthority(vs[from]) == "" && forall i | from + 1 <= i < |vs| - 1 :: AfterAuthority(vs[i]) == "")
  {
  }

  /** What the decoders make of the halves. */
  lemma DecodeHalves(s: string, sep: string, ls: seq<string>, vs: seq<string>)
    requires sep != "" && Split(s, sep) == ls + vs && |ls| == |vs|
    ensures Sorted(s, sep) == Concat(ls, |ls|) && Displayed(s, sep) == Befores(vs, 0)
    ensures Authority(s, sep) == if Afters(vs, 0) == "" then None else Some(Afters(vs, 0))
  {
    assert |ls + vs| / 2 == |ls|;
    ConcatPrefix(ls, vs, |ls|);
    assert (ls + vs)[|ls|..] == vs == vs[0..];
    BeforesTail(ls + vs, |ls|, vs, 0);
    AftersTail(ls + vs, |ls|, vs, 0);
  }

  /** The round trip, exactly, for a lower case with as many separators in it as
      the value: each of the three comes back if and only if what follows holds. */
  lemma EncodedIff(lower: string, value: string, authority: string, sep: string)
    requires Unmixed(lower, value, authority, sep) && |SplitAll(lower, sep)| == |SplitAll(value, sep)|
    ensures var s, vs := Encode(lower, value, authority, sep), SplitAll(value, sep);
      && (Sorted(s, sep) == lower <==> Find(value, sep, 0) == None)
      && (Displayed(s, sep) == value <==> (Find(value, sep, 0) == None && AuthorityClean(value)))
      && (Authority(s, sep) == Some(authority) <==>
            (authority != "" && AuthorityClean(vs[|vs| - 1])
              && forall i | 0 <= i < |vs| - 1 :: AfterAuthority(vs[i]) == ""))
  {
    var s, ls, vs := Encode(lower, value, authority, sep), SplitAll(lower, sep), SplitAll(value, sep);
    var ext := Extended(vs, AUTHORITY_SEPARATOR + authority);
    SplitEncoded(lower, value, authority, sep);
    DecodeHalves(s, sep, ls, ext);
    LowerBackIff(lower, sep);
    SplitSum(value, sep);
    LengthOfDisplayed(vs, authority, 0);
    AuthorityBackIff(vs, authority, 0);
    if |vs| == 1 {
      WholeIsOnePart(value, sep);
      CutsBackToValue(value, authority);
      assert Befores(ext, 0) == BeforeAuthority(ext[0]) + "" == BeforeAuthority(ext[0]);
    }
  }

  /** No separator begins before the one that is written, nor anywhere after it. */
  ghost predicate Clear(lower: string, last: string, sep: string) {
    && sep != ""
    && (forall j: nat | j < |lower| :: !Occurs(lower + (sep + last), sep, j))
    && (forall j: nat :: !Occurs(last, sep, j))
  }

  lemma ClearSides(lower: string, value: string, more: string, sep: string)
    requires Clear(lower, value + more, sep)
    ensures Find(lower, sep, 0) == None && Find(value, sep, 0) == None
  {
    forall j: nat ensures !Occurs(lower, sep, j) {
      if j + |sep| <= |lower| { OccursBefore(lower, sep + (value + more), sep, j); }
    }
    FindNone(lower, sep, 0);
    forall j: nat ensures !Occurs(value, sep, j) {
      if j + |sep| <= |value| { OccursBefore(value, more, sep, j); }
    }
    FindNone(value, sep, 0);
  }

  /** The round trip for strings without a separator in or across them: the
      lower case always comes back, the value if and only if no authority
      separator begins in it, and the authority if and only if, besides, there is one. */
  lemma FacetRoundTrip(lower: string, value: string, authority: string, sep: string)
    requires Clear(lower, value + (AUTHORITY_SEPARATOR + authority), sep)
    ensures var s := Encode(lower, value, authority, sep);
      && Sorted(s, sep) == lower
      && (Displayed(s, sep) == value <==> AuthorityClean(value))
      && (Authority(s, sep) == Some(authority) <==> (AuthorityClean(value) && authority != ""))
  {
    ClearSides(lower, value, AUTHORITY_SEPARATOR + authority, sep);
    WholeIsOnePart(lower, sep);
    WholeIsOnePart(value, sep);
    EncodedIff(lower, value, authority, sep);
  }

  /** A character of the separator in none of the strings is enough. */
  lemma MarkedIsClear(lower: string, last: string, sep: string, c: char)
    requires c in sep && c !in lower && c !in last
    ensures Clear(lower, last, sep)
  {
    NoneInPiece(lower, sep, last, c);
    FindFirst(lower + (sep + last), sep, 0);
    NoneInLast(last, sep, c);
    FindFirst(last, sep, 0);
  }

  /** For the separator used unless another is configured, lines are enough. */
  lemma DefaultSeparator(lower: string, value: string, authority: string)
    requires '\n' !in lower && '\n' !in value && '\n' !in authority && authority != ""
    ensures var s := Encode(lower, value, authority, FILTER_SEPARATOR);
      && Sorted(s, FILTER_SEPARATOR) == lower
      && (Displayed(s, FILTER_SEPARATOR) == value <==> AuthorityClean(value))
      && (Authority(s, FILTER_SEPARATOR) == Some(authority) <==> AuthorityClean(value))
  {
    assert FILTER_SEPARATOR[0] == '\n';
    MarkedIsClear(lower, value + (AUTHORITY_SEPARATOR + authority), FILTER_SEPARATOR, '\n');
    FacetRoundTrip(lower, value, authority, FILTER_SEPARATOR);
  }

  // ---------- without an authority

  /** As many parts, and empty in the same places. */
  ghost predicate SameShape(ls: seq<string>, vs: seq<string>) {
    |ls| == |vs| && forall i | 0 <= i < |ls| :: ls[i] == "" <==> vs[i] == ""
  }

  lemma {:induction false} SumOfConcat(a: seq<string>, b: seq<string>, k: nat)
    requires k <= |b|
    ensures SumTo(a + b, |a| + k) == SumTo(a, |a|) + SumTo(b, k)
  {
    if k > 0 { SumOfConcat(a, b, k - 1); } else { SumOfPrefix(a, b, |a|); }
  }

  lemma {:induction false} SumOfPrefix(a: seq<string>, b: seq<string>, k: nat)
    requires k <= |a|
    ensures SumTo(a + b, k) == SumTo(a, k)
  {
    if k > 0 { SumOfPrefix(a, b, k - 1); }
  }

  lemma {:induction false} SumOfEmpty(parts: seq<string>, from: nat, to: nat)
    requires from <= to <= |parts|
    requires forall i | from <= i < to :: parts[i] == ""
    ensures SumTo(parts, to) == SumTo(parts, from)
  {
    if from < to { SumOfEmpty(parts, from, to - 1); }
  }

  /** What is left of the parts when empty ones are dropped from the end. */
  ghost predicate DroppedTo(parts: seq<string>, kept: seq<string>) {
    |kept| <= |parts| && kept == parts[..|kept|] && forall i | |kept| <= i < |parts| :: parts[i] == ""
  }

  lemma SumOfKept(parts: seq<string>, kept: seq<string>, k: nat)
    requires DroppedTo(parts, kept) && k <= |kept|
    ensures SumTo(kept, k) == SumTo(parts, k)
  {
    assert parts == kept + parts[|kept|..];
    SumOfPrefix(kept, parts[|kept|..], k);
  }

  lemma SumOfAllKept(parts: seq<string>, kept: seq<string>)
    requires DroppedTo(parts, kept)
    ensures SumTo(kept, |kept|) == SumTo(parts, |parts|)
  {
    SumOfKept(parts, kept, |kept|);
    SumOfEmpty(parts, |kept|, |parts|);
  }

  lemma SumOfBoth(ls: seq<string>, vs: seq<string>)
    ensures SumTo(ls + vs, |ls + vs|) == SumTo(ls, |ls|) + SumTo(vs, |vs|)
  {
    SumOfConcat(ls, vs, |vs|);
  }

  lemma EmptyPart(ls: seq<string>, vs: seq<string>, kept: seq<string>, i: nat)
    requires SameShape(ls, vs) && DroppedTo(ls + vs, kept) && |kept| / 2 <= i < |ls|
    ensures ls[i] == ""
  {
    var k := |ls| + i;
    assert (ls + vs)[k] == vs[i] && |kept| <= k;
  }

  /** Of equal shape, the halves lose empty parts only. */
  lemma EmptyAfterHalf(ls: seq<string>, vs: seq<string>, kept: seq<string>)
    requires SameShape(ls, vs) && DroppedTo(ls + vs, kept)
    ensures SumTo(ls, |kept| / 2) == SumTo(ls, |ls|)
  {
    forall i | |kept| / 2 <= i < |ls| ensures ls[i] == "" { EmptyPart(ls, vs, kept, i); }
    SumOfEmpty(ls, |kept| / 2, |ls|);
  }

  lemma LowerHalf(ls: seq<string>, vs: seq<string>, kept: seq<string>)
    requires |ls| == |vs| && DroppedTo(ls + vs, kept)
    ensures |Concat(kept, |kept| / 2)| == SumTo(kept, |kept| / 2) == SumTo(ls, |kept| / 2)
  {
    LengthOfConcat(kept, |kept| / 2);
    SumOfKept(ls + vs, kept, |kept| / 2);
    SumOfPrefix(ls, vs, |kept| / 2);
  }

  /** Dropping empty parts from the end takes as much of both halves, so that
      neither half grows. */
  lemma HalvesAfterDrop(ls: seq<string>, vs: seq<string>)
    requires SameShape(ls, vs)
    ensures var kept := DropEmptyTail(ls + vs);
      && |Concat(kept, |kept| / 2)| <= SumTo(ls, |ls|)
      && |Befores(kept, |kept| / 2)| <= SumTo(vs, |vs|)
  {
    var kept := DropEmptyTail(ls + vs);
    Dropped(ls + vs);
    EmptyAfterHalf(ls, vs, kept);
    LowerHalf(ls, vs, kept);
    LengthOfBefores(kept, |kept| / 2);
    SumOfAllKept(ls + vs, kept);
    SumOfBoth(ls, vs);
  }

  lemma DecodePlainPair(lower: string, value: string, sep: string)
    requires sep != "" && Split(lower + (sep + value), sep) == DropEmptyTail([lower] + [value])
    requires value == "" ==> lower == ""
    ensures var s := lower + (sep + value);
      && Sorted(s, sep) == lower && Displayed(s, sep) == BeforeAuthority(value)
      && Authority(s, sep) == if AfterAuthority(value) == "" then None else Some(AfterAuthority(value))
  {
    var s, parts := lower + (sep + value), [lower] + [value];
    if value == "" {
      assert parts[..1] == [lower] && [lower][..0] == [];
      assert DropEmptyTail([lower]) == [];
      assert Find("", AUTHORITY_SEPARATOR, 0) == None;
    } else {
      DropNothing(parts);
      DecodeHalves(s, sep, [lower], [value]);
      assert Concat([lower], 1) == "" + lower == lower;
      assert Befores([value], 0) == BeforeAuthority(value) + "" == BeforeAuthority(value);
      assert Afters([value], 0) == AfterAuthority(value) + "" == AfterAuthority(value);
    }
  }

  lemma BeforeIsAll(value: string)
    ensures BeforeAuthority(value) == value <==> Find(value, AUTHORITY_SEPARATOR, 0) == None
    ensures Find(value, AUTHORITY_SEPARATOR, 0) == None ==> AfterAuthority(value) == ""
  {
  }

  /** The round trip without an authority, exactly, for a lower case of the
      value's shape: what holds a separator does not come back. */
  lemma PlainIff(lower: string, value: string, sep: string)
    requires sep != "" && NoneAcross(lower + (sep + value), |lower|, sep)
    requires SameShape(SplitAll(lower, sep), SplitAll(value, sep))
    ensures var s := EncodePlain(lower, value, sep);
      && (Sorted(s, sep) == lower <==> Find(value, sep, 0) == None)
      && (Displayed(s, sep) == value <==> (Find(value, sep, 0) == None && Find(value, AUTHORITY_SEPARATOR, 0) == None))
      && (Find(value, sep, 0) == None && Find(value, AUTHORITY_SEPARATOR, 0) == None ==> Authority(s, sep) == None)
  {
    var ls, vs := SplitAll(lower, sep), SplitAll(value, sep);
    Assoc(lower, sep, value);
    SplitBothSides(lower, value, sep);
    SplitSum(lower, sep);
    SplitSum(value, sep);
    if |vs| == 1 {
      WholeIsOnePart(lower, sep);
      WholeIsOnePart(value, sep);
      assert ls[0] == lower && vs[0] == value;
      DecodePlainPair(lower, value, sep);
      BeforeIsAll(value);
    } else {
      HalvesAfterDrop(ls, vs);
    }
  }

  /** Without an authority, a value that holds the authority separator is cut there. */
  lemma PlainRoundTrip(lower: string, value: string, sep: string)
    requires Clear(lower, value, sep) && (value == "" ==> lower == "")
    ensures var s := EncodePlain(lower, value, sep);
      && Sorted(s, sep) == lower
      && (Displayed(s, sep) == value <==> Find(value, AUTHORITY_SEPARATOR, 0) == None)
      && (Find(value, AUTHORITY_SEPARATOR, 0) == None ==> Authority(s, sep) == None)
  {
    assert value + "" == value;
    ClearSides(lower, value, "", sep);
    WholeIsOnePart(lower, sep);
    WholeIsOnePart(value, sep);
    Assoc(lower, sep, value);
    SplitBothSides(lower, value, sep);
    DecodePlainPair(lower, value, sep);
    BeforeIsAll(value);
  }

  // ---------- values that hold the separator

  /** Parts without an authority are displayed whole. */
  lemma {:induction false} BeforesWithout(parts: seq<string>, lowers: seq<string>, values: seq<string>, count: nat)
    requires parts == lowers + values && count <= |values|
    requires forall i | 0 <= i < |values| :: Find(values[i], AUTHORITY_SEPARATOR, 0) == None
    ensures Along(Concat(values, count), Befores(parts, |lowers| + count), Befores(parts, |lowers|))
  {
    if count > 0 {
      var value := values[count - 1];
      BeforesWithout(parts, lowers, values, count - 1);
      assert parts[|lowers| + count - 1] == value;
      AlongNext(Concat(values, count - 1), value, Befores(parts, |lowers| + count), Befores(parts, |lowers|));
    }
  }

  lemma {:induction false} LengthOfJoin(pieces: seq<string>, sep: string, k: nat)
    requires k < |pieces|
    ensures SumTo(pieces, k) + |JoinFrom(pieces, sep, k)| == SumTo(pieces, |pieces|) + (|pieces| - 1 - k) * |sep|
    decreases |pieces| - k
  {
    if k + 1 < |pieces| {
      LengthOfJoin(pieces, sep, k + 1);
      assert (|pieces| - 1 - k) * |sep| == (|pieces| - 2 - k) * |sep| + |sep|;
    }
  }

  lemma ProductPositive(a: nat, b: nat)
    requires a > 0 && b > 0
    ensures a * b > 0
  {
  }

  lemma ConcatIsJoinIff(pieces: seq<string>, sep: string)
    requires pieces != [] && sep != ""
    ensures Concat(pieces, |pieces|) == Join(pieces, sep) <==> |pieces| == 1
  {
    if |pieces| == 1 {
      assert Concat(pieces, 1) == "" + pieces[0] == pieces[0];
    } else {
      JoinIsLonger(pieces, sep);
    }
  }

  lemma JoinIsLonger(pieces: seq<string>, sep: string)
    requires |pieces| > 1 && sep != ""
    ensures |Concat(pieces, |pieces|)| < |Join(pieces, sep)|
  {
    LengthOfJoin(pieces, sep, 0);
    LengthOfConcat(pieces, |pieces|);
    ProductPositive(|pieces| - 1, |sep|);
  }

  lemma HalvesDecoded(parts: seq<string>, lowers: seq<string>, values: seq<string>)
    requires parts == lowers + values && |lowers| == |values|
    requires forall i | 0 <= i < |values| :: Find(values[i], AUTHORITY_SEPARATOR, 0) == None
    ensures Concat(parts, |lowers|) == Concat(lowers, |lowers|)
    ensures Befores(parts, |lowers|) == Concat(values, |values|)
  {
    var n := |lowers|;
    ConcatPrefix(lowers, values, n);
    BeforesWithout(parts, lowers, values, n);
    assert Concat(values, n) + "" == Concat(values, n);
  }

  lemma MarksConcat(c: char, sep: string, a: seq<string>, b: seq<string>)
    requires Marks(c, sep, a) && Marks(c, sep, b) && b != []
    ensures Marks(c, sep, a + b) && (a + b)[|a + b| - 1] == b[|b| - 1]
  {
  }

  /** A value in several pieces, with the separator between them, and its lower
      case in as many: halving the parts still tells the two apart, but the
      separators are lost, so the value comes back if and only if there is one piece. */
  lemma SeparatorsAreLost(lowers: seq<string>, values: seq<string>, sep: string, c: char)
    requires |lowers| == |values| > 0 && values[|values| - 1] != ""
    requires Marks(c, sep, lowers) && Marks(c, sep, values)
    requires forall i | 0 <= i < |values| :: Find(values[i], AUTHORITY_SEPARATOR, 0) == None
    ensures var s := Join(lowers + values, sep);
      && Sorted(s, sep) == Concat(lowers, |lowers|) && Displayed(s, sep) == Concat(values, |values|)
      && (Displayed(s, sep) == Join(values, sep) <==> |values| == 1)
  {
    var parts := lowers + values;
    MarksConcat(c, sep, lowers, values);
    assert |parts| / 2 == |lowers|;
    SplitOfJoin(parts, sep, c);
    HalvesDecoded(parts, lowers, values);
    ConcatIsJoinIff(values, sep);
  }

  // ---------- the names of the facet fields

  datatype FacetType = TextFacet | DateFacet | Ac | Hierarchical | AuthorityFacet | Standard | Other

  function Postfix(t: FacetType): string {
    match t
    case TextFacet => "_filter"
    case DateFacet => ".year"
    case Ac => "_ac"
    case Hierarchical => "_tax_0_filter"
    case AuthorityFacet => "_acid"
    case _ => ""
  }

  /** What is looked for when the postfix is removed. */
  function Sought(t: FacetType): string {
    if t == Hierarchical then "_tax_" else Postfix(t)
  }

  /** `transformFacetField`; no result where `substring` throws for want of a postfix. */
  function TransformFacetField(t: FacetType, field: string, removePostfix: bool): Option<string> {
    if t == Standard || t == Other then Some(field)
    else if !removePostfix then Some(field + Postfix(t))
    else
      match FindLast(field, Sought(t), |field|)
      case Some(i) => Some(field[..i])
      case None => if t == Hierarchical then Some(field) else None
  }

  lemma PostfixOccurs(t: FacetType, field: string)
    ensures Occurs(field + Postfix(t), Sought(t), |field|)
  {
    var s, p := field + Postfix(t), Sought(t);
    forall k | 0 <= k < |p| ensures s[|field| + k] == p[k] {
      assert s[|field| + k] == Postfix(t)[k];
    }
  }

  lemma LastIsPostfix(t: FacetType, field: string)
    requires t != Standard && t != Other
    ensures FindLast(field + Postfix(t), Sought(t), |field + Postfix(t)|) == Some(|field|)
  {
    var s, p := field + Postfix(t), Sought(t);
    PostfixOccurs(t, field);
    forall j: nat | |field| < j <= |s| ensures !Occurs(s, p, j) {
      if t == Hierarchical && j + |p| <= |s| { LaterInPostfix(field, j - |field|); }
    }
  }

  /** The second part of the top level postfix does not look like its first. */
  lemma LaterInPostfix(field: string, d: nat)
    requires 0 < d <= 8
    ensures !Occurs(field + Postfix(Hierarchical), "_tax_", |field| + d)
  {
    var s := field + Postfix(Hierarchical);
    assert s[|field| + d] == Postfix(Hierarchical)[d] && s[|field| + d + 1] == Postfix(Hierarchical)[d + 1];
    assert Postfix(Hierarchical)[d] != "_tax_"[0] || Postfix(Hierarchical)[d + 1] != "_tax_"[1];
  }

  /** Removing the postfix undoes adding it, for every type and every field. */
  lemma PostfixUndone(t: FacetType, field: string)
    ensures var named := TransformFacetField(t, field, false);
      named.Some? && TransformFacetField(t, named.value, true) == Some(field)
  {
    if t != Standard && t != Other {
      LastIsPostfix(t, field);
      assert (field + Postfix(t))[..|field|] == field;
    }
  }

  /** Adding undoes removing exactly on the names that end with the postfix. */
  lemma PostfixRestored(t: FacetType, name: string)
    requires t != Standard && t != Other
    ensures var bare := TransformFacetField(t, name, true);
      (bare.Some? && TransformFacetField(t, bare.value, false) == Some(name)) <==> EndsWith(name, Postfix(t))
  {
    var bare := TransformFacetField(t, name, true);
    if EndsWith(name, Postfix(t)) {
      var field := name[..|name| - |Postfix(t)|];
      assert name == field + Postfix(t);
      PostfixUndone(t, field);
    } else if bare.Some? {
      var again := bare.value + Postfix(t);
      assert again[|again| - |Postfix(t)|..] == Postfix(t);
    }
  }
}
