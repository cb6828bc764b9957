/** The ranking of an Accept header, in exact reals. */
module AcceptHeader {
  import opened Prelude
  import opened Splitting
  import opened Strings

  /** What the ranking takes from the Java library. */
  datatype Reader = Reader(trim: string -> string, parseFloat: string -> Option<real>)

  /** One part of the header, split at semicolons. */
  datatype Part = SplitPart(components: seq<string>)

  function PartsOf(header: string): (parts: seq<Part>)
    ensures |parts| == |Split(header, ",")|
    ensures forall i | 0 <= i < |parts| :: parts[i].components == Split(Split(header, ",")[i], ";")
  {
    var pieces := Split(header, ",");
    seq(|pieces|, i requires 0 <= i < |pieces| => SplitPart(Split(pieces[i], ";")))
  }

  /** What a part is ranked by: its label, and its quality if that is positive;
      a part without one has minus its position, counted from one. */
  datatype Range = Range(name: string, q: real)

  predicate Qualified(components: seq<string>, r: Reader) {
    |components| == 3 || (|components| == 2 && StartsWith(r.trim(components[1]), "q="))
  }

  function Unqualified(position: nat): real { -(position as real) }

  /** No result where an exception is thrown.  With three components the
      quality is read from the second, not from the third. */
  function Ranged(components: seq<string>, position: nat, r: Reader): Option<Range> {
    if components == [] then None
    else if Qualified(components, r) then
      var second := r.trim(components[1]);
      if |second| < 2 || r.parseFloat(second[2..]).None? then None
      else Some(Range(if |components| == 2 then r.trim(components[0]) else r.trim(components[0]) + ";" + second,
                      r.parseFloat(second[2..]).value))
    else Some(Range(if |components| == 2 then r.trim(components[0]) + ";" + r.trim(components[1])
                    else r.trim(components[0]),
                    Unqualified(position)))
  }

  predicate Readable(parts: seq<Part>, r: Reader) {
    forall i | 0 <= i < |parts| :: Ranged(parts[i].components, i + 1, r).Some?
  }

  function Ranges(parts: seq<Part>, r: Reader): (ranges: seq<Range>)
    requires Readable(parts, r)
    ensures |ranges| == |parts|
      && forall i | 0 <= i < |parts| :: Ranged(parts[i].components, i + 1, r) == Some(ranges[i])
  {
    seq(|parts|, i requires 0 <= i < |parts| => Ranged(parts[i].components, i + 1, r).value)
  }

  function Highest(ranges: seq<Range>): real {
    if ranges == [] then 0.0
    else
      var before, last := Highest(ranges[..|ranges| - 1]), ranges[|ranges| - 1].q;
      if last > before then last else before
  }

  /** Where a part is placed: at its quality, or in the gap above the highest one. */
  function Key(q: real, highest: real, count: nat): real
    requires count > 0
  {
    if q > 0.0 then q else highest + (-q / count as real) * (1.0 - highest)
  }

  type Buckets = map<real, seq<string>>

  function Put(buckets: Buckets, key: real, name: string): Buckets {
    buckets[key := (if key in buckets then buckets[key] else []) + [name]]
  }

  /** The labels of the parts placed at a key, in the order of the header. */
  function LabelsAt(ranges: seq<Range>, key: real, highest: real, count: nat): seq<string>
    requires count > 0
  {
    if ranges == [] then []
    else
      var before, last := LabelsAt(ranges[..|ranges| - 1], key, highest, count), ranges[|ranges| - 1];
      if Key(last.q, highest, count) == key then before + [last.name] else before
  }

  /** Every part is in one bucket, that of its key, and no bucket is empty. */
  ghost predicate Placed(ranges: seq<Range>, buckets: Buckets, highest: real, count: nat)
    requires count > 0
  {
    forall key: real ::
      && (key in buckets <==> LabelsAt(ranges, key, highest, count) != [])
      && (key in buckets ==> buckets[key] == LabelsAt(ranges, key, highest, count))
  }

  lemma PlaceNext(ranges: seq<Range>, next: Range, buckets: Buckets, highest: real, count: nat)
    requires count > 0 && Placed(ranges, buckets, highest, count)
    ensures Placed(ranges + [next], Put(buckets, Key(next.q, highest, count), next.name), highest, count)
  {
    var all := ranges + [next];
    assert all[..|all| - 1] == ranges;
    var placed := Key(next.q, highest, count);
    forall key: real
      ensures LabelsAt(all, key, highest, count)
           == LabelsAt(ranges, key, highest, count) + if key == placed then [next.name] else []
    {
    }
  }

  method ReadPart(part: string, position: nat, r: Reader) returns (range: Option<Range>, qualified: bool)
    ensures range == Ranged(Split(part, ";"), position, r)
    ensures range.Some? && !qualified ==> range.value.q <= 0.0
    ensures qualified ==> Qualified(Split(part, ";"), r)
  {
    var components := Split(part, ";");
    range, qualified := Ranged(components, position, r), Qualified(components, r);
  }

  lemma HighestNext(ranges: seq<Range>, next: Range)
    ensures Highest(ranges + [next]) == if next.q > Highest(ranges) then next.q else Highest(ranges)
  {
    assert (ranges + [next])[..|ranges|] == ranges;
  }

  /** The parts read so far. */
  ghost predicate ReadSoFar(parts: seq<Part>, ranges: seq<Range>, r: Reader) {
    |ranges| <= |parts| && forall i | 0 <= i < |ranges| :: Ranged(parts[i].components, i + 1, r) == Some(ranges[i])
  }

  lemma ReadOneMore(parts: seq<Part>, ranges: seq<Range>, next: Option<Range>, r: Reader)
    requires ReadSoFar(parts, ranges, r) && |ranges| < |parts|
    requires next == Ranged(parts[|ranges|].components, |ranges| + 1, r)
    ensures if next.Some? then ReadSoFar(parts, ranges + [next.value], r) else !Readable(parts, r)
  {
  }

  lemma ReadAll(parts: seq<Part>, ranges: seq<Range>, r: Reader)
    requires ReadSoFar(parts, ranges, r) && |ranges| == |parts|
    ensures Readable(parts, r) && Ranges(parts, r) == ranges
  {
  }

  method ReadParts(header: string, r: Reader) returns (unsorted: Option<seq<Range>>, highest: real)
    ensures unsorted.Some? <==> Readable(PartsOf(header), r)
    ensures unsorted.Some? ==> unsorted.value == Ranges(PartsOf(header), r) && highest == Highest(unsorted.value)
  {
    var pieces := Split(header, ",");
    ghost var parts := PartsOf(header);
    var ranges: seq<Range> := [];
    highest := 0.0;
    var counter := 0;
    while counter < |pieces|
      invariant 0 <= counter == |ranges| <= |pieces| && ReadSoFar(parts, ranges, r)
      invariant highest == Highest(ranges) && highest >= 0.0
    {
      counter := counter + 1;
      var range, qualified := ReadPart(pieces[counter - 1], counter, r);
      ReadOneMore(parts, ranges, range, r);
      if range.None? {
        return None, highest;
      }
      if qualified && range.value.q > highest { highest := range.value.q; }
      HighestNext(ranges, range.value);
      ranges := ranges + [range.value];
    }
    ReadAll(parts, ranges, r);
    unsorted := Some(ranges);
  }

  method PlaceAll(ranges: seq<Range>, highest: real, count: nat) returns (sorted: Buckets)
    requires count == |ranges|
    ensures ranges == [] ==> sorted == map[]
    ensures ranges != [] ==> Placed(ranges, sorted, highest, count)
  {
    sorted := map[];
    var i := 0;
    while i < |ranges|
      invariant 0 <= i <= |ranges|
      invariant i == 0 ==> sorted == map[]
      invariant count > 0 ==> Placed(ranges[..i], sorted, highest, count)
    {
      PlaceNext(ranges[..i], ranges[i], sorted, highest, count);
      assert ranges[..i + 1] == ranges[..i] + [ranges[i]];
      sorted := Put(sorted, Key(ranges[i].q, highest, count), ranges[i].name);
      i := i + 1;
    }
    assert ranges[..i] == ranges;
  }

  /** No header gives null, and a part that cannot be read an exception. */
  datatype Ranking = NoHeader | Unreadable | Ranked(buckets: Buckets)

  /** `analyseAccept`. */
  method AnalyseAccept(header: Option<string>, r: Reader) returns (ranking: Ranking)
    ensures ranking.NoHeader? <==> header.None?
    ensures ranking.Unreadable? <==> header.Some? && !Readable(PartsOf(header.value), r)
    ensures ranking.Ranked? && PartsOf(header.value) == [] ==> ranking.buckets == map[]
    ensures ranking.Ranked? && PartsOf(header.value) != [] ==>
      var ranges := Ranges(PartsOf(header.value), r);
      Placed(ranges, ranking.buckets, Highest(ranges), |ranges|)
  {
    if header.None? { return NoHeader; }
    var unsorted, highest := ReadParts(header.value, r);
    if unsorted.None? { return Unreadable; }
    var buckets := PlaceAll(unsorted.value, highest, |unsorted.value|);
    ranking := Ranked(buckets);
  }

  /** Texts without a comma are the parts of the header they make up, but for
      empty ones at the end of several. */
  lemma PartsOfJoined(texts: seq<string>)
    requires texts != [] && forall i | 0 <= i < |texts| :: ',' !in texts[i]
    ensures var parts, kept := PartsOf(Join(texts, ",")), if |texts| == 1 then texts else DropEmptyTail(texts);
      |parts| == |kept| && forall i | 0 <= i < |kept| :: parts[i].components == Split(kept[i], ";")
  {
    assert Marks(',', ",", texts);
    SplitOfJoin(texts, ",", ',');
  }

  // ---------- what the ranking means

  /** The highest quality asked for, or zero. */
  lemma {:induction false} HighestIs(ranges: seq<Range>)
    ensures Highest(ranges) >= 0.0
    ensures forall i | 0 <= i < |ranges| :: ranges[i].q <= Highest(ranges)
    ensures Highest(ranges) == 0.0 || exists i :: 0 <= i < |ranges| && ranges[i].q == Highest(ranges)
  {
    if ranges != [] {
      var init := ranges[..|ranges| - 1];
      HighestIs(init);
      if Highest(ranges) == Highest(init) && Highest(init) != 0.0 {
        var i :| 0 <= i < |init| && init[i].q == Highest(init);
        assert ranges[i].q == Highest(ranges);
      }
    }
  }

  function Names(ranges: seq<Range>): seq<string> {
    seq(|ranges|, i requires 0 <= i < |ranges| => ranges[i].name)
  }

  /** The labels at any of these keys, with their multiplicities. */
  ghost function Gathered(ranges: seq<Range>, keys: seq<real>, highest: real, count: nat): multiset<string>
    requires count > 0
  {
    if keys == [] then multiset{}
    else
      Gathered(ranges, keys[..|keys| - 1], highest, count)
      + multiset(LabelsAt(ranges, keys[|keys| - 1], highest, count))
  }

  ghost predicate AllDifferent(keys: seq<real>) {
    forall i, j | 0 <= i < j < |keys| :: keys[i] != keys[j]
  }

  lemma {:induction false} GatheredNext(ranges: seq<Range>, keys: seq<real>, highest: real, count: nat)
    requires count > 0 && ranges != [] && AllDifferent(keys)
    ensures var init, last := ranges[..|ranges| - 1], ranges[|ranges| - 1];
      Gathered(ranges, keys, highest, count)
      == Gathered(init, keys, highest, count)
         + if Key(last.q, highest, count) in keys then multiset{last.name} else multiset{}
    decreases |keys|
  {
    if keys != [] {
      var others, key := keys[..|keys| - 1], keys[|keys| - 1];
      assert keys == others + [key];
      GatheredNext(ranges, others, highest, count);
    }
  }

  lemma NamesNext(ranges: seq<Range>)
    requires ranges != []
    ensures multiset(Names(ranges)) == multiset(Names(ranges[..|ranges| - 1])) + multiset{ranges[|ranges| - 1].name}
  {
    assert Names(ranges) == Names(ranges[..|ranges| - 1]) + [ranges[|ranges| - 1].name];
  }

  /** Nothing is lost or made up: the buckets together hold the labels of the
      header, each as often as it occurs there. */
  lemma {:induction false} LabelsConserved(ranges: seq<Range>, keys: seq<real>, highest: real, count: nat)
    requires count > 0 && AllDifferent(keys)
    requires forall i | 0 <= i < |ranges| :: Key(ranges[i].q, highest, count) in keys
    ensures Gathered(ranges, keys, highest, count) == multiset(Names(ranges))
    decreases |ranges|
  {
    if ranges == [] {
      NothingGathered(keys, highest, count);
    } else {
      var init, last := ranges[..|ranges| - 1], ranges[|ranges| - 1];
      LabelsConserved(init, keys, highest, count);
      GatheredNext(ranges, keys, highest, count);
      NamesNext(ranges);
    }
  }

  lemma {:induction false} NothingGathered(keys: seq<real>, highest: real, count: nat)
    requires count > 0
    ensures Gathered([], keys, highest, count) == multiset{}
    decreases |keys|
  {
    if keys != [] { NothingGathered(keys[..|keys| - 1], highest, count); }
  }

  lemma SignOfFactor(a: real, n: real)
    requires n > 0.0
    ensures (a * n > 0.0 <==> a > 0.0) && (a * n < 0.0 <==> a < 0.0)
  {
  }

  /** The share of the gap that a position takes. */
  lemma Share(position: nat, count: nat)
    requires 0 < position <= count
    ensures 0.0 < position as real / count as real <= 1.0
  {
    var n := count as real;
    var share := position as real / n;
    assert share * n == position as real && (1.0 - share) * n == n - position as real;
    SignOfFactor(share, n);
    SignOfFactor(1.0 - share, n);
  }

  /** While some gap is left above the highest quality, a part without one is
      placed in it, the last of the header at one; if none is left they all
      share key one. */
  lemma UnqualifiedAbove(position: nat, count: nat, highest: real)
    requires 0 < position <= count && 0.0 <= highest <= 1.0
    ensures var key := Key(Unqualified(position), highest, count);
      && (highest < 1.0 ==> highest < key <= 1.0)
      && (highest == 1.0 ==> key == 1.0)
  {
    Share(position, count);
    var share, gap := position as real / count as real, 1.0 - highest;
    assert (1.0 - share) * gap == gap - share * gap;
    if gap > 0.0 {
      SignOfFactor(share, gap);
      SignOfFactor(1.0 - share, gap);
    }
  }

  /** Two parts without a quality are ranked by position: the later one higher
      below one, lower where some part asked for more than one, which is let
      through, and the two alike exactly where the highest quality is one. */
  lemma UnqualifiedOrder(i: nat, j: nat, count: nat, highest: real)
    requires 0 < i < j <= count
    ensures var a, b := Key(Unqualified(i), highest, count), Key(Unqualified(j), highest, count);
      && (a < b <==> highest < 1.0) && (a == b <==> highest == 1.0) && (a > b <==> highest > 1.0)
  {
    var n, gap := count as real, 1.0 - highest;
    var x, y := i as real / n, j as real / n;
    assert x * n == i as real && y * n == j as real;
    assert (y - x) * n > 0.0;
    SignOfFactor(y - x, n);
    assert y * gap == x * gap + gap * (y - x);
    SignOfFactor(gap, y - x);
  }

  /** An explicit quality that is not above the highest is the part's rank,
      except that a quality of zero, by which a client refuses a type, puts the
      type at the highest quality of all. */
  lemma ZeroQuality(q: real, highest: real, count: nat)
    requires count > 0 && 0.0 <= q <= highest
    ensures Key(q, highest, count) == q <==> (q > 0.0 || highest == 0.0)
    ensures Key(0.0, highest, count) == highest
  {
    assert -0.0 / count as real == 0.0;
  }

  /** The third component of a part has no bearing on its rank. */
  lemma ThirdComponentIgnored(contentType: string, params: string, q: string, other: string, position: nat, r: Reader)
    ensures Ranged([contentType, params, q], position, r) == Ranged([contentType, params, other], position, r)
  {
  }

  /** A part with parameters and a quality is ranked by the quality if and only
      if the parameter happens to read the same from its third character on. */
  lemma QualityWithParamsIff(contentType: string, params: string, q: real, position: nat, r: Reader)
    ensures (exists name :: Ranged([contentType, params, "q"], position, r) == Some(Range(name, q)))
      <==> (|r.trim(params)| >= 2 && r.parseFloat(r.trim(params)[2..]) == Some(q))
  {
    if |r.trim(params)| >= 2 && r.parseFloat(r.trim(params)[2..]) == Some(q) {
      assert Ranged([contentType, params, "q"], position, r)
        == Some(Range(r.trim(contentType) + ";" + r.trim(params), q));
    }
  }
}
