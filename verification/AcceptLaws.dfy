/** The ranking of an Accept header, said of the text of its parts. */
module AcceptLaws {
  import opened AcceptHeader
  import opened Prelude
  import opened Strings

  function ComponentsOf(header: string, i: nat): seq<string>
    requires i < |Split(header, ",")|
  {
    Split(Split(header, ",")[i], ";")
  }

  predicate BeginsQ(s: string) {
    |s| >= 2 && s[0] == 'q' && s[1] == '='
  }

  /** The number read behind the first two characters. */
  function NumberOf(s: string, r: Reader): Option<real> {
    if |s| < 2 then None else r.parseFloat(s[2..])
  }

  /** The second of two components that begins with `q=`, or of three whatever it is. */
  predicate Asks(components: seq<string>, r: Reader) {
    |components| == 3 || (|components| == 2 && BeginsQ(r.trim(components[1])))
  }

  /** What a part is called: parameters are part of the name, a quality is not. */
  function LabelOf(components: seq<string>, r: Reader): string
    requires components != []
  {
    if |components| == 3 || (|components| == 2 && !BeginsQ(r.trim(components[1])))
    then r.trim(components[0]) + ";" + r.trim(components[1])
    else r.trim(components[0])
  }

  /** The ranking fails exactly where some part is empty, or asks for what is
      not a number. */
  lemma ReadableIff(header: string, r: Reader)
    ensures Readable(PartsOf(header), r) <==>
      forall i | 0 <= i < |Split(header, ",")| ::
        var c := ComponentsOf(header, i);
        c != [] && (Asks(c, r) ==> NumberOf(r.trim(c[1]), r).Some?)
  {
    var parts := PartsOf(header);
    forall i | 0 <= i < |parts|
      ensures Ranged(parts[i].components, i + 1, r).Some? <==>
        var c := ComponentsOf(header, i);
        c != [] && (Asks(c, r) ==> NumberOf(r.trim(c[1]), r).Some?)
    {
      PartRead(ComponentsOf(header, i), i + 1, r);
    }
  }

  lemma PartRead(c: seq<string>, position: nat, r: Reader)
    ensures Ranged(c, position, r).Some? <==> c != [] && (Asks(c, r) ==> NumberOf(r.trim(c[1]), r).Some?)
    ensures Ranged(c, position, r).Some? ==>
      && Ranged(c, position, r).value.name == LabelOf(c, r)
      && Ranged(c, position, r).value.q
         == if Asks(c, r) then NumberOf(r.trim(c[1]), r).value else -(position as real)
  {
    if |c| >= 2 {
      var s := r.trim(c[1]);
      assert StartsWith(s, "q=") <==> BeginsQ(s) by {
        if BeginsQ(s) { assert s[..2] == "q="; }
      }
    }
  }

  /** The highest number any part asks for, or zero. */
  ghost predicate IsHighest(header: string, r: Reader, highest: real) {
    var n := |Split(header, ",")|;
    && highest >= 0.0
    && (forall i | 0 <= i < n :: var c := ComponentsOf(header, i);
          Asks(c, r) && NumberOf(r.trim(c[1]), r).Some? ==> NumberOf(r.trim(c[1]), r).value <= highest)
    && (highest == 0.0 || exists i | 0 <= i < n :: var c := ComponentsOf(header, i);
          Asks(c, r) && NumberOf(r.trim(c[1]), r) == Some(highest))
  }

  lemma HighestIff(header: string, r: Reader, highest: real)
    requires Readable(PartsOf(header), r)
    ensures IsHighest(header, r, highest) <==> highest == Highest(Ranges(PartsOf(header), r))
  {
    var ranges := Ranges(PartsOf(header), r);
    var top := Highest(ranges);
    HighestIs(ranges);
    forall i | 0 <= i < |ranges|
      ensures var c := ComponentsOf(header, i);
        c != [] && ranges[i].q == if Asks(c, r) && NumberOf(r.trim(c[1]), r).Some?
                        then NumberOf(r.trim(c[1]), r).value else -((i + 1) as real)
    {
      PartRead(ComponentsOf(header, i), i + 1, r);
      assert Ranged(PartsOf(header)[i].components, i + 1, r).Some?;
    }
    assert IsHighest(header, r, top) by {
      if top != 0.0 {
        var i :| 0 <= i < |ranges| && ranges[i].q == top;
        PartRead(ComponentsOf(header, i), i + 1, r);
      }
    }
  }

  /** The place of a part that asks for this number, or for none. */
  function PlaceOf(asked: Option<real>, position: nat, highest: real, count: nat): real
    requires count > 0
  {
    match asked
    case Some(q) => if q > 0.0 then q else highest + (-q / count as real) * (1.0 - highest)
    case None => highest + (position as real / count as real) * (1.0 - highest)
  }

  function AskedBy(c: seq<string>, r: Reader): Option<real> {
    if Asks(c, r) then NumberOf(r.trim(c[1]), r) else None
  }

  /** The bucket a part is in. */
  function BucketOf(header: string, i: nat, r: Reader, highest: real): real
    requires i < |Split(header, ",")|
  {
    PlaceOf(AskedBy(ComponentsOf(header, i), r), i + 1, highest, |Split(header, ",")|)
  }

  /** Every part, under its label, is in its bucket: that of the number it asks
      for if this is positive, or one by its position in the gap between the
      highest number and one; and each bucket holds the labels of the parts
      that belong to it, in the order of the header. */
  lemma BucketsOf(header: string, r: Reader, highest: real, buckets: Buckets, key: real) returns (at: seq<nat>)
    requires Readable(PartsOf(header), r) && Split(header, ",") != [] && IsHighest(header, r, highest)
    requires var ranges := Ranges(PartsOf(header), r); Placed(ranges, buckets, Highest(ranges), |ranges|)
    ensures forall m, n | 0 <= m < n < |at| :: at[m] < at[n]
    ensures forall i: nat ::
      i in at <==> i < |Split(header, ",")| && BucketOf(header, i, r, highest) == key
    ensures key in buckets <==> at != []
    ensures at != [] ==> |buckets[key]| == |at|
    ensures forall m | 0 <= m < |at| ::
      && at[m] < |Split(header, ",")| && ComponentsOf(header, at[m]) != []
      && buckets[key][m] == LabelOf(ComponentsOf(header, at[m]), r)
  {
    var ranges := Ranges(PartsOf(header), r);
    HighestIff(header, r, highest);
    at := Positions(ranges, key, highest, |ranges|);
    forall i: nat
      ensures i in at <==> i < |ranges| && BucketOf(header, i, r, highest) == key
    {
      if i < |ranges| { PartPlaced(header, i, r, highest); }
    }
    forall m | 0 <= m < |at|
      ensures ComponentsOf(header, at[m]) != [] && ranges[at[m]].name == LabelOf(ComponentsOf(header, at[m]), r)
    {
      PartPlaced(header, at[m], r, highest);
    }
  }

  lemma PartPlaced(header: string, i: nat, r: Reader, highest: real)
    requires Readable(PartsOf(header), r) && i < |Split(header, ",")|
    ensures var ranges := Ranges(PartsOf(header), r);
      && ComponentsOf(header, i) != [] && ranges[i].name == LabelOf(ComponentsOf(header, i), r)
      && Key(ranges[i].q, highest, |ranges|) == BucketOf(header, i, r, highest)
  {
    var ranges := Ranges(PartsOf(header), r);
    var c := ComponentsOf(header, i);
    PartRead(c, i + 1, r);
    KeyIs(AskedBy(c, r), i + 1, ranges[i].q, highest, |ranges|);
  }

  lemma KeyIs(asked: Option<real>, position: nat, q: real, highest: real, count: nat)
    requires count > 0 && position > 0
    requires q == if asked.Some? then asked.value else -(position as real)
    ensures Key(q, highest, count) == PlaceOf(asked, position, highest, count)
  {
    if asked.None? { assert -q == position as real; }
  }

  /** Where the labels at a key come from. */
  lemma {:induction false} Positions(ranges: seq<Range>, key: real, highest: real, count: nat) returns (at: seq<nat>)
    requires count > 0
    ensures forall m, n | 0 <= m < n < |at| :: at[m] < at[n]
    ensures forall i: nat :: i in at <==> i < |ranges| && Key(ranges[i].q, highest, count) == key
    ensures |LabelsAt(ranges, key, highest, count)| == |at|
    ensures forall m | 0 <= m < |at| ::
      at[m] < |ranges| && LabelsAt(ranges, key, highest, count)[m] == ranges[at[m]].name
    decreases |ranges|
  {
    at := [];
    if ranges != [] {
      var last := |ranges| - 1;
      at := Positions(ranges[..last], key, highest, count);
      assert forall m | 0 <= m < |at| :: at[m] in at && at[m] < last;
      if Key(ranges[last].q, highest, count) == key {
        OneMoreAt(at, last);
        at := at + [last];
      }
    }
  }

  /** `type;q=v` is in the bucket of v, with no mention of v in its label. */
  lemma QualityBucket(header: string, r: Reader, buckets: Buckets, i: nat, contentType: string, q: string, v: real)
    requires Readable(PartsOf(header), r) && i < |Split(header, ",")|
    requires var ranges := Ranges(PartsOf(header), r); Placed(ranges, buckets, Highest(ranges), |ranges|)
    requires ComponentsOf(header, i) == [contentType, q] && BeginsQ(r.trim(q))
    requires NumberOf(r.trim(q), r) == Some(v) && v > 0.0
    ensures v in buckets && r.trim(contentType) in buckets[v]
  {
    var highest := Highest(Ranges(PartsOf(header), r));
    HighestIff(header, r, highest);
    var at := BucketsOf(header, r, highest, buckets, v);
    assert i in at;
    var m :| 0 <= m < |at| && at[m] == i;
  }

  /** `type;params` and a plain `type` are in the gap above the highest number,
      by position, under all of their text. */
  lemma GapBucket(header: string, r: Reader, buckets: Buckets, i: nat, contentType: string, params: string,
                  highest: real)
    requires Readable(PartsOf(header), r) && i < |Split(header, ",")| && IsHighest(header, r, highest)
    requires var ranges := Ranges(PartsOf(header), r); Placed(ranges, buckets, Highest(ranges), |ranges|)
    ensures var gap := highest + (i + 1) as real / |Split(header, ",")| as real * (1.0 - highest);
      && (ComponentsOf(header, i) == [contentType, params] && !BeginsQ(r.trim(params)) ==>
            gap in buckets && r.trim(contentType) + ";" + r.trim(params) in buckets[gap])
      && (ComponentsOf(header, i) == [contentType] ==> gap in buckets && r.trim(contentType) in buckets[gap])
  {
    var key := BucketOf(header, i, r, highest);
    HighestIff(header, r, highest);
    var at := BucketsOf(header, r, highest, buckets, key);
    assert i in at;
    var m :| 0 <= m < |at| && at[m] == i;
    assert LabelOf(ComponentsOf(header, i), r) in buckets[key];
  }
}
