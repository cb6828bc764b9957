/** What splitting makes of a text put together from pieces. */
module Splitting {
  import opened Prelude
  import opened Strings

  // ---------- splitting undoes joining

  function JoinFrom(pieces: seq<string>, sep: string, k: nat): string
    requires k < |pieces|
    decreases |pieces| - k
  {
    if k + 1 == |pieces| then pieces[k] else pieces[k] + sep + JoinFrom(pieces, sep, k + 1)
  }

  function Join(pieces: seq<string>, sep: string): string
    requires pieces != []
  {
    JoinFrom(pieces, sep, 0)
  }

  /** A character of the separator that no piece holds: what tells them apart. */
  ghost predicate Marks(c: char, sep: string, pieces: seq<string>) {
    c in sep && forall i | 0 <= i < |pieces| :: c !in pieces[i]
  }

  function FirstIndex(s: string, c: char): (i: nat)
    requires c in s
    ensures i < |s| && s[i] == c && c !in s[..i]
  {
    if s[0] == c then 0 else 1 + FirstIndex(s[1..], c)
  }

  /** No separator begins inside a piece, even one that the end of the piece
      and the separator after it would make up together. */
  lemma NoneInPiece(piece: string, sep: string, rest: string, c: char)
    requires c in sep && c !in piece
    ensures Find(piece + (sep + rest), sep, 0) == Some(|piece|)
  {
    var s, q := piece + (sep + rest), FirstIndex(sep, c);
    forall j: nat | j < |piece| ensures !Occurs(s, sep, j) {
      if j + q < |piece| {
        assert s[j + q] == piece[j + q];
      } else {
        assert s[j + q] == sep[j + q - |piece|] == sep[..q][j + q - |piece|];
      }
    }
    FoundAtEnd(piece, sep, rest);
  }

  lemma FoundAtEnd(a: string, sep: string, rest: string)
    requires forall j: nat | j < |a| :: !Occurs(a + (sep + rest), sep, j)
    ensures Find(a + (sep + rest), sep, 0) == Some(|a|)
  {
    var s := a + (sep + rest);
    forall k | 0 <= k < |sep| ensures s[|a| + k] == sep[k] {}
    FindIs(s, sep, 0, |a|);
  }

  lemma NoneInLast(s: string, sep: string, c: char)
    requires c in sep && c !in s
    ensures Find(s, sep, 0) == None
  {
    var q := FirstIndex(sep, c);
    forall j: nat ensures !Occurs(s, sep, j) {
      if j + |sep| <= |s| { assert s[j + q] != sep[q]; }
    }
    FindNone(s, sep, 0);
  }

  lemma CutStep(a: string, sep: string, rest: string)
    requires sep != "" && Find(a + (sep + rest), sep, 0) == Some(|a|)
    ensures Cut(a + (sep + rest), sep) == Part(a, Cut(rest, sep))
  {
    var s := a + (sep + rest);
    assert s[..|a|] == a && s[|a| + |sep|..] == rest;
  }

  function PiecesFrom(pieces: seq<string>, k: nat): Parts
    requires k < |pieces|
    decreases |pieces| - k
  {
    if k + 1 == |pieces| then Last(pieces[k]) else Part(pieces[k], PiecesFrom(pieces, k + 1))
  }

  lemma {:induction false} ListedPieces(pieces: seq<string>, k: nat)
    requires k < |pieces|
    ensures Listed(PiecesFrom(pieces, k)) == pieces[k..]
    decreases |pieces| - k
  {
    if k + 1 < |pieces| { ListedPieces(pieces, k + 1); }
  }

  lemma {:induction false} CutJoin(pieces: seq<string>, k: nat, sep: string, c: char)
    requires k < |pieces| && Marks(c, sep, pieces)
    ensures Cut(JoinFrom(pieces, sep, k), sep) == PiecesFrom(pieces, k)
    decreases |pieces| - k
  {
    if k + 1 == |pieces| {
      NoneInLast(pieces[k], sep, c);
    } else {
      var rest := JoinFrom(pieces, sep, k + 1);
      Assoc(pieces[k], sep, rest);
      NoneInPiece(pieces[k], sep, rest, c);
      CutStep(pieces[k], sep, rest);
      CutJoin(pieces, k + 1, sep, c);
    }
  }

  /** Splitting undoes joining, but for empty pieces at the end. */
  lemma SplitOfJoin(pieces: seq<string>, sep: string, c: char)
    requires pieces != [] && Marks(c, sep, pieces)
    ensures Split(Join(pieces, sep), sep) == if |pieces| == 1 then pieces else DropEmptyTail(pieces)
  {
    CutJoin(pieces, 0, sep, c);
    ListedPieces(pieces, 0);
    assert pieces[0..] == pieces;
    if |pieces| == 1 { NoneInLast(pieces[0], sep, c); }
  }

  // ---------- splitting at a joint

  /** No separator lies across the end of the first `a` characters. */
  ghost predicate NoneAcross(s: string, a: nat, sep: string) {
    forall j: nat | j < a < j + |sep| :: !Occurs(s, sep, j)
  }

  lemma OccursBefore(a: string, more: string, sep: string, j: nat)
    requires j + |sep| <= |a|
    ensures Occurs(a + more, sep, j) <==> Occurs(a, sep, j)
  {
    var w := a + more;
    if Occurs(a, sep, j) {
      forall k | 0 <= k < |sep| ensures w[j + k] == sep[k] { assert a[j + k] == sep[k]; }
    }
    if Occurs(w, sep, j) {
      forall k | 0 <= k < |sep| ensures a[j + k] == sep[k] { assert w[j + k] == sep[k]; }
    }
  }

  lemma OccursAfter(s: string, d: nat, sep: string, j: nat)
    requires d <= |s|
    ensures Occurs(s[d..], sep, j) <==> Occurs(s, sep, d + j)
  {
    var b := s[d..];
    if Occurs(b, sep, j) {
      forall k | 0 <= k < |sep| ensures s[d + j + k] == sep[k] { assert s[d + (j + k)] == b[j + k] == sep[k]; }
    }
    if Occurs(s, sep, d + j) {
      forall k | 0 <= k < |sep| ensures b[j + k] == sep[k] { assert s[d + j + k] == sep[k]; }
    }
  }

  lemma NoneAcrossLater(s: string, a: nat, sep: string, d: nat)
    requires d <= a <= |s| && NoneAcross(s, a, sep)
    ensures NoneAcross(s[d..], a - d, sep)
  {
    forall j: nat | j < a - d < j + |sep| ensures !Occurs(s[d..], sep, j) { OccursAfter(s, d, sep, j); }
  }

  lemma FindBeforeJoint(a: string, more: string, sep: string)
    requires sep != "" && NoneAcross(a + (sep + more), |a|, sep)
    ensures Find(a + (sep + more), sep, 0) == match Find(a, sep, 0) case None => Some(|a|) case Some(i) => Some(i)
  {
    var s := a + (sep + more);
    FindFirst(a, sep, 0);
    forall j: nat | j + |sep| <= |a| ensures Occurs(s, sep, j) <==> Occurs(a, sep, j) {
      OccursBefore(a, sep + more, sep, j);
    }
    match Find(a, sep, 0) {
      case None => FoundAtEnd(a, sep, more);
      case Some(i) => FindIs(s, sep, 0, i);
    }
  }

  function Then(first: Parts, second: Parts): Parts {
    match first case Last(part) => Part(part, second) case Part(part, rest) => Part(part, Then(rest, second))
  }

  lemma {:induction false} ListedThen(first: Parts, second: Parts)
    ensures Listed(Then(first, second)) == Listed(first) + Listed(second)
  {
    match first
    case Last(part) =>
    case Part(part, rest) =>
      ListedThen(rest, second);
      Assoc([part], Listed(rest), Listed(second));
  }

  lemma {:induction false} CutAtJoint(a: string, b: string, sep: string)
    requires sep != "" && NoneAcross(a + (sep + b), |a|, sep)
    ensures Cut(a + (sep + b), sep) == Then(Cut(a, sep), Cut(b, sep))
    decreases |a|
  {
    FindBeforeJoint(a, b, sep);
    match Find(a, sep, 0) {
      case None => CutStep(a, sep, b);
      case Some(i) =>
        var d := i + |sep|;
        TailOfSum(a, sep + b, d);
        NoneAcrossLater(a + (sep + b), |a|, sep, d);
        CutAtJoint(a[d..], b, sep);
        CutAt(a + (sep + b), sep, i, a[..i], a[d..] + (sep + b));
        CutAt(a, sep, i, a[..i], a[d..]);
    }
  }

  lemma TailOfSum(a: string, more: string, d: nat)
    requires d <= |a|
    ensures (a + more)[d..] == a[d..] + more && forall i | 0 <= i <= d :: (a + more)[..i] == a[..i]
  {
  }

  lemma CutAt(s: string, sep: string, i: nat, part: string, rest: string)
    requires sep != "" && Find(s, sep, 0) == Some(i) && s[..i] == part && s[i + |sep|..] == rest
    ensures Cut(s, sep) == Part(part, Cut(rest, sep))
  {
  }

  /** With none across the joint, the text splits as its two parts do. */
  lemma SplitsAtJoint(a: string, b: string, sep: string)
    requires sep != "" && NoneAcross(a + (sep + b), |a|, sep)
    ensures SplitAll(a + (sep + b), sep) == SplitAll(a, sep) + SplitAll(b, sep)
  {
    CutAtJoint(a, b, sep);
    ListedThen(Cut(a, sep), Cut(b, sep));
  }

  /** The last part with more text behind it. */
  function Extended(parts: seq<string>, more: string): seq<string>
    requires parts != []
  {
    parts[..|parts| - 1] + [parts[|parts| - 1] + more]
  }

  function ExtendLast(parts: Parts, more: string): Parts {
    match parts case Last(part) => Last(part + more) case Part(part, rest) => Part(part, ExtendLast(rest, more))
  }

  lemma {:induction false} ListedExtended(parts: Parts, more: string)
    ensures Listed(ExtendLast(parts, more)) == Extended(Listed(parts), more)
  {
    match parts
    case Last(part) =>
    case Part(part, rest) =>
      ListedExtended(rest, more);
      var list := Listed(rest);
      assert ([part] + list)[..|list|] == [part] + list[..|list| - 1];
  }

  /** No separator reaches past the first `v` characters. */
  ghost predicate NoneBeyond(s: string, v: nat, sep: string) {
    forall j: nat | j + |sep| > v :: !Occurs(s, sep, j)
  }

  lemma NoneBeyondLater(s: string, v: nat, sep: string, d: nat)
    requires d <= v <= |s| && NoneBeyond(s, v, sep)
    ensures NoneBeyond(s[d..], v - d, sep)
  {
    forall j: nat | j + |sep| > v - d ensures !Occurs(s[d..], sep, j) { OccursAfter(s, d, sep, j); }
  }

  lemma FindWithin(v: string, more: string, sep: string)
    requires sep != "" && NoneBeyond(v + more, |v|, sep)
    ensures Find(v + more, sep, 0) == Find(v, sep, 0)
  {
    var s := v + more;
    FindFirst(v, sep, 0);
    forall j: nat | j + |sep| <= |v| ensures Occurs(s, sep, j) <==> Occurs(v, sep, j) {
      OccursBefore(v, more, sep, j);
    }
    match Find(v, sep, 0) {
      case None => FindNone(s, sep, 0);
      case Some(i) => FindIs(s, sep, 0, i);
    }
  }

  lemma {:induction false} CutExtended(v: string, more: string, sep: string)
    requires sep != "" && NoneBeyond(v + more, |v|, sep)
    ensures Cut(v + more, sep) == ExtendLast(Cut(v, sep), more)
    decreases |v|
  {
    FindWithin(v, more, sep);
    match Find(v, sep, 0) {
      case None =>
      case Some(i) =>
        var d := i + |sep|;
        TailOfSum(v, more, d);
        NoneBeyondLater(v + more, |v|, sep, d);
        CutExtended(v[d..], more, sep);
        CutAt(v + more, sep, i, v[..i], v[d..] + more);
        CutAt(v, sep, i, v[..i], v[d..]);
    }
  }

  /** With no separator reaching past `v`, more text only lengthens the last part. */
  lemma SplitExtended(v: string, more: string, sep: string)
    requires sep != "" && NoneBeyond(v + more, |v|, sep)
    ensures SplitAll(v + more, sep) == Extended(SplitAll(v, sep), more)
  {
    CutExtended(v, more, sep);
    ListedExtended(Cut(v, sep), more);
  }

  // ---------- lengths

  function SumTo(pieces: seq<string>, count: nat): nat
    requires count <= |pieces|
  {
    if count == 0 then 0 else SumTo(pieces, count - 1) + |pieces[count - 1]|
  }

  lemma {:induction false} SumCons(first: string, pieces: seq<string>, count: nat)
    requires count <= |pieces|
    ensures SumTo([first] + pieces, count + 1) == |first| + SumTo(pieces, count)
  {
    if count > 0 { SumCons(first, pieces, count - 1); }
  }

  /** What the parts and the separators between them come to. */
  function Total(parts: Parts, sep: string): nat {
    match parts case Last(part) => |part| case Part(part, rest) => |part| + |sep| + Total(rest, sep)
  }

  function Size(parts: Parts): nat {
    match parts case Last(part) => |part| case Part(part, rest) => |part| + Size(rest)
  }

  lemma {:induction false} ListedSize(parts: Parts)
    ensures var list := Listed(parts);
      SumTo(list, |list|) == Size(parts) && (|list| == 1 <==> parts.Last?)
  {
    match parts
    case Last(part) =>
    case Part(part, rest) =>
      ListedSize(rest);
      SumCons(part, Listed(rest), |Listed(rest)|);
  }

  lemma {:induction false} SizeBelowTotal(parts: Parts, sep: string)
    requires sep != ""
    ensures Size(parts) <= Total(parts, sep) && (Size(parts) == Total(parts, sep) <==> parts.Last?)
  {
    if parts.Part? { SizeBelowTotal(parts.rest, sep); }
  }

  lemma {:induction false} CutTotal(s: string, sep: string)
    requires sep != ""
    ensures Total(Cut(s, sep), sep) == |s|
    decreases |s|
  {
    match Find(s, sep, 0) {
      case None =>
      case Some(i) => CutTotal(s[i + |sep|..], sep);
    }
  }

  /** Splitting loses the separators and nothing else. */
  lemma SplitSum(s: string, sep: string)
    requires sep != ""
    ensures var parts := SplitAll(s, sep);
      && SumTo(parts, |parts|) <= |s|
      && (SumTo(parts, |parts|) == |s| <==> |parts| == 1) && (|parts| == 1 <==> Find(s, sep, 0) == None)
  {
    CutTotal(s, sep);
    SizeBelowTotal(Cut(s, sep), sep);
    ListedSize(Cut(s, sep));
  }

  lemma WholeIsOnePart(s: string, sep: string)
    requires sep != "" && Find(s, sep, 0) == None
    ensures SplitAll(s, sep) == [s]
  {
  }
}
