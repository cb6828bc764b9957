/** Where the merged markup puts its tags: elements placed by the offsets the
    walk counts, against the positions in the text. */
module HighlightPlacement {
  import opened Highlight
  import opened HighlightDom
  import opened HighlightMerge
  import opened HighlightOrder
  import opened HighlightReading
  import opened Prelude

  // ---------- placement by positions in the text

  function Kept(value: string, useBr: bool): string {
    if useBr then WithoutNewlines(value) else value
  }

  /** With the text of the tree beginning at position `u` of the whole text,
      character `k` of the whole text is one of the characters of element `n`. */
  ghost predicate InsideText(t: Dom, u: nat, n: Node, k: int, useBr: bool) {
    match t
    case Nothing => false
    case TextNode(value, next) => InsideText(next, u + |Kept(value, useBr)|, n, k, useBr)
    case Br(next) => InsideText(next, u + 1, n, k, useBr)
    case Element(node, firstChild, next) =>
      || (n == node && u <= k < u + |TextContent(firstChild, useBr)|)
      || InsideText(firstChild, u, n, k, useBr)
      || InsideText(next, u + |TextContent(firstChild, useBr)|, n, k, useBr)
    case Comment(next) => InsideText(next, u, n, k, useBr)
  }

  /** An element of `width` counted and `length` real characters, at offset `s`
      and position `u` of a text of `end` characters: no stripped newline comes
      before it, nor in it unless it ends the text; if it has no text, it is
      empty for the walk too, or counted past the end. */
  predicate InPlace(s: nat, u: nat, width: nat, length: nat, end: nat) {
    if length > 0 then s == u && (width == length || u + length == end) else width == 0 || s >= end
  }

  predicate WellPlaced(t: Dom, s: nat, u: nat, end: nat, useBr: bool) {
    match t
    case Nothing => true
    case TextNode(value, next) => WellPlaced(next, s + |value|, u + |Kept(value, useBr)|, end, useBr)
    case Br(next) => WellPlaced(next, s + 1, u + 1, end, useBr)
    case Element(_, firstChild, next) =>
      var length := |TextContent(firstChild, useBr)|;
      && InPlace(s, u, Width(firstChild), length, end)
      && WellPlaced(firstChild, s, u, end, useBr)
      && WellPlaced(next, s + Width(firstChild), u + length, end, useBr)
    case Comment(next) => WellPlaced(next, s, u, end, useBr)
  }

  predicate InRange(k: int, from: nat, length: nat) {
    from <= k < from + length
  }

  ghost predicate RangesAgree(s: nat, u: nat, width: nat, length: nat, end: nat) {
    forall k :: 0 <= k < end ==> (InRange(k, s, width) <==> InRange(k, u, length))
  }

  /** One element's two ranges agree within the text exactly when it is in place. */
  lemma RangesAgreeIff(s: nat, u: nat, width: nat, length: nat, end: nat)
    requires u <= s && length <= width && u + length <= end
    ensures RangesAgree(s, u, width, length, end) <==> InPlace(s, u, width, length, end)
  {
    if !InPlace(s, u, width, length, end) {
      var k := if length == 0 then s else if s > u then u else u + length;
      assert 0 <= k < end && InRange(k, s, width) != InRange(k, u, length);
    }
  }

  lemma {:induction false} NotInside(t: Dom, s: nat, u: nat, n: Node, k: int, useBr: bool)
    requires !Contains(t, n)
    ensures !Inside(t, s, n, k) && !InsideText(t, u, n, k, useBr)
  {
    match t
    case Nothing =>
    case TextNode(value, next) => NotInside(next, s + |value|, u + |Kept(value, useBr)|, n, k, useBr);
    case Br(next) => NotInside(next, s + 1, u + 1, n, k, useBr);
    case Comment(next) => NotInside(next, s, u, n, k, useBr);
    case Element(_, firstChild, next) =>
      NotInside(firstChild, s, u, n, k, useBr);
      NotInside(next, s + Width(firstChild), u + |TextContent(firstChild, useBr)|, n, k, useBr);
  }

  /** An element's own range apart, a node is inside the element's children, or
      its siblings, but not both. */
  lemma ElementInside(t: Dom, s: nat, u: nat, n: Node, k: int, useBr: bool)
    requires t.Element? && Distinct(t)
    ensures var width, length := Width(t.firstChild), |TextContent(t.firstChild, useBr)|;
      && (n == t.node ==>
           (Inside(t, s, n, k) <==> InRange(k, s, width)) && (InsideText(t, u, n, k, useBr) <==> InRange(k, u, length)))
      && (n != t.node && Contains(t.firstChild, n) ==>
            && (Inside(t, s, n, k) <==> Inside(t.firstChild, s, n, k))
            && (InsideText(t, u, n, k, useBr) <==> InsideText(t.firstChild, u, n, k, useBr)))
      && (n != t.node && !Contains(t.firstChild, n) ==>
            && (Inside(t, s, n, k) <==> Inside(t.next, s + width, n, k))
            && (InsideText(t, u, n, k, useBr) <==> InsideText(t.next, u + length, n, k, useBr)))
  {
    var width, length := Width(t.firstChild), |TextContent(t.firstChild, useBr)|;
    if !Contains(t.firstChild, n) { NotInside(t.firstChild, s, u, n, k, useBr); }
    if !Contains(t.next, n) { NotInside(t.next, s + width, u + length, n, k, useBr); }
  }

  ghost predicate AgreeOn(t: Dom, s: nat, u: nat, n: Node, k: int, useBr: bool) {
    Inside(t, s, n, k) <==> InsideText(t, u, n, k, useBr)
  }

  /** Offsets and positions agree on what is inside which element. */
  ghost predicate Agree(t: Dom, s: nat, u: nat, end: nat, useBr: bool) {
    forall n, k :: 0 <= k < end ==> AgreeOn(t, s, u, n, k, useBr)
  }

  lemma AbsentAgrees(t: Dom, s: nat, u: nat, n: Node, k: int, useBr: bool)
    requires !Contains(t, n)
    ensures AgreeOn(t, s, u, n, k, useBr)
  {
    NotInside(t, s, u, n, k, useBr);
  }

  lemma ElementAgreesOn(t: Dom, s: nat, u: nat, n: Node, k: int, useBr: bool)
    requires t.Element? && Distinct(t)
    ensures var width, length := Width(t.firstChild), |TextContent(t.firstChild, useBr)|;
      AgreeOn(t, s, u, n, k, useBr) <==>
        (&& (n == t.node ==> InRange(k, s, width) == InRange(k, u, length))
         && AgreeOn(t.firstChild, s, u, n, k, useBr) && AgreeOn(t.next, s + width, u + length, n, k, useBr))
  {
    var width, length := Width(t.firstChild), |TextContent(t.firstChild, useBr)|;
    ElementInside(t, s, u, n, k, useBr);
    if !Contains(t.firstChild, n) { AbsentAgrees(t.firstChild, s, u, n, k, useBr); }
    if !Contains(t.next, n) { AbsentAgrees(t.next, s + width, u + length, n, k, useBr); }
  }

  /** In a tree without repeated elements each node is spoken for by one part. */
  lemma ElementAgrees(t: Dom, s: nat, u: nat, end: nat, useBr: bool)
    requires t.Element? && Distinct(t)
    ensures var width, length := Width(t.firstChild), |TextContent(t.firstChild, useBr)|;
      Agree(t, s, u, end, useBr) <==>
        (&& RangesAgree(s, u, width, length, end)
         && Agree(t.firstChild, s, u, end, useBr) && Agree(t.next, s + width, u + length, end, useBr))
  {
    forall n, k { ElementAgreesOn(t, s, u, n, k, useBr); }
    if Agree(t, s, u, end, useBr) {
      forall k | 0 <= k < end
        ensures InRange(k, s, Width(t.firstChild)) <==> InRange(k, u, |TextContent(t.firstChild, useBr)|)
      {
        assert AgreeOn(t, s, u, t.node, k, useBr);
      }
      AgreesBelow(t, s, u, end, useBr);
    }
  }

  /** Nothing but the offset and the position changes from a node without a tag to the next. */
  lemma NextAgrees(t: Dom, s: nat, u: nat, next: Dom, s1: nat, u1: nat, end: nat, useBr: bool)
    requires forall n, k :: AgreeOn(t, s, u, n, k, useBr) <==> AgreeOn(next, s1, u1, n, k, useBr)
    ensures Agree(t, s, u, end, useBr) <==> Agree(next, s1, u1, end, useBr)
  {
    if Agree(t, s, u, end, useBr) {
      forall n, k | 0 <= k < end ensures AgreeOn(next, s1, u1, n, k, useBr) {
        assert AgreeOn(t, s, u, n, k, useBr);
      }
    }
    if Agree(next, s1, u1, end, useBr) {
      forall n, k | 0 <= k < end ensures AgreeOn(t, s, u, n, k, useBr) {
        assert AgreeOn(next, s1, u1, n, k, useBr);
      }
    }
  }

  lemma TextAgrees(value: string, next: Dom, s: nat, u: nat, end: nat, useBr: bool)
    ensures Agree(TextNode(value, next), s, u, end, useBr) <==>
      Agree(next, s + |value|, u + |Kept(value, useBr)|, end, useBr)
  {
    NextAgrees(TextNode(value, next), s, u, next, s + |value|, u + |Kept(value, useBr)|, end, useBr);
  }

  lemma AgreesBelow(t: Dom, s: nat, u: nat, end: nat, useBr: bool)
    requires t.Element? && Distinct(t) && Agree(t, s, u, end, useBr)
    ensures Agree(t.firstChild, s, u, end, useBr)
    ensures Agree(t.next, s + Width(t.firstChild), u + |TextContent(t.firstChild, useBr)|, end, useBr)
  {
    var width, length := Width(t.firstChild), |TextContent(t.firstChild, useBr)|;
    forall n, k | 0 <= k < end ensures AgreeOn(t.firstChild, s, u, n, k, useBr) {
      assert AgreeOn(t, s, u, n, k, useBr);
      ElementAgreesOn(t, s, u, n, k, useBr);
    }
    var s1, u1 := s + width, u + length;
    forall n, k | 0 <= k < end ensures AgreeOn(t.next, s1, u1, n, k, useBr) {
      assert AgreeOn(t, s, u, n, k, useBr);
      ElementAgreesOn(t, s, u, n, k, useBr);
    }
    assert Agree(t.next, s1, u1, end, useBr);
  }

  lemma TextOfText(value: string, next: Dom, useBr: bool)
    ensures |Kept(value, useBr)| <= |value|
    ensures |TextContent(TextNode(value, next), useBr)| == |Kept(value, useBr)| + |TextContent(next, useBr)|
  {
    StrippedLength(value);
  }

  lemma TextOfElement(t: Dom, useBr: bool)
    requires t.Element?
    ensures |TextContent(t, useBr)| == |TextContent(t.firstChild, useBr)| + |TextContent(t.next, useBr)|
  {
  }

  lemma ElementIff(t: Dom, s: nat, u: nat, end: nat, useBr: bool)
    requires t.Element? && Distinct(t) && u <= s && u + |TextContent(t.firstChild, useBr)| <= end
    ensures var width, length := Width(t.firstChild), |TextContent(t.firstChild, useBr)|;
      Agree(t, s, u, end, useBr) <==>
        (&& InPlace(s, u, width, length, end)
         && Agree(t.firstChild, s, u, end, useBr) && Agree(t.next, s + width, u + length, end, useBr))
  {
    TextLength(t.firstChild, useBr);
    ElementAgrees(t, s, u, end, useBr);
    RangesAgreeIff(s, u, Width(t.firstChild), |TextContent(t.firstChild, useBr)|, end);
  }

  /** Every element encloses its own characters if and only if each is in place. */
  lemma {:induction false} AgreeIffWellPlaced(t: Dom, s: nat, u: nat, end: nat, useBr: bool)
    requires Distinct(t) && u <= s && u + |TextContent(t, useBr)| <= end
    ensures Agree(t, s, u, end, useBr) <==> WellPlaced(t, s, u, end, useBr)
  {
    match t
    case Nothing =>
    case TextNode(value, next) =>
      TextOfText(value, next, useBr);
      TextAgrees(value, next, s, u, end, useBr);
      AgreeIffWellPlaced(next, s + |value|, u + |Kept(value, useBr)|, end, useBr);
    case Br(next) =>
      NextAgrees(t, s, u, next, s + 1, u + 1, end, useBr);
      AgreeIffWellPlaced(next, s + 1, u + 1, end, useBr);
    case Comment(next) =>
      NextAgrees(t, s, u, next, s, u, end, useBr);
      AgreeIffWellPlaced(next, s, u, end, useBr);
    case Element(_, firstChild, next) =>
      TextLength(firstChild, useBr);
      TextOfElement(t, useBr);
      AgreeIffWellPlaced(firstChild, s, u, end, useBr);
      AgreeIffWellPlaced(next, s + Width(firstChild), u + |TextContent(firstChild, useBr)|, end, useBr);
      ElementIff(t, s, u, end, useBr);
  }

  /** With no newline to strip every element is in place. */
  lemma {:induction false} NothingStripped(t: Dom, s: nat, end: nat, useBr: bool)
    requires !(useBr && HasNewline(t))
    ensures WellPlaced(t, s, s, end, useBr)
  {
    match t
    case Nothing =>
    case TextNode(value, next) =>
      StrippedLength(value);
      NothingStripped(next, s + |value|, end, useBr);
    case Br(next) => NothingStripped(next, s + 1, end, useBr);
    case Comment(next) => NothingStripped(next, s, end, useBr);
    case Element(_, firstChild, next) =>
      TextLength(firstChild, useBr);
      NothingStripped(firstChild, s, end, useBr);
      NothingStripped(next, s + Width(firstChild), end, useBr);
  }

  // ---------- both together

  ghost predicate ShareNoElement(a: Dom, b: Dom) {
    forall n :: !(Contains(a, n) && Contains(b, n))
  }

  /** Every character lies in its own elements of the original tree, by its
      position in the text, and in those of the highlighted tree. */
  ghost predicate EnclosedRightly(m: Markup, original: Dom, highlighted: Dom, useBr: bool) {
    forall k, n :: 0 <= k < |TextOf(m)| ==>
      (Encloses(m, n, k) <==> InsideText(original, 0, n, k, useBr) || Inside(highlighted, 0, n, k))
  }

  ghost predicate EnclosedByOffset(m: Markup, original: Dom, highlighted: Dom) {
    forall k, n :: 0 <= k < |TextOf(m)| ==>
      (Encloses(m, n, k) <==> Inside(original, 0, n, k) || Inside(highlighted, 0, n, k))
  }

  lemma AgreesWhenRight(m: Markup, original: Dom, highlighted: Dom, useBr: bool)
    requires ShareNoElement(original, highlighted)
    requires EnclosedByOffset(m, original, highlighted) && EnclosedRightly(m, original, highlighted, useBr)
    ensures Agree(original, 0, 0, |TextOf(m)|, useBr)
  {
    forall n, k | 0 <= k < |TextOf(m)| ensures AgreeOn(original, 0, 0, n, k, useBr) {
      assert Encloses(m, n, k) <==> InsideText(original, 0, n, k, useBr) || Inside(highlighted, 0, n, k);
      if Contains(original, n) {
        NotInside(highlighted, 0, 0, n, k, useBr);
      } else {
        NotInside(original, 0, 0, n, k, useBr);
      }
    }
  }

  lemma RightWhenAgrees(m: Markup, original: Dom, highlighted: Dom, useBr: bool)
    requires EnclosedByOffset(m, original, highlighted) && Agree(original, 0, 0, |TextOf(m)|, useBr)
    ensures EnclosedRightly(m, original, highlighted, useBr)
  {
    forall k, n | 0 <= k < |TextOf(m)|
      ensures Encloses(m, n, k) <==> InsideText(original, 0, n, k, useBr) || Inside(highlighted, 0, n, k)
    {
      assert AgreeOn(original, 0, 0, n, k, useBr);
    }
  }

  lemma RightlyIffWellPlaced(m: Markup, original: Dom, highlighted: Dom, useBr: bool)
    requires Distinct(original) && ShareNoElement(original, highlighted)
    requires TextOf(m) == TextContent(original, useBr) && EnclosedByOffset(m, original, highlighted)
    ensures EnclosedRightly(m, original, highlighted, useBr) <==> WellPlaced(original, 0, 0, |TextOf(m)|, useBr)
  {
    AgreeIffWellPlaced(original, 0, 0, |TextOf(m)|, useBr);
    if EnclosedRightly(m, original, highlighted, useBr) { AgreesWhenRight(m, original, highlighted, useBr); }
    if Agree(original, 0, 0, |TextOf(m)|, useBr) { RightWhenAgrees(m, original, highlighted, useBr); }
  }

  lemma {:induction false} StartsAreElements(t: Dom, s: nat, n: Node)
    ensures Started(Events(t, s), |Events(t, s)|, n) <==> Contains(t, n)
    decreases t
  {
    match t
    case Nothing =>
    case TextNode(value, next) => StartsAreElements(next, s + |value|, n);
    case Br(next) => StartsAreElements(next, s + 1, n);
    case Comment(next) => StartsAreElements(next, s, n);
    case Element(node, firstChild, next) =>
      StartsAreElements(firstChild, s, n);
      StartsAreElements(next, s + Width(firstChild), n);
      ElementStarts(node, firstChild, s, next, n);
  }

  lemma ElementStarts(node: Node, firstChild: Dom, s: nat, next: Dom, n: Node)
    ensures var events, inner, later := Events(Element(node, firstChild, next), s), Events(firstChild, s),
                                        Events(next, s + Width(firstChild));
      Started(events, |events|, n) <==> (n == node || Started(inner, |inner|, n) || Started(later, |later|, n))
  {
    var mid := s + Width(firstChild);
    EventsOfElement(node, firstChild, s, next);
    StartedBoth(Tagged(node, firstChild, s), Events(next, mid), n);
    StartedWrapped(Events(firstChild, s), node, s, mid, n);
  }

  lemma StartedWrapped(inner: seq<Event>, node: Node, lo: nat, hi: nat, n: Node)
    ensures var c := [Start(lo, node)] + inner + [Stop(hi, node)];
      Started(c, |c|, n) <==> (n == node || Started(inner, |inner|, n))
  {
    var first, last := [Start(lo, node)], [Stop(hi, node)];
    StartedBoth(first + inner, last, n);
    StartedBoth(first, inner, n);
    assert Starts(first[0], n) <==> n == node;
    assert !Starts(last[0], n);
  }

  lemma StartedBoth(a: seq<Event>, b: seq<Event>, n: Node)
    ensures Started(a + b, |a + b|, n) <==> Started(a, |a|, n) || Started(b, |b|, n)
  {
    var c := a + b;
    if i :| 0 <= i < |c| && Starts(c[i], n) && i >= |a| { assert Starts(b[i - |a|], n); }
    if i :| 0 <= i < |b| && Starts(b[i], n) { assert Starts(c[|a| + i], n); }
    if i :| 0 <= i < |a| && Starts(a[i], n) { assert Starts(c[i], n); }
  }

  ghost predicate InEither(original: Dom, highlighted: Dom, n: Node) {
    Contains(original, n) || Contains(highlighted, n)
  }

  /** The original markup merged with the highlighted one: every character ends
      up in exactly the elements that contain its offset in either tree, and in
      exactly those that contain the character itself if and only if no
      stripped newline displaces an element of the original.  The string reads
      as that markup if and only if no element has a quote in an attribute. */
  method MergeMarkup(original: Dom, highlighted: Dom, useBr: bool) returns (y: string, m: Markup)
    requires Distinct(original) && Distinct(highlighted) && ShareNoElement(original, highlighted)
    ensures y == Render(m) && OpenTags(m) == Nested([])
    ensures TextOf(m) == TextContent(original, useBr)
    ensures EnclosedByOffset(m, original, highlighted)
    ensures EnclosedRightly(m, original, highlighted, useBr) <==> WellPlaced(original, 0, 0, |TextOf(m)|, useBr)
    ensures !(useBr && HasNewline(original)) ==> EnclosedRightly(m, original, highlighted, useBr)
    ensures forall n :: n in Tags(m) <==> InEither(original, highlighted, n)
    ensures Layered(Events(original, 0), Events(highlighted, 0), m)
    ensures (forall n | InEither(original, highlighted, n) :: NodeNamesOk(n)) ==>
      (Read(y) == Some(PiecesOf(m, Done)) <==>
        forall n | InEither(original, highlighted, n) :: !AnyQuote(n.attributes))
  {
    var x := EventStream(original);
    var v := EventStream(highlighted);
    TreesMerge(original, highlighted, x, v);
    y, m := Merge(x, v, TextContent(original, useBr));
    RightlyIffWellPlaced(m, original, highlighted, useBr);
    if !(useBr && HasNewline(original)) { NothingStripped(original, 0, |TextOf(m)|, useBr); }
    forall n ensures n in Tags(m) <==> InEither(original, highlighted, n) {
      StartsAreElements(original, 0, n);
      StartsAreElements(highlighted, 0, n);
    }
    if forall n | InEither(original, highlighted, n) :: NodeNamesOk(n) { NestedReadBackIff(m); }
  }

  method EventStream(root: Dom) returns (events: seq<Event>)
    ensures events == Events(root, 0)
  {
    var pushed, _ := Walk(root, 0, []);
    assert pushed == [] + Events(root, 0);
    events := pushed;
  }

  lemma TreesMerge(original: Dom, highlighted: Dom, x: seq<Event>, v: seq<Event>)
    requires Distinct(original) && Distinct(highlighted) && ShareNoElement(original, highlighted)
    requires x == Events(original, 0) && v == Events(highlighted, 0)
    ensures ValidStream(x) && ValidStream(v) && Apart(x, v)
    ensures forall k, n :: OpenAt(x, n, k) || OpenAt(v, n, k) <==>
      Inside(original, 0, n, k) || Inside(highlighted, 0, n, k)
  {
    WalkFaithful(original, 0);
    WalkFaithful(highlighted, 0);
  }

  lemma NothingOpenBefore(t: Dom, s: nat, n: Node)
    requires Distinct(t) && s > 0
    ensures !OpenAt(Events(t, s), n, 0)
  {
    WalkFaithful(t, s);
  }

  /** With a stripped newline ahead of it, an element opens one character late:
      the first letter of its own text falls outside. */
  lemma StrippedNewlineShifts(b: Node)
    ensures var t := TextNode("\n", Element(b, TextNode("a", Nothing), Nothing));
            TextContent(t, true) == "a" && !OpenAt(Events(t, 0), b, 0)
  {
    var inner := TextNode("a", Nothing);
    assert TextContent(inner, true) == "a" by {
      assert WithoutNewlines("a") == "a";
    }
    var e := Element(b, inner, Nothing);
    assert TextContent(e, true) == "a" + "";
    assert WithoutNewlines("\n") == "";
    assert !Contains(inner, b) && Distinct(inner);
    NothingOpenBefore(e, 1, b);
  }

  /** A newline stripped after the last element displaces nothing. */
  lemma NewlineAtTheEnd(b: Node)
    ensures var t := Element(b, TextNode("a", Nothing), TextNode("\n", Nothing));
            HasNewline(t) && TextContent(t, true) == "a" && WellPlaced(t, 0, 0, 1, true)
  {
    assert WithoutNewlines("a") == "a" && WithoutNewlines("\n") == "";
    assert TextContent(TextNode("a", Nothing), true) == "a" + "" == "a";
  }
}
