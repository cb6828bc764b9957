/** The DOM walk of highlight.js, and the round from two DOM trees to merged markup. */
module HighlightDom {
  import opened Highlight
  import opened Prelude

  /** A node with its first child and its next sibling, as the walk follows them. */
  datatype Dom =
    | Nothing
    | TextNode(value: string, next: Dom)
    | Br(next: Dom)
    | Element(node: Node, firstChild: Dom, next: Dom)
    | Comment(next: Dom)

  /** The length of text the walk counts for a node and the siblings after it. */
  function Width(t: Dom): nat {
    match t
    case Nothing => 0
    case TextNode(value, next) => |value| + Width(next)
    case Br(next) => 1 + Width(next)
    case Element(_, firstChild, next) => Width(firstChild) + Width(next)
    case Comment(next) => Width(next)
  }

  /** The events of a node, whose text begins at offset `s`, and of its siblings. */
  function Events(t: Dom, s: nat): seq<Event>
    decreases t, 0
  {
    match t
    case Nothing => []
    case TextNode(value, next) => Events(next, s + |value|)
    case Br(next) => Events(next, s + 1)
    case Element(node, firstChild, next) => Tagged(node, firstChild, s) + Events(next, s + Width(firstChild))
    case Comment(next) => Events(next, s)
  }

  function Tagged(node: Node, firstChild: Dom, s: nat): seq<Event>
    decreases firstChild, 1
  {
    [Start(s, node)] + Events(firstChild, s) + [Stop(s + Width(firstChild), node)]
  }

  /** `c`: pushes the events of each sibling in turn and carries the offset along. */
  method Walk(first: Dom, offset: nat, o: seq<Event>) returns (o': seq<Event>, s: nat)
    ensures o' == o + Events(first, offset)
    ensures s == offset + Width(first)
    decreases first, 0
  {
    o', s := o, offset;
    var t := first;
    while t != Nothing
      invariant o' + Events(t, s) == o + Events(first, offset)
      invariant s + Width(t) == offset + Width(first)
      invariant t == first || t < first
      decreases t
    {
      match t {
        case TextNode(value, _) => s := s + |value|;
        case Br(_) => s := s + 1;
        case Element(node, firstChild, _) =>
          AfterElement(o', node, firstChild, s, t.next);
          o', s := WalkElement(node, firstChild, s, o');
        case Comment(_) =>
      }
      t := t.next;
    }
  }

  lemma AfterElement(o: seq<Event>, node: Node, firstChild: Dom, s: nat, next: Dom)
    ensures (o + Tagged(node, firstChild, s)) + Events(next, s + Width(firstChild))
      == o + Events(Element(node, firstChild, next), s)
  {
    EventsOfElement(node, firstChild, s, next);
    Assoc(o, Tagged(node, firstChild, s), Events(next, s + Width(firstChild)));
  }

  lemma EventsOfElement(node: Node, firstChild: Dom, s: nat, next: Dom)
    ensures Events(Element(node, firstChild, next), s)
      == Tagged(node, firstChild, s) + Events(next, s + Width(firstChild))
  {
  }

  method WalkElement(node: Node, firstChild: Dom, offset: nat, o: seq<Event>) returns (o': seq<Event>, s: nat)
    ensures o' == o + Tagged(node, firstChild, offset)
    ensures s == offset + Width(firstChild)
    decreases firstChild, 1
  {
    o' := o + [Start(offset, node)];
    o', s := Walk(firstChild, offset, o');
    o' := o' + [Stop(s, node)];
  }

  // ---------- the text of a tree

  function WithoutNewlines(s: string): string {
    if s == "" then "" else
      var init := WithoutNewlines(s[..|s| - 1]);
      if s[|s| - 1] == '\n' then init else init + [s[|s| - 1]]
  }

  /** `h`: the text of a node and its siblings, without the newlines of text
      nodes when line breaks are written as BR. */
  function TextContent(t: Dom, useBr: bool): string {
    match t
    case Nothing => ""
    case TextNode(value, next) => (if useBr then WithoutNewlines(value) else value) + TextContent(next, useBr)
    case Br(next) => "\n" + TextContent(next, useBr)
    case Element(_, firstChild, next) => TextContent(firstChild, useBr) + TextContent(next, useBr)
    case Comment(next) => TextContent(next, useBr)
  }

  ghost predicate HasNewline(t: Dom) {
    match t
    case Nothing => false
    case TextNode(value, next) => '\n' in value || HasNewline(next)
    case Br(next) => HasNewline(next)
    case Element(_, firstChild, next) => HasNewline(firstChild) || HasNewline(next)
    case Comment(next) => HasNewline(next)
  }

  lemma {:induction false} StrippedLength(s: string)
    ensures |WithoutNewlines(s)| <= |s|
    ensures |WithoutNewlines(s)| == |s| <==> '\n' !in s
  {
    if s != "" {
      StrippedLength(s[..|s| - 1]);
      assert s == s[..|s| - 1] + [s[|s| - 1]];
    }
  }

  /** The walk counts characters that the text no longer has exactly when
      newlines are stripped from text that contains some. */
  lemma {:induction false} TextLength(t: Dom, useBr: bool)
    ensures |TextContent(t, useBr)| <= Width(t)
    ensures |TextContent(t, useBr)| == Width(t) <==> !(useBr && HasNewline(t))
  {
    match t
    case Nothing =>
    case TextNode(value, next) => StrippedLength(value); TextLength(next, useBr);
    case Br(next) => TextLength(next, useBr);
    case Element(_, firstChild, next) => TextLength(firstChild, useBr); TextLength(next, useBr);
    case Comment(next) => TextLength(next, useBr);
  }

  // ---------- the walk is faithful

  /** With the text of the tree beginning at offset `s`, offset `k` lies inside element `n`. */
  ghost predicate Inside(t: Dom, s: nat, n: Node, k: int) {
    match t
    case Nothing => false
    case TextNode(value, next) => Inside(next, s + |value|, n, k)
    case Br(next) => Inside(next, s + 1, n, k)
    case Element(node, firstChild, next) =>
      || (n == node && s <= k < s + Width(firstChild))
      || Inside(firstChild, s, n, k)
      || Inside(next, s + Width(firstChild), n, k)
    case Comment(next) => Inside(next, s, n, k)
  }

  ghost predicate Contains(t: Dom, n: Node) {
    match t
    case Nothing => false
    case Element(node, firstChild, next) => n == node || Contains(firstChild, n) || Contains(next, n)
    case _ => Contains(t.next, n)
  }

  /** No element occurs twice in the tree. */
  ghost predicate Distinct(t: Dom) {
    match t
    case Nothing => true
    case Element(node, firstChild, next) =>
      && Distinct(firstChild) && Distinct(next)
      && !Contains(firstChild, node) && !Contains(next, node)
      && forall n :: !(Contains(firstChild, n) && Contains(next, n))
    case _ => Distinct(t.next)
  }

  lemma EventOnTop(base: seq<Node>, open: seq<Node>, e: Event)
    requires AfterEvent(Nested(open), e).Nested?
    ensures AfterEvent(Nested(base + open), e) == Nested(base + AfterEvent(Nested(open), e).open)
  {
    var all := base + open;
    if e.Start? {
      assert all + [e.node] == base + (open + [e.node]);
    } else {
      assert all[|all| - 1] == open[|open| - 1] && all[..|all| - 1] == base + open[..|open| - 1];
    }
  }

  /** Running a stream after another: its nodes open on top of what was open. */
  lemma {:induction false} OpenNodesAfter(a: seq<Event>, b: seq<Event>, i: nat)
    requires i <= |b| && OpenNodes(a, |a|).Nested? && OpenNodes(b, i).Nested?
    ensures OpenNodes(a + b, |a| + i) == Nested(OpenNodes(a, |a|).open + OpenNodes(b, i).open)
    decreases i
  {
    if i == 0 {
      OpenNodesPrefix(a, b, |a|);
    } else {
      OpenNodesAfter(a, b, i - 1);
      assert (a + b)[|a| + i - 1] == b[i - 1];
      EventOnTop(OpenNodes(a, |a|).open, OpenNodes(b, i - 1).open, b[i - 1]);
    }
  }

  lemma {:induction false} OpenNodesPrefix(a: seq<Event>, b: seq<Event>, i: nat)
    requires i <= |a|
    ensures OpenNodes(a + b, i) == OpenNodes(a, i)
    decreases i
  {
    if i > 0 { OpenNodesPrefix(a, b, i - 1); }
  }

  /** All events of a stream lie between two offsets. */
  ghost predicate Within(events: seq<Event>, lo: nat, hi: nat) {
    forall a :: 0 <= a < |events| ==> lo <= events[a].offset <= hi
  }

  lemma StreamsInRow(a: seq<Event>, b: seq<Event>, lo: nat, mid: nat, hi: nat)
    requires ValidStream(a) && ValidStream(b) && Apart(a, b)
    requires lo <= mid <= hi && Within(a, lo, mid) && Within(b, mid, hi)
    ensures ValidStream(a + b) && Within(a + b, lo, hi)
    ensures forall n, k :: OpenAt(a + b, n, k) <==> OpenAt(a, n, k) || OpenAt(b, n, k)
  {
    OpenNodesAfter(a, b, |b|);
    forall n, k ensures OpenAt(a + b, n, k) <==> OpenAt(a, n, k) || OpenAt(b, n, k) {
      OpenAtEither(a, b, n, k);
    }
  }

  lemma OpenAtEither(a: seq<Event>, b: seq<Event>, n: Node, k: int)
    requires Apart(a, b)
    ensures OpenAt(a + b, n, k) <==> OpenAt(a, n, k) || OpenAt(b, n, k)
  {
    var c := a + b;
    assert forall i :: 0 <= i < |a| ==> c[i] == a[i];
    assert forall i :: 0 <= i < |b| ==> c[|a| + i] == b[i];
    if OpenAt(a, n, k) {
      var s :| 0 <= s < |a| && Starts(a[s], n) && a[s].offset <= k;
      assert Starts(c[s], n);
    }
    if OpenAt(b, n, k) {
      var s :| 0 <= s < |b| && Starts(b[s], n) && b[s].offset <= k;
      assert Starts(c[|a| + s], n);
    }
    if OpenAt(c, n, k) {
      var s :| 0 <= s < |c| && Starts(c[s], n) && c[s].offset <= k;
      if s < |a| {
        assert forall i :: 0 <= i < |a| && Stops(a[i], n) ==> Stops(c[i], n);
      } else {
        assert Starts(b[s - |a|], n);
        assert forall i :: 0 <= i < |b| && Stops(b[i], n) ==> Stops(c[|a| + i], n);
      }
    }
  }

  lemma WrappedValid(inner: seq<Event>, n: Node, lo: nat, hi: nat)
    requires ValidStream(inner) && lo <= hi && Within(inner, lo, hi)
    requires forall a :: 0 <= a < |inner| ==> inner[a].node != n
    ensures ValidStream([Start(lo, n)] + inner + [Stop(hi, n)])
      && Within([Start(lo, n)] + inner + [Stop(hi, n)], lo, hi)
  {
    var first, last := [Start(lo, n)], [Stop(hi, n)];
    var c := first + inner + last;
    assert OpenNodes(first, 0) == Nested([]) && OpenNodes(first, 1) == Nested([n]);
    OpenNodesAfter(first, inner, |inner|);
    OpenNodesPrefix(first + inner, last, |first + inner|);
    assert OpenNodes(c, |c|) == Nested([]);
    WrappedInOrder(inner, n, lo, hi);
  }

  lemma WrappedInOrder(inner: seq<Event>, n: Node, lo: nat, hi: nat)
    requires Sorted(inner) && StartsOnce(inner) && lo <= hi && Within(inner, lo, hi)
    requires forall a :: 0 <= a < |inner| ==> inner[a].node != n
    ensures var c := [Start(lo, n)] + inner + [Stop(hi, n)];
            Sorted(c) && StartsOnce(c) && Within(c, lo, hi)
  {
    WrappedElements(inner, n, lo, hi);
  }

  lemma WrappedElements(inner: seq<Event>, n: Node, lo: nat, hi: nat)
    ensures var c := [Start(lo, n)] + inner + [Stop(hi, n)];
            forall i :: 0 <= i < |c| ==>
              c[i] == if i == 0 then Start(lo, n) else if i <= |inner| then inner[i - 1] else Stop(hi, n)
  {
  }

  lemma OpenAtWrapper(inner: seq<Event>, n: Node, lo: nat, hi: nat, k: int)
    requires forall a :: 0 <= a < |inner| ==> inner[a].node != n
    ensures OpenAt([Start(lo, n)] + inner + [Stop(hi, n)], n, k) <==> lo <= k < hi
  {
    var c := [Start(lo, n)] + inner + [Stop(hi, n)];
    WrappedElements(inner, n, lo, hi);
    assert Starts(c[0], n) && Stops(c[|c| - 1], n);
  }

  lemma OpenAtInner(inner: seq<Event>, n: Node, lo: nat, hi: nat, m: Node, k: int)
    requires m != n
    ensures OpenAt([Start(lo, n)] + inner + [Stop(hi, n)], m, k) <==> OpenAt(inner, m, k)
  {
    var c := [Start(lo, n)] + inner + [Stop(hi, n)];
    assert forall i :: 0 <= i < |inner| ==> c[1 + i] == inner[i];
    if OpenAt(inner, m, k) {
      var s :| 0 <= s < |inner| && Starts(inner[s], m) && inner[s].offset <= k;
      assert Starts(c[1 + s], m);
    }
    if OpenAt(c, m, k) {
      var s :| 0 <= s < |c| && Starts(c[s], m) && c[s].offset <= k;
      assert Starts(inner[s - 1], m);
      assert forall i :: 0 <= i < |inner| && Stops(inner[i], m) ==> Stops(c[1 + i], m);
    }
  }

  /** What the walk of a tree without repeated elements yields: a valid stream
      of the tree's own nodes, open exactly around the characters they contain. */
  ghost predicate Faithful(events: seq<Event>, t: Dom, s: nat) {
    && ValidStream(events) && Within(events, s, s + Width(t))
    && (forall a :: 0 <= a < |events| ==> Contains(t, events[a].node))
    && (forall n, k :: OpenAt(events, n, k) <==> Inside(t, s, n, k))
  }

  /** The same for one element without its siblings. */
  ghost predicate ElementEvents(events: seq<Event>, node: Node, firstChild: Dom, s: nat) {
    && ValidStream(events) && Within(events, s, s + Width(firstChild))
    && (forall a :: 0 <= a < |events| ==> events[a].node == node || Contains(firstChild, events[a].node))
    && (forall n, k :: OpenAt(events, n, k) <==>
          (n == node && s <= k < s + Width(firstChild)) || Inside(firstChild, s, n, k))
  }

  lemma ElementFaithful(node: Node, firstChild: Dom, s: nat)
    requires !Contains(firstChild, node) && Faithful(Events(firstChild, s), firstChild, s)
    ensures ElementEvents(Tagged(node, firstChild, s), node, firstChild, s)
  {
    var inner, hi := Events(firstChild, s), s + Width(firstChild);
    var events := Tagged(node, firstChild, s);
    WrappedValid(inner, node, s, hi);
    WrappedElements(inner, node, s, hi);
    forall n, k ensures OpenAt(events, n, k) <==> (n == node && s <= k < hi) || Inside(firstChild, s, n, k) {
      if n == node {
        OpenAtWrapper(inner, node, s, hi, k);
        assert !OpenAt(inner, node, k);
      } else {
        OpenAtInner(inner, node, s, hi, n, k);
      }
    }
  }

  /** A node without a tag only shifts the text: it adds no events. */
  lemma SameElements(events: seq<Event>, t: Dom, s: nat, u: Dom, at: nat)
    requires Faithful(events, u, at) && s <= at && at + Width(u) <= s + Width(t)
    requires forall n :: Contains(u, n) ==> Contains(t, n)
    requires forall n, k :: Inside(t, s, n, k) <==> Inside(u, at, n, k)
    ensures Faithful(events, t, s)
  {
  }

  lemma {:induction false} WalkFaithful(t: Dom, s: nat)
    requires Distinct(t)
    ensures Faithful(Events(t, s), t, s)
    decreases t
  {
    match t
    case Nothing =>
    case TextNode(value, next) =>
      WalkFaithful(next, s + |value|);
      SameElements(Events(next, s + |value|), t, s, next, s + |value|);
    case Br(next) =>
      WalkFaithful(next, s + 1);
      SameElements(Events(next, s + 1), t, s, next, s + 1);
    case Comment(next) =>
      WalkFaithful(next, s);
      SameElements(Events(next, s), t, s, next, s);
    case Element(node, firstChild, next) =>
      var mid := s + Width(firstChild);
      WalkFaithful(firstChild, s);
      WalkFaithful(next, mid);
      ElementFaithful(node, firstChild, s);
      SiblingsFaithful(t, Tagged(node, firstChild, s), Events(next, mid), s);
  }

  lemma SiblingsFaithful(t: Dom, a: seq<Event>, b: seq<Event>, s: nat)
    requires t.Element? && Distinct(t)
    requires ElementEvents(a, t.node, t.firstChild, s) && Faithful(b, t.next, s + Width(t.firstChild))
    ensures Faithful(a + b, t, s)
  {
    TaggedApart(t, a, b);
    StreamsInRow(a, b, s, s + Width(t.firstChild), s + Width(t));
  }

  /** The events of an element and those of its siblings share no node. */
  lemma TaggedApart(t: Dom, a: seq<Event>, b: seq<Event>)
    requires t.Element? && Distinct(t)
    requires forall i :: 0 <= i < |a| ==> a[i].node == t.node || Contains(t.firstChild, a[i].node)
    requires forall i :: 0 <= i < |b| ==> Contains(t.next, b[i].node)
    ensures Apart(a, b)
    ensures forall i :: 0 <= i < |a + b| ==> Contains(t, (a + b)[i].node)
  {
  }
}
