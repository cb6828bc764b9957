/** Which of two elements around the same text is the outer one. */
module HighlightOrder {
  import opened Highlight

  ghost predicate Below(open: seq<Node>, a: Node, b: Node) {
    exists i, j :: 0 <= i < j < |open| && open[i] == a && open[j] == b
  }

  /** Character `k` of the text lies inside both, and `a` is the outer one. */
  ghost predicate Outside(m: Markup, a: Node, b: Node, k: int) {
    match m
    case Blank => false
    case Then(before, last) =>
      if last.Text? && k >= |TextOf(before)| then OpenTags(before).Nested? && Below(OpenTags(before).open, a, b)
      else Outside(before, a, b, k)
  }

  ghost predicate StartsAt(events: seq<Event>, i: int, n: Node) {
    0 <= i < |events| && Starts(events[i], n)
  }

  /** One starts before the other in its stream; of two streams, at a lower
      offset, or at the same offset in the first. */
  ghost predicate Sooner(x: seq<Event>, v: seq<Event>, a: Node, b: Node) {
    || (exists i, j :: StartsAt(x, i, a) && StartsAt(x, j, b) && i < j)
    || (exists i, j :: StartsAt(v, i, a) && StartsAt(v, j, b) && i < j)
    || (exists i, j :: StartsAt(x, i, a) && StartsAt(v, j, b) && x[i].offset <= v[j].offset)
    || (exists i, j :: StartsAt(v, i, a) && StartsAt(x, j, b) && v[i].offset < x[j].offset)
  }

  /** Of two elements that start in one of the streams, one is the sooner one,
      and only one. */
  lemma SoonerIsTotal(x: seq<Event>, v: seq<Event>, a: Node, b: Node)
    requires StartsOnce(x) && StartsOnce(v) && Apart(x, v) && a != b
    requires exists i :: StartsAt(x, i, a) || StartsAt(v, i, a)
    requires exists j :: StartsAt(x, j, b) || StartsAt(v, j, b)
    ensures Sooner(x, v, a, b) <==> !Sooner(x, v, b, a)
  {
    var i :| StartsAt(x, i, a) || StartsAt(v, i, a);
    var j :| StartsAt(x, j, b) || StartsAt(v, j, b);
    assert forall k :: StartsAt(x, k, a) ==> StartsAt(x, i, a) && k == i;
    assert forall k :: StartsAt(v, k, a) ==> StartsAt(v, i, a) && k == i;
    assert forall k :: StartsAt(x, k, b) ==> StartsAt(x, j, b) && k == j;
    assert forall k :: StartsAt(v, k, b) ==> StartsAt(v, j, b) && k == j;
    if StartsAt(x, i, a) && StartsAt(x, j, b) {
      assert i != j;
    } else if StartsAt(v, i, a) && StartsAt(v, j, b) {
      assert i != j;
    }
  }

  /** Of two elements around a character one is outside the other. */
  lemma {:induction false} OneIsOutside(m: Markup, a: Node, b: Node, k: int)
    requires Encloses(m, a, k) && Encloses(m, b, k) && a != b
    ensures Outside(m, a, b, k) || Outside(m, b, a, k)
  {
    match m
    case Then(before, last) =>
      if last.Text? && k >= |TextOf(before)| {
        var open := OpenTags(before).open;
        var i :| 0 <= i < |open| && open[i] == a;
        var j :| 0 <= j < |open| && open[j] == b;
        assert i != j;
      } else {
        OneIsOutside(before, a, b, k);
      }
  }

  // ---------- what the merge keeps

  ghost predicate InOrder(x: seq<Event>, v: seq<Event>, r: seq<Node>) {
    forall i, j | 0 <= i < j < |r| :: Sooner(x, v, r[i], r[j])
  }

  /** Around all of the text so far the sooner element is the outer one. */
  ghost predicate Layered(x: seq<Event>, v: seq<Event>, m: Markup) {
    forall a, b, k | 0 <= k < |TextOf(m)| && Outside(m, a, b, k) :: Sooner(x, v, a, b)
  }

  ghost predicate SameOrder(m: Markup, m': Markup) {
    TextOf(m) == TextOf(m') && forall a, b, k | 0 <= k < |TextOf(m)| :: Outside(m, a, b, k) <==> Outside(m', a, b, k)
  }

  lemma TagKeepsOrder(m: Markup, tag: Token)
    requires !tag.Text?
    ensures SameOrder(m, Then(m, tag))
  {
  }

  lemma SameOrderTwice(a: Markup, b: Markup, c: Markup)
    requires SameOrder(a, b) && SameOrder(b, c)
    ensures SameOrder(a, c)
  {
  }

  lemma SameOrderLayered(x: seq<Event>, v: seq<Event>, m: Markup, m': Markup)
    requires Layered(x, v, m) && SameOrder(m, m')
    ensures Layered(x, v, m')
  {
  }

  lemma TextLayered(x: seq<Event>, v: seq<Event>, r: seq<Node>, m: Markup, text: string)
    requires OpenTags(m) == Nested(r) && InOrder(x, v, r) && Layered(x, v, m)
    ensures Layered(x, v, Then(m, Text(text)))
  {
    var more := Then(m, Text(text));
    forall a, b, k | 0 <= k < |TextOf(more)| && Outside(more, a, b, k) ensures Sooner(x, v, a, b) {
      if k >= |TextOf(m)| {
        var i, j :| 0 <= i < j < |r| && r[i] == a && r[j] == b;
      } else {
        assert Outside(m, a, b, k);
      }
    }
  }

  lemma OneLessInOrder(x: seq<Event>, v: seq<Event>, r: seq<Node>, q: nat)
    requires InOrder(x, v, r) && q < |r|
    ensures InOrder(x, v, r[..q] + r[q + 1..])
  {
    var rest := r[..q] + r[q + 1..];
    forall i, j | 0 <= i < j < |rest| ensures Sooner(x, v, rest[i], rest[j]) {
      assert rest[i] == r[if i < q then i else i + 1] && rest[j] == r[if j < q then j else j + 1];
    }
  }

  lemma OneMoreInOrder(x: seq<Event>, v: seq<Event>, r: seq<Node>, n: Node)
    requires InOrder(x, v, r) && forall q | 0 <= q < |r| :: Sooner(x, v, r[q], n)
    ensures InOrder(x, v, r + [n])
  {
  }
}
