/** The stream merge of highlight.js. */
module HighlightMerge {
  import opened Highlight
  import opened HighlightOrder

  function Substr(w: string, start: nat, length: nat): string {
    if start >= |w| then ""
    else if start + length <= |w| then w[start..start + length]
    else w[start..]
  }

  function Reached(w: string, p: nat): nat { if p <= |w| then p else |w| }

  /** Whether the next event comes from the first stream.  At equal offsets a
      closing tag of the second stream goes before, an opening tag after. */
  predicate TakesFirst(x: seq<Event>, v: seq<Event>) {
    if x != [] && v != [] then
      if x[0].offset != v[0].offset then x[0].offset < v[0].offset else v[0].Start?
    else x != []
  }

  /** `i` and `j` events are consumed, none of them past offset `p`, and none that waits before it. */
  ghost predicate At(x: seq<Event>, v: seq<Event>, i: nat, j: nat, p: nat) {
    && i <= |x| && j <= |v|
    && (forall a :: 0 <= a < i ==> x[a].offset <= p)
    && (forall a :: 0 <= a < j ==> v[a].offset <= p)
    && (forall a :: i <= a < |x| ==> x[a].offset >= p)
    && (forall a :: j <= a < |v| ==> v[a].offset >= p)
  }

  /** The stack holds what either stream has open, each node once. */
  ghost predicate StackHolds(x: seq<Event>, v: seq<Event>, i: nat, j: nat, r: seq<Node>)
    requires i <= |x| && j <= |v|
  {
    NoRepeats(r) && forall n :: n in r <==> n in OpenAfter(x, i) || n in OpenAfter(v, j)
  }

  /** The markup has the stack open, carries the text up to `p`, and encloses
      each character so far in exactly the nodes open there. */
  ghost predicate Written(x: seq<Event>, v: seq<Event>, w: string, p: nat, r: seq<Node>, m: Markup) {
    && OpenTags(m) == Nested(r)
    && TextOf(m) == w[..Reached(w, p)]
    && forall k, n :: 0 <= k < Reached(w, p) ==> (Encloses(m, n, k) <==> OpenAt(x, n, k) || OpenAt(v, n, k))
  }

  /** Taking the next event keeps the position: it is the earliest that waits. */
  lemma EarliestTaken(x: seq<Event>, v: seq<Event>, i: nat, j: nat, p: nat)
    requires Sorted(x) && Sorted(v) && At(x, v, i, j, p) && (i < |x| || j < |v|)
    ensures TakesFirst(x[i..], v[j..]) ==> i < |x| && p <= x[i].offset && At(x, v, i + 1, j, x[i].offset)
    ensures !TakesFirst(x[i..], v[j..]) ==> j < |v| && p <= v[j].offset && At(x, v, i, j + 1, v[j].offset)
    ensures var q := if TakesFirst(x[i..], v[j..]) then x[i].offset else v[j].offset;
            (forall a :: i <= a < |x| ==> x[a].offset >= q) && (forall a :: j <= a < |v| ==> v[a].offset >= q)
  {
  }

  /** Writing the text up to the next event. */
  lemma TextWritten(x: seq<Event>, v: seq<Event>, w: string, i: nat, j: nat, p: nat, q: nat, r: seq<Node>, m: Markup)
    requires ValidStream(x) && ValidStream(v) && p <= q
    requires At(x, v, i, j, p) && StackHolds(x, v, i, j, r) && Written(x, v, w, p, r, m)
    requires forall a :: i <= a < |x| ==> x[a].offset >= q
    requires forall a :: j <= a < |v| ==> v[a].offset >= q
    ensures Written(x, v, w, q, r, Then(m, Text(Substr(w, p, q - p))))
  {
    var text := Substr(w, p, q - p);
    var more := Then(m, Text(text));
    assert w[..Reached(w, p)] + text == w[..Reached(w, q)];
    forall k, n | 0 <= k < Reached(w, q)
      ensures Encloses(more, n, k) <==> OpenAt(x, n, k) || OpenAt(v, n, k)
    {
      if k >= p {
        OpenAtPrefix(x, i, k);
        OpenAtPrefix(v, j, k);
        assert Encloses(more, n, k) <==> n in r;
      }
    }
  }

  /** A node that starts in one stream is not on the stack yet. */
  lemma NodeOpened(x: seq<Event>, v: seq<Event>, i: nat, j: nat, r: seq<Node>)
    requires ValidStream(x) && ValidStream(v) && Apart(x, v)
    requires i < |x| && j <= |v| && x[i].Start? && StackHolds(x, v, i, j, r)
    ensures StackHolds(x, v, i + 1, j, r + [x[i].node])
  {
    OpenAfterStart(x, i);
    OpenAreInStream(v, j);
    assert x[i].node !in r;
  }

  /** A node that stops is on the stack; taking it out leaves the rest. */
  lemma NodeClosed(x: seq<Event>, v: seq<Event>, i: nat, j: nat, r: seq<Node>, q: nat)
    requires ValidStream(x) && ValidStream(v) && Apart(x, v)
    requires i < |x| && j <= |v| && x[i].Stop? && StackHolds(x, v, i, j, r)
    requires q < |r| && r[q] == x[i].node
    ensures StackHolds(x, v, i + 1, j, r[..q] + r[q + 1..])
  {
    OpenAfterStop(x, i);
    OpenAreInStream(v, j);
    assert x[i].node !in OpenAfter(v, j);
    OneTakenOut(r, q);
    var rest := r[..q] + r[q + 1..];
    forall n ensures n in rest <==> n in OpenAfter(x, i + 1) || n in OpenAfter(v, j) {
      assert n in rest <==> n in r && n != x[i].node;
    }
  }

  lemma OneTakenOut(r: seq<Node>, q: nat)
    requires NoRepeats(r) && q < |r|
    ensures NoRepeats(r[..q] + r[q + 1..])
    ensures forall n :: n in r[..q] + r[q + 1..] <==> n in r && n != r[q]
  {
    var rest := r[..q] + r[q + 1..];
    forall n ensures n in rest <==> n in r && n != r[q] {
      if n in r && n != r[q] {
        var k :| 0 <= k < |r| && r[k] == n;
        assert rest[if k < q then k else k - 1] == n;
      }
    }
  }

  lemma StackSymmetric(x: seq<Event>, v: seq<Event>, i: nat, j: nat, r: seq<Node>)
    requires i <= |x| && j <= |v|
    ensures StackHolds(x, v, i, j, r) <==> StackHolds(v, x, j, i, r)
  {
  }

  /** Tags leave the text, and what encloses it, as they are. */
  ghost predicate SameText(m: Markup, m': Markup) {
    TextOf(m) == TextOf(m') && forall n, k :: 0 <= k < |TextOf(m)| ==> (Encloses(m, n, k) <==> Encloses(m', n, k))
  }

  lemma SameTextWritten(x: seq<Event>, v: seq<Event>, w: string, p: nat, r: seq<Node>, m: Markup, r': seq<Node>,
                        m': Markup)
    requires Written(x, v, w, p, r, m) && SameText(m, m') && OpenTags(m') == Nested(r')
    ensures Written(x, v, w, p, r', m')
  {
    assert |TextOf(m)| == Reached(w, p);
  }

  /** The nodes opened somewhere. */
  ghost function Tags(m: Markup): set<Node> {
    match m case Blank => {} case Then(before, last) => if last.Open? then Tags(before) + {last.node} else Tags(before)
  }

  lemma {:induction false} OpenAreTags(m: Markup)
    requires OpenTags(m).Nested?
    ensures forall n | n in OpenTags(m).open :: n in Tags(m)
  {
    if m.Then? { OpenAreTags(m.before); }
  }

  /** The lowest `at` nodes of the stack are what is still open. */
  ghost predicate OpenUpTo(m: Markup, r: seq<Node>, at: nat) {
    && OpenTags(m).Nested? && |OpenTags(m).open| == at <= |r|
    && forall k :: 0 <= k < at ==> OpenTags(m).open[k] == r[k]
  }

  lemma OneClosed(r: seq<Node>, at: nat, m: Markup)
    requires at < |r| && OpenUpTo(m, r, at + 1)
    ensures OpenUpTo(Then(m, Close(Lower(r[at].name))), r, at)
    ensures SameText(m, Then(m, Close(Lower(r[at].name))))
  {
  }

  /** Closes tags from the top of the stack down to `node`: the search stops at
      or above the bottom. */
  method CloseDownTo(r: seq<Node>, node: Node, m: Markup) returns (m': Markup, at: nat)
    requires node in r && OpenTags(m) == Nested(r)
    ensures at < |r| && r[at] == node
    ensures OpenUpTo(m', r, at) && SameText(m, m') && SameOrder(m, m') && Tags(m') == Tags(m)
  {
    m' := m;
    ghost var somewhere :| 0 <= somewhere < |r| && r[somewhere] == node;
    at := |r|;
    while true
      invariant somewhere < at <= |r|
      invariant OpenUpTo(m', r, at) && SameText(m, m') && SameOrder(m, m') && Tags(m') == Tags(m)
      decreases at
    {
      at := at - 1;
      OneClosed(r, at, m');
      var o := r[at];
      TagKeepsOrder(m', Close(Lower(o.name)));
      m' := Then(m', Close(Lower(o.name)));
      if o == node { break; }
    }
  }

  /** Reopens the tags from position `at` up. */
  method Reopen(r: seq<Node>, at: nat, m: Markup) returns (m': Markup)
    requires OpenUpTo(m, r, at) && forall n | n in r :: n in Tags(m)
    ensures OpenTags(m') == Nested(r) && SameText(m, m') && SameOrder(m, m') && Tags(m') == Tags(m)
  {
    m' := m;
    for q := at to |r|
      invariant OpenUpTo(m', r, q) && SameText(m, m') && SameOrder(m, m') && Tags(m') == Tags(m)
    {
      TagKeepsOrder(m', Open(r[q]));
      m' := Then(m', Open(r[q]));
    }
    assert OpenTags(m').open == r;
  }

  /** A closing tag: close down to the node, take it off the stack, reopen the rest. */
  method CloseThrough(r: seq<Node>, node: Node, m: Markup)
    returns (m': Markup, r': seq<Node>, ghost q: nat)
    requires node in r && OpenTags(m) == Nested(r)
    ensures q < |r| && r[q] == node && r' == r[..q] + r[q + 1..]
    ensures OpenTags(m') == Nested(r') && SameText(m, m') && SameOrder(m, m') && Tags(m') == Tags(m)
  {
    OpenAreTags(m);
    var at;
    m', at := CloseDownTo(r, node, m);
    q, r' := at, r[..at] + r[at + 1..];
    ghost var closed := m';
    m' := Reopen(r', at, m');
    SameOrderTwice(m, closed, m');
  }

  /** What one event does to the stack and the markup. */
  method Apply(u: Event, r: seq<Node>, m: Markup)
    returns (m': Markup, r': seq<Node>, ghost q: nat)
    requires u.Stop? ==> u.node in r
    requires OpenTags(m) == Nested(r)
    ensures u.Start? ==> r' == r + [u.node]
    ensures u.Stop? ==> q < |r| && r[q] == u.node && r' == r[..q] + r[q + 1..]
    ensures OpenTags(m') == Nested(r') && SameText(m, m') && SameOrder(m, m')
    ensures Tags(m') == if u.Start? then Tags(m) + {u.node} else Tags(m)
  {
    q := 0;
    if u.Start? {
      TagKeepsOrder(m, Open(u.node));
      m', r' := Then(m, Open(u.node)), r + [u.node];
    } else {
      m', r', q := CloseThrough(r, u.node, m);
    }
  }

  /** The stack after the next event of the first stream. */
  lemma StackAdvanced(x: seq<Event>, v: seq<Event>, i: nat, j: nat, r: seq<Node>, q: nat, r': seq<Node>)
    requires ValidStream(x) && ValidStream(v) && Apart(x, v)
    requires i < |x| && j <= |v| && StackHolds(x, v, i, j, r)
    requires x[i].Start? ==> r' == r + [x[i].node]
    requires x[i].Stop? ==> q < |r| && r[q] == x[i].node && r' == r[..q] + r[q + 1..]
    ensures StackHolds(x, v, i + 1, j, r')
  {
    if x[i].Start? { NodeOpened(x, v, i, j, r); } else { NodeClosed(x, v, i, j, r, q); }
  }

  /** One event applied: stack and markup are again what the merge keeps them to be. */
  lemma EventDone(x: seq<Event>, v: seq<Event>, w: string, i: nat, j: nat, p: nat, fromFirst: bool,
                  before: seq<Node>, wrote: Markup, q: nat, r: seq<Node>, m: Markup)
    requires ValidStream(x) && ValidStream(v) && Apart(x, v)
    requires i <= |x| && j <= |v| && StackHolds(x, v, i, j, before) && Written(x, v, w, p, before, wrote)
    requires if fromFirst then i < |x| else j < |v|
    requires var u := if fromFirst then x[i] else v[j];
             if u.Start? then r == before + [u.node]
             else q < |before| && before[q] == u.node && r == before[..q] + before[q + 1..]
    requires OpenTags(m) == Nested(r) && SameText(wrote, m)
    ensures Written(x, v, w, p, r, m)
    ensures if fromFirst then StackHolds(x, v, i + 1, j, r) else StackHolds(x, v, i, j + 1, r)
  {
    SameTextWritten(x, v, w, p, before, wrote, r, m);
    if fromFirst {
      StackAdvanced(x, v, i, j, before, q, r);
    } else {
      StackSymmetric(x, v, i, j, before);
      StackAdvanced(v, x, j, i, before, q, r);
      StackSymmetric(x, v, i, j + 1, r);
    }
  }

  /** The nodes started so far are those opened. */
  ghost predicate Opened(x: seq<Event>, v: seq<Event>, i: nat, j: nat, m: Markup)
    requires i <= |x| && j <= |v|
  {
    forall n :: n in Tags(m) <==> Started(x, i, n) || Started(v, j, n)
  }

  lemma OpenedNext(x: seq<Event>, v: seq<Event>, i: nat, j: nat, m: Markup, m': Markup)
    requires i < |x| && j <= |v| && Opened(x, v, i, j, m)
    requires Tags(m') == if x[i].Start? then Tags(m) + {x[i].node} else Tags(m)
    ensures Opened(x, v, i + 1, j, m') && Opened(v, x, j, i + 1, m')
  {
    forall n ensures Started(x, i + 1, n) <==> Started(x, i, n) || Starts(x[i], n) {}
  }

  /** Nodes that stop are on the stack. */
  lemma StoppedIsOpen(x: seq<Event>, v: seq<Event>, i: nat, j: nat, r: seq<Node>)
    requires ValidStream(x) && i < |x| && j <= |v| && StackHolds(x, v, i, j, r)
    ensures x[i].Stop? ==> x[i].node in r
  {
    if x[i].Stop? { OpenAfterStop(x, i); }
  }

  /** What the second stream has started begins below all that the first has left. */
  ghost predicate SecondAhead(x: seq<Event>, v: seq<Event>, i: nat, j: nat) {
    forall a, b | i <= a < |x| && 0 <= b < j <= |v| && v[b].Start? :: v[b].offset < x[a].offset
  }

  lemma StaysAhead(x: seq<Event>, v: seq<Event>, i: nat, j: nat)
    requires Sorted(x) && Sorted(v) && i <= |x| && j <= |v| && SecondAhead(x, v, i, j)
    requires i < |x| || j < |v|
    ensures if TakesFirst(x[i..], v[j..]) then SecondAhead(x, v, i + 1, j) else SecondAhead(x, v, i, j + 1)
  {
  }

  /** The next event leaves the stack in order. */
  lemma NextInOrder(x: seq<Event>, v: seq<Event>, i: nat, j: nat, p: nat, r: seq<Node>, q: nat, r': seq<Node>)
    requires Sorted(x) && Sorted(v) && At(x, v, i, j, p) && (i < |x| || j < |v|)
    requires StackHolds(x, v, i, j, r) && ValidStream(x) && ValidStream(v)
    requires SecondAhead(x, v, i, j) && InOrder(x, v, r)
    requires var u := if TakesFirst(x[i..], v[j..]) then x[i] else v[j];
             if u.Start? then r' == r + [u.node] else q < |r| && r[q] == u.node && r' == r[..q] + r[q + 1..]
    ensures InOrder(x, v, r')
  {
    var fromFirst := TakesFirst(x[i..], v[j..]);
    var u := if fromFirst then x[i] else v[j];
    if u.Stop? {
      OneLessInOrder(x, v, r, q);
    } else {
      OpenAreInStream(x, i);
      OpenAreInStream(v, j);
      forall k | 0 <= k < |r| ensures Sooner(x, v, r[k], u.node) {
        assert r[k] in r;
        if fromFirst {
          SoonerThanFirst(x, v, i, j, r[k]);
        } else {
          SoonerThanSecond(x, v, i, j, p, r[k]);
        }
      }
      OneMoreInOrder(x, v, r, u.node);
    }
  }

  lemma SoonerThanFirst(x: seq<Event>, v: seq<Event>, i: nat, j: nat, n: Node)
    requires i < |x| && j <= |v| && x[i].Start? && SecondAhead(x, v, i, j)
    requires Started(x, i, n) || Started(v, j, n)
    ensures Sooner(x, v, n, x[i].node)
  {
    assert StartsAt(x, i, x[i].node);
    if a :| 0 <= a < i && Starts(x[a], n) {
      assert StartsAt(x, a, n);
    } else {
      var b :| 0 <= b < j && Starts(v[b], n);
      assert StartsAt(v, b, n);
    }
  }

  lemma SoonerThanSecond(x: seq<Event>, v: seq<Event>, i: nat, j: nat, p: nat, n: Node)
    requires At(x, v, i, j, p) && j < |v| && v[j].Start?
    requires Started(x, i, n) || Started(v, j, n)
    ensures Sooner(x, v, n, v[j].node)
  {
    assert StartsAt(v, j, v[j].node);
    if a :| 0 <= a < i && Starts(x[a], n) {
      assert StartsAt(x, a, n) && x[a].offset <= p <= v[j].offset;
    } else {
      var b :| 0 <= b < j && Starts(v[b], n);
      assert StartsAt(v, b, n);
    }
  }

  /** The order of the elements, on the stack and around the text so far. */
  ghost predicate InStep(x: seq<Event>, v: seq<Event>, i: nat, j: nat, r: seq<Node>, m: Markup) {
    SecondAhead(x, v, i, j) && InOrder(x, v, r) && Layered(x, v, m)
  }

  lemma StepDone(x: seq<Event>, v: seq<Event>, i: nat, j: nat, p: nat, before: seq<Node>, unmarked: Markup,
                 wrote: Markup, q: nat, r: seq<Node>, m: Markup)
    requires ValidStream(x) && ValidStream(v) && At(x, v, i, j, p) && (i < |x| || j < |v|)
    requires StackHolds(x, v, i, j, before) && InStep(x, v, i, j, before, unmarked)
    requires OpenTags(unmarked) == Nested(before)
    requires wrote.Then? && wrote.before == unmarked && wrote.last.Text? && SameOrder(wrote, m)
    requires var u := if TakesFirst(x[i..], v[j..]) then x[i] else v[j];
             if u.Start? then r == before + [u.node]
             else q < |before| && before[q] == u.node && r == before[..q] + before[q + 1..]
    ensures if TakesFirst(x[i..], v[j..]) then InStep(x, v, i + 1, j, r, m) else InStep(x, v, i, j + 1, r, m)
  {
    TextLayered(x, v, before, unmarked, wrote.last.text);
    StaysAhead(x, v, i, j);
    NextInOrder(x, v, i, j, p, before, q, r);
    SameOrderLayered(x, v, wrote, m);
  }

  /** For any two nested, offset-sorted streams without common nodes: the node
      being closed is always on the stack, the markup comes out nested with
      nothing left open and just the nodes of the streams in it, its text is the
      given text once, and each character is enclosed in exactly the nodes open
      at its offset in either stream, the sooner ones outside. */
  method Merge(first: seq<Event>, second: seq<Event>, w: string) returns (y: string, m: Markup)
    requires ValidStream(first) && ValidStream(second) && Apart(first, second)
    ensures y == Render(m)
    ensures OpenTags(m) == Nested([])
    ensures TextOf(m) == w
    ensures forall k, n :: 0 <= k < |w| ==> (Encloses(m, n, k) <==> OpenAt(first, n, k) || OpenAt(second, n, k))
    ensures Opened(first, second, |first|, |second|, m)
    ensures Layered(first, second, m)
  {
    var x, v, r := first, second, [];
    var p: nat := 0;
    m := Blank;
    ghost var i, j := 0, 0;
    while x != [] || v != []
      invariant At(first, second, i, j, p) && x == first[i..] && v == second[j..]
      invariant StackHolds(first, second, i, j, r)
      invariant Written(first, second, w, p, r, m) && Opened(first, second, i, j, m)
      invariant InStep(first, second, i, j, r, m)
      decreases |x| + |v|
    {
      EarliestTaken(first, second, i, j, p);
      var fromFirst := TakesFirst(x, v);
      var u := if fromFirst then x[0] else v[0];
      if fromFirst { x := x[1..]; } else { v := v[1..]; }
      TextWritten(first, second, w, i, j, p, u.offset, r, m);
      ghost var reached, unmarked := p, m;
      m := Then(m, Text(Substr(w, p, u.offset - p)));
      p := u.offset;
      StackSymmetric(first, second, i, j, r);
      if fromFirst { StoppedIsOpen(first, second, i, j, r); } else { StoppedIsOpen(second, first, j, i, r); }
      ghost var q, before, wrote := 0, r, m;
      m, r, q := Apply(u, r, m);
      if fromFirst { OpenedNext(first, second, i, j, wrote, m); } else { OpenedNext(second, first, j, i, wrote, m); }
      EventDone(first, second, w, i, j, p, fromFirst, before, wrote, q, r, m);
      StepDone(first, second, i, j, reached, before, unmarked, wrote, q, r, m);
      if fromFirst { i := i + 1; } else { j := j + 1; }
    }
    m := Finish(first, second, w, i, j, p, r, m);
    y := Render(m);
  }

  lemma HeadIsMember(r: seq<Node>)
    ensures r != [] ==> r[0] in r
  {
  }

  /** The text after the last event. */
  method Finish(ghost x: seq<Event>, ghost v: seq<Event>, w: string, ghost i: nat, ghost j: nat, p: nat,
                ghost r: seq<Node>, m: Markup)
    returns (m': Markup)
    requires ValidStream(x) && ValidStream(v) && i == |x| && j == |v|
    requires At(x, v, i, j, p) && StackHolds(x, v, i, j, r) && Written(x, v, w, p, r, m)
    requires InOrder(x, v, r) && Layered(x, v, m)
    ensures Layered(x, v, m')
    ensures OpenTags(m') == Nested([]) && TextOf(m') == w
    ensures forall k, n :: 0 <= k < |w| ==> (Encloses(m', n, k) <==> OpenAt(x, n, k) || OpenAt(v, n, k))
    ensures Tags(m') == Tags(m)
  {
    var tail := if p < |w| then w[p..] else "";
    ghost var end := if p < |w| then |w| else p;
    TextWritten(x, v, w, i, j, p, end, r, m);
    assert Substr(w, p, end - p) == tail;
    m' := Then(m, Text(tail));
    TextLayered(x, v, r, m, tail);
    HeadIsMember(r);
  }
}
