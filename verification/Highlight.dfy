/** highlight.js: two streams of tag events over the same text merged into one
    piece of markup. */
module Highlight {

  datatype Node = Node(id: int, name: string, attributes: seq<(string, string)>)

  datatype Event = Start(offset: nat, node: Node) | Stop(offset: nat, node: Node)

  datatype Token = Open(node: Node) | Close(name: string) | Text(text: string)

  /** Markup as it is written: what came before, then one more piece. */
  datatype Markup = Blank | Then(before: Markup, last: Token)

  // ---------- rendering

  function EscapeChar(c: char): string {
    if c == '&' then "&amp;" else if c == '<' then "&lt;" else if c == '>' then "&gt;" else [c]
  }

  function Escape(s: string): string {
    if s == "" then "" else Escape(s[..|s| - 1]) + EscapeChar(s[|s| - 1])
  }

  function LowerChar(c: char): char {
    if 'A' <= c <= 'Z' then 'a' + (c - 'A') else c
  }

  function Lower(s: string): string {
    seq(|s|, i requires 0 <= i < |s| => LowerChar(s[i]))
  }

  function Attributes(attributes: seq<(string, string)>): string {
    if attributes == [] then "" else
      var (name, value) := attributes[|attributes| - 1];
      Attributes(attributes[..|attributes| - 1]) + " " + name + "=\"" + Escape(value) + "\""
  }

  function RenderToken(t: Token): string {
    match t
    case Open(node) => "<" + node.name + Attributes(node.attributes) + ">"
    case Close(name) => "</" + name + ">"
    case Text(text) => Escape(text)
  }

  function Render(m: Markup): string {
    match m
    case Blank => ""
    case Then(before, last) => Render(before) + RenderToken(last)
  }

  // ---------- what markup means

  datatype Nesting = Broken | Nested(open: seq<Node>)

  /** The elements left open, if every closing tag matches the innermost one. */
  ghost function OpenTags(m: Markup): Nesting {
    match m
    case Blank => Nested([])
    case Then(before, last) =>
      match OpenTags(before)
      case Broken => Broken
      case Nested(open) =>
        match last
        case Open(node) => Nested(open + [node])
        case Text(_) => Nested(open)
        case Close(name) =>
          if open != [] && Lower(open[|open| - 1].name) == name then Nested(open[..|open| - 1]) else Broken
  }

  ghost function TextOf(m: Markup): string {
    match m
    case Blank => ""
    case Then(before, last) => if last.Text? then TextOf(before) + last.text else TextOf(before)
  }

  ghost predicate IsOpen(m: Markup, n: Node) {
    OpenTags(m).Nested? && n in OpenTags(m).open
  }

  /** Character `k` of the text lies inside element `n`. */
  ghost predicate Encloses(m: Markup, n: Node, k: int) {
    match m
    case Blank => false
    case Then(before, last) =>
      if last.Text? && k >= |TextOf(before)| then IsOpen(before, n) else Encloses(before, n, k)
  }

  // ---------- what event streams mean

  ghost function AfterEvent(n: Nesting, e: Event): Nesting {
    match n
    case Broken => Broken
    case Nested(open) =>
      match e
      case Start(_, node) => Nested(open + [node])
      case Stop(_, node) => if open != [] && open[|open| - 1] == node then Nested(open[..|open| - 1]) else Broken
  }

  /** The elements open after the first `i` events, if they are nested. */
  ghost function OpenNodes(events: seq<Event>, i: nat): Nesting
    requires i <= |events|
  {
    if i == 0 then Nested([]) else AfterEvent(OpenNodes(events, i - 1), events[i - 1])
  }

  ghost predicate Sorted(events: seq<Event>) {
    forall i, j :: 0 <= i < j < |events| ==> events[i].offset <= events[j].offset
  }

  ghost predicate StartsOnce(events: seq<Event>) {
    forall i, j :: 0 <= i < j < |events| && events[i].Start? && events[j].Start? ==> events[i].node != events[j].node
  }

  ghost predicate ValidStream(events: seq<Event>) {
    Sorted(events) && StartsOnce(events) && OpenNodes(events, |events|) == Nested([])
  }

  ghost predicate Apart(x: seq<Event>, v: seq<Event>) {
    forall i, j :: 0 <= i < |x| && 0 <= j < |v| ==> x[i].node != v[j].node
  }

  ghost predicate Starts(e: Event, n: Node) { e.Start? && e.node == n }

  ghost predicate Stops(e: Event, n: Node) { e.Stop? && e.node == n }

  /** `n` is open at offset `k`: started at or before it, and stopped only after it. */
  ghost predicate OpenAt(events: seq<Event>, n: Node, k: int) {
    && (exists a :: 0 <= a < |events| && Starts(events[a], n) && events[a].offset <= k)
    && (forall a :: 0 <= a < |events| && Stops(events[a], n) ==> events[a].offset > k)
  }

  ghost predicate Started(events: seq<Event>, i: nat, n: Node)
    requires i <= |events|
  {
    exists a :: 0 <= a < i && Starts(events[a], n)
  }

  ghost predicate Stopped(events: seq<Event>, i: nat, n: Node)
    requires i <= |events|
  {
    exists a :: 0 <= a < i && Stops(events[a], n)
  }

  ghost predicate NoRepeats(nodes: seq<Node>) {
    forall i, j :: 0 <= i < j < |nodes| ==> nodes[i] != nodes[j]
  }

  /** The open nodes of a nested prefix are those started and not stopped. */
  lemma {:induction false} OpenIffStartedNotStopped(events: seq<Event>, i: nat)
    requires i <= |events| && StartsOnce(events) && OpenNodes(events, i).Nested?
    ensures NoRepeats(OpenNodes(events, i).open)
    ensures forall n :: n in OpenNodes(events, i).open <==> Started(events, i, n) && !Stopped(events, i, n)
    ensures forall n :: Stopped(events, i, n) ==> Started(events, i, n)
  {
    if i > 0 {
      var last := events[i - 1];
      OpenIffStartedNotStopped(events, i - 1);
      forall n ensures Started(events, i, n) <==> Started(events, i - 1, n) || Starts(last, n) {}
      forall n ensures Stopped(events, i, n) <==> Stopped(events, i - 1, n) || Stops(last, n) {}
      assert last.Start? ==> !Started(events, i - 1, last.node);
    }
  }

  lemma {:induction false} PrefixNested(events: seq<Event>, i: nat, j: nat)
    requires i <= j <= |events| && OpenNodes(events, j).Nested?
    ensures OpenNodes(events, i).Nested?
    decreases j
  {
    if i < j { PrefixNested(events, i, j - 1); }
  }

  ghost function OpenAfter(events: seq<Event>, i: nat): seq<Node>
    requires i <= |events|
  {
    if OpenNodes(events, i).Nested? then OpenNodes(events, i).open else []
  }

  /** With everything before `i` at or before offset `k` and the rest after it,
      what is open at `k` is what the prefix leaves open. */
  lemma OpenAtPrefix(events: seq<Event>, i: nat, k: int)
    requires ValidStream(events) && i <= |events|
    requires forall a :: 0 <= a < i ==> events[a].offset <= k
    requires forall a :: i <= a < |events| ==> events[a].offset > k
    ensures forall n :: n in OpenAfter(events, i) <==> OpenAt(events, n, k)
  {
    PrefixNested(events, i, |events|);
    OpenIffStartedNotStopped(events, i);
    forall n ensures Started(events, i, n) && !Stopped(events, i, n) <==> OpenAt(events, n, k) {}
  }

  lemma OpenAfterStart(x: seq<Event>, i: nat)
    requires ValidStream(x) && i < |x| && x[i].Start?
    ensures OpenAfter(x, i + 1) == OpenAfter(x, i) + [x[i].node] && x[i].node !in OpenAfter(x, i)
  {
    PrefixNested(x, i, |x|);
    OpenIffStartedNotStopped(x, i);
  }

  lemma OpenAfterStop(x: seq<Event>, i: nat)
    requires ValidStream(x) && i < |x| && x[i].Stop?
    ensures OpenAfter(x, i) == OpenAfter(x, i + 1) + [x[i].node] && x[i].node !in OpenAfter(x, i + 1)
  {
    PrefixNested(x, i + 1, |x|);
    PrefixNested(x, i, i + 1);
    OpenIffStartedNotStopped(x, i);
    var open := OpenAfter(x, i);
    assert open == open[..|open| - 1] + [x[i].node];
  }

  lemma OpenAreInStream(x: seq<Event>, i: nat)
    requires ValidStream(x) && i <= |x|
    ensures forall n :: n in OpenAfter(x, i) ==> Started(x, i, n)
  {
    PrefixNested(x, i, |x|);
    OpenIffStartedNotStopped(x, i);
  }
}
