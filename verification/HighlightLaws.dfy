/** The order in which the merge takes the events. */
module HighlightLaws {
  import opened Highlight
  import opened HighlightDom
  import opened HighlightMerge

  /** No node stops where it starts. */
  ghost predicate NoneEmpty(events: seq<Event>) {
    forall a, b | 0 <= a < |events| && 0 <= b < |events| && events[a].Start? && Stops(events[b], events[a].node) ::
      events[a].offset < events[b].offset
  }

  ghost function FirstStop(events: seq<Event>, a: nat, b: nat): (c: nat)
    requires a <= b < |events| && events[b].Stop?
    ensures a <= c <= b && events[c].Stop? && forall k | a <= k < c :: events[k].Start?
    decreases b - a
  {
    if events[a].Stop? then a else FirstStop(events, a + 1, b)
  }

  /** Of the events of one stream at an offset, the closing ones come first. */
  lemma StopsBeforeStarts(events: seq<Event>, a: nat, b: nat)
    requires ValidStream(events) && NoneEmpty(events)
    requires a < b < |events| && events[a].Start? && events[b].Stop?
    ensures events[a].offset < events[b].offset
  {
    var c := FirstStop(events, a, b);
    OpenAfterStart(events, c - 1);
    OpenAfterStop(events, c);
    assert events[c - 1].node == events[c].node;
  }

  /** Two streams without empty elements are merged with no tag opened where
      another one has still to be closed: when an opening tag is taken, all that
      wait at its offset are opening tags. */
  lemma ClosedBeforeOpened(x: seq<Event>, v: seq<Event>, i: nat, j: nat)
    requires ValidStream(x) && ValidStream(v) && NoneEmpty(x) && NoneEmpty(v)
    requires i <= |x| && j <= |v| && (i < |x| || j < |v|)
    ensures var next := if TakesFirst(x[i..], v[j..]) then x[i] else v[j];
      && (forall a | i <= a < |x| :: next.offset <= x[a].offset)
      && (forall a | j <= a < |v| :: next.offset <= v[a].offset)
      && (next.Start? ==>
            && (forall a | i <= a < |x| && x[a].Stop? :: next.offset < x[a].offset)
            && (forall a | j <= a < |v| && v[a].Stop? :: next.offset < v[a].offset))
  {
    forall a | i < a < |x| && x[i].Start? && x[a].Stop? ensures x[i].offset < x[a].offset {
      StopsBeforeStarts(x, i, a);
    }
    forall a | j < a < |v| && v[j].Start? && v[a].Stop? ensures v[j].offset < v[a].offset {
      StopsBeforeStarts(v, j, a);
    }
  }

  /** Of two that open at one offset, the first stream's is the outer one; of
      two that close, the second stream's goes first. */
  lemma AtOneOffset(x: seq<Event>, v: seq<Event>)
    requires x != [] && v != [] && x[0].offset == v[0].offset
    ensures x[0].Start? && v[0].Start? ==> TakesFirst(x, v)
    ensures x[0].Stop? && v[0].Stop? ==> !TakesFirst(x, v)
    ensures x[0].Stop? && v[0].Start? ==> TakesFirst(x, v)
    ensures x[0].Start? && v[0].Stop? ==> !TakesFirst(x, v)
  {
  }

  // ---------- text

  /** Escaping leaves all characters but three alone. */
  lemma EscapeOne(c: char)
    ensures Escape("") == ""
    ensures Escape([c]) == if c == '&' then "&amp;" else if c == '<' then "&lt;" else if c == '>' then "&gt;" else [c]
  {
    assert [c][..0] == "" && Escape([c]) == "" + EscapeChar(c);
  }

  const CAPITALS := "ABCDEFGHIJKLMNOPQRSTUVWXYZ"
  const SMALL := "abcdefghijklmnopqrstuvwxyz"

  /** The names of tags in small letters. */
  lemma LowerOf(s: string, i: nat)
    requires i < |s|
    ensures |Lower(s)| == |s|
    ensures s[i] !in CAPITALS ==> Lower(s)[i] == s[i]
    ensures forall k | 0 <= k < 26 && s[i] == CAPITALS[k] :: Lower(s)[i] == SMALL[k]
  {
    forall k | 0 <= k < 26 ensures CAPITALS[k] == 'A' + k as char && SMALL[k] == 'a' + k as char {}
    if 'A' <= s[i] <= 'Z' {
      var k := (s[i] - 'A') as int;
      assert CAPITALS[k] == s[i];
    }
  }

  lemma {:induction false} LineKept(line: string)
    requires '\n' !in line
    ensures WithoutNewlines(line) == line && WithoutNewlines(line + "\n") == line
  {
    if line != "" {
      var init := line[..|line| - 1];
      LineKept(init);
      assert line == init + [line[|line| - 1]];
    }
    assert (line + "\n")[..|line|] == line;
  }

  /** The text of a tree in the order of the document. */
  lemma TextInOrder(a: string, b: string, node: Node, useBr: bool)
    requires '\n' !in a && '\n' !in b
    ensures TextContent(Element(node, TextNode(a, Nothing), TextNode(b, Nothing)), useBr) == a + b
  {
    LineText(a, useBr);
    LineText(b, useBr);
  }

  lemma LineText(a: string, useBr: bool)
    requires '\n' !in a
    ensures TextContent(TextNode(a, Nothing), useBr) == a
  {
    LineKept(a);
    assert a + TextContent(Nothing, useBr) == a;
  }

  /** The newlines of the source, or where line breaks are elements those alone. */
  lemma NewlineOf(a: string)
    requires '\n' !in a
    ensures TextContent(TextNode(a + "\n", Nothing), false) == a + "\n"
    ensures TextContent(TextNode(a + "\n", Nothing), true) == a
    ensures forall useBr :: TextContent(Br(TextNode(a, Nothing)), useBr) == "\n" + a
  {
    LineKept(a);
    LineText(a, true);
    LineText(a, false);
    assert a + "\n" + "" == a + "\n" && a + "" == a;
  }

  // ---------- elements

  /** The elements in the order of the document. */
  function NodesOf(t: Dom): seq<Node> {
    match t
    case Nothing => []
    case Element(node, firstChild, next) => [node] + NodesOf(firstChild) + NodesOf(next)
    case _ => NodesOf(t.next)
  }

  lemma {:induction false} ContainsIff(t: Dom, n: Node)
    ensures Contains(t, n) <==> n in NodesOf(t)
  {
    if t.Element? {
      ContainsIff(t.firstChild, n);
      ContainsIff(t.next, n);
    } else if !t.Nothing? {
      ContainsIff(t.next, n);
    }
  }

  ghost predicate Disjoint(a: seq<Node>, b: seq<Node>) {
    forall n :: !(n in a && n in b)
  }

  lemma NoRepeatsBoth(a: seq<Node>, b: seq<Node>)
    ensures NoRepeats(a + b) <==> NoRepeats(a) && NoRepeats(b) && Disjoint(a, b)
  {
    var all := a + b;
    assert all[..|a|] == a && all[|a|..] == b;
    if NoRepeats(all) {
      forall i, j | 0 <= i < j < |a| ensures a[i] != a[j] { assert all[i] == a[i] && all[j] == a[j]; }
      forall i, j | 0 <= i < j < |b| ensures b[i] != b[j] { assert all[|a| + i] == b[i] && all[|a| + j] == b[j]; }
      forall n | n in a ensures n !in b {
        var i :| 0 <= i < |a| && a[i] == n;
        assert all[i] == n;
        forall j | 0 <= j < |b| ensures b[j] != n { assert all[|a| + j] == b[j]; }
      }
    }
    if NoRepeats(a) && NoRepeats(b) && Disjoint(a, b) {
      forall i, j | 0 <= i < j < |all| ensures all[i] != all[j] {
        if i < |a| <= j {
          assert all[i] == a[i] && all[j] == b[j - |a|] && a[i] in a && b[j - |a|] in b;
        } else if |a| <= i {
          assert all[i] == b[i - |a|] && all[j] == b[j - |a|];
        } else {
          assert all[i] == a[i] && all[j] == a[j];
        }
      }
    }
  }

  /** A tree is distinct exactly if no element comes twice in the document. */
  lemma {:induction false} DistinctIff(t: Dom)
    ensures Distinct(t) <==> NoRepeats(NodesOf(t))
  {
    if t.Element? {
      var own, inner, after := [t.node], NodesOf(t.firstChild), NodesOf(t.next);
      DistinctIff(t.firstChild);
      DistinctIff(t.next);
      NoRepeatsBoth(own + inner, after);
      NoRepeatsBoth(own, inner);
      forall n ensures (Contains(t.firstChild, n) <==> n in inner) && (Contains(t.next, n) <==> n in after) {
        ContainsIff(t.firstChild, n);
        ContainsIff(t.next, n);
      }
      forall n ensures n in own <==> n == t.node {}
    } else if !t.Nothing? {
      DistinctIff(t.next);
    }
  }
}
