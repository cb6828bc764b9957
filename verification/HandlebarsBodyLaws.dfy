/** The body of a generated function, read off its lines. */
module HandlebarsBodyLaws {
  import opened Handlebars
  import opened HandlebarsBodies
  import opened HandlebarsMachine
  import opened Prelude

  predicate OnlyContents(lines: seq<Line>) {
    forall i | 0 <= i < |lines| :: lines[i].BufferText? || lines[i].BufferEscaped?
  }

  function Contents(lines: seq<Line>): seq<Content>
    requires OnlyContents(lines)
  {
    seq(|lines|, i requires 0 <= i < |lines| =>
      if lines[i].BufferText? then Literally(lines[i].text) else Escaped(lines[i].code))
  }

  /** A line that is no content, on its own. */
  function Guard(line: Line, isSimple: bool): Stmt {
    if line.IfNotNull? then (if isSimple then ReturnUnlessNull(line.code) else AddUnlessNull(line.code))
    else if line.ElseEmpty? then ElseReturnEmpty
    else Perform(line)
  }

  lemma {:induction false} MergeFromBoth(m: Merging, a: seq<Line>, b: seq<Line>, isSimple: bool)
    ensures MergeFrom(m, a + b, isSimple) == MergeFrom(MergeFrom(m, a, isSimple), b, isSimple)
    decreases |a|
  {
    if a == [] {
      assert a + b == b;
    } else {
      assert (a + b)[1..] == a[1..] + b;
      MergeFromBoth(MergeLine(m, a[0], isSimple), a[1..], b, isSimple);
    }
  }

  lemma {:induction false} ContentsWait(m: Merging, lines: seq<Line>)
    requires OnlyContents(lines)
    ensures MergeFrom(m, lines, false) == m.(waiting := m.waiting + Contents(lines))
    decreases |lines|
  {
    if lines == [] {
      assert m.waiting + Contents(lines) == m.waiting;
    } else {
      var next := MergeLine(m, lines[0], false);
      ContentsWait(next, lines[1..]);
      assert next.waiting + Contents(lines[1..]) == m.waiting + Contents(lines);
    }
  }

  /** Nothing but contents: they are joined and returned, without a buffer. */
  lemma ContentsReturned(lines: seq<Line>)
    requires OnlyContents(lines)
    ensures Merge(lines, false) == Body(None, [Return(Contents(lines))])
  {
    ContentsWait(Unmerged, lines);
    assert [] + Contents(lines) == Contents(lines);
    assert [] + [Return(Contents(lines))] == [Return(Contents(lines))];
  }

  /** The statements up to the return of the buffer, with the contents that
      waited for it added to it instead. */
  ghost predicate Before(lines: seq<Line>, buffer: seq<Content>, statements: seq<Stmt>) {
    if OnlyContents(lines) then buffer == Contents(lines) && statements == []
    else
      var body := Merge(lines, false);
      && body.buffer == Some(buffer) && body.statements != []
      && var last := body.statements[|body.statements| - 1];
         var init := body.statements[..|body.statements| - 1];
         last.ReturnBuffer? && statements == if last.contents == [] then init else init + [AddToBuffer(last.contents)]
  }

  ghost predicate Buffered(m: Merging) {
    !m.unbuffered && m.statements != []
  }

  lemma {:induction false} StaysBuffered(m: Merging, lines: seq<Line>)
    requires Buffered(m)
    ensures Buffered(MergeFrom(m, lines, false))
    decreases |lines|
  {
    if lines != [] { StaysBuffered(MergeLine(m, lines[0], false), lines[1..]); }
  }

  lemma {:induction false} BecomesBuffered(lines: seq<Line>)
    requires !OnlyContents(lines)
    ensures Buffered(MergeFrom(Unmerged, lines, false))
    decreases |lines|
  {
    var init, last := lines[..|lines| - 1], lines[|lines| - 1];
    assert lines == init + [last];
    MergeFromBoth(Unmerged, init, [last], false);
    if OnlyContents(init) { ContentsWait(Unmerged, init); } else { BecomesBuffered(init); }
  }

  /** Where something else stands among the contents: the buffer begins with the
      contents before it, each further run of contents is added to it, and the
      last one is returned with it. */
  lemma BufferedBody(lines: seq<Line>, line: Line, tail: seq<Line>)
    returns (buffer: seq<Content>, statements: seq<Stmt>)
    requires !line.BufferText? && !line.BufferEscaped? && OnlyContents(tail)
    ensures Before(lines, buffer, statements)
    ensures Merge(lines + [line] + tail, false)
         == Body(Some(buffer), statements + [Guard(line, false), ReturnBuffer(Contents(tail))])
  {
    var m := MergeFrom(Unmerged, lines, false);
    var f := Flushed(m);
    buffer, statements := if f.first.Some? then f.first.value else [], f.statements;
    if OnlyContents(lines) {
      ContentsWait(Unmerged, lines);
      assert [] + Contents(lines) == Contents(lines);
    } else {
      BecomesBuffered(lines);
      assert (m.statements + [ReturnBuffer(m.waiting)])[..|m.statements|] == m.statements;
    }
    MergeFromBoth(Unmerged, lines + [line], tail, false);
    MergeFromBoth(Unmerged, lines, [line], false);
    var next := MergeLine(m, line, false);
    assert MergeFrom(m, [line], false) == next;
    ContentsWait(next, tail);
    assert next.waiting + Contents(tail) == Contents(tail);
    assert next.statements + [ReturnBuffer(Contents(tail))]
      == statements + [Guard(line, false), ReturnBuffer(Contents(tail))];
  }

  // ---------- simple programs

  function Each(lines: seq<Line>): seq<Stmt> {
    seq(|lines|, i requires 0 <= i < |lines| =>
      if lines[i].BufferText? then Return([Literally(lines[i].text)])
      else if lines[i].BufferEscaped? then Return([Escaped(lines[i].code)])
      else Guard(lines[i], true))
  }

  lemma {:induction false} EachInTurn(lines: seq<Line>)
    ensures MergeFrom(Unmerged, lines, true) == Merging([], None, Each(lines), true)
    decreases |lines|
  {
    if lines == [] {
      assert Each(lines) == [];
    } else {
      var init, last := lines[..|lines| - 1], lines[|lines| - 1];
      assert lines == init + [last];
      MergeFromBoth(Unmerged, init, [last], true);
      EachInTurn(init);
      assert Each(lines) == Each(init) + [HandlebarsBodies.Statement(last, true)];
    }
  }

  /** A simple program has its lines one by one, and nothing is written if there are none. */
  lemma SimpleBody(lines: seq<Line>)
    ensures Merge(lines, true) == Body(None, if lines == [] then [Return([])] else Each(lines))
  {
    EachInTurn(lines);
    assert [] + [Return([])] == [Return([])];
  }

  // ---------- what is returned

  /** A simple program with one value returns it, or an empty text for null. */
  lemma ValueReturned<S, V>(line: Line, code: Code, rt: Runtime<S, V>, s: S)
    requires line.AssignLine?
    ensures var after := rt.run(line, s);
      Call(Merge([line, IfNotNull(code), ElseEmpty], true), rt, s)
      == match rt.value(code, after) case None => Text("") case Some(v) => Raw(v)
  {
    var lines := [line, IfNotNull(code), ElseEmpty];
    SimpleBody(lines);
    assert Each(lines) == [Perform(line), ReturnUnlessNull(code), ElseReturnEmpty];
    var guarded: seq<Stmt>, empty: seq<Stmt> := [ReturnUnlessNull(code), ElseReturnEmpty], [ElseReturnEmpty];
    var at := ("", rt.run(line, s));
    assert Each(lines)[1..] == guarded && guarded[1..] == empty;
    assert HandlebarsBodies.Exec(Each(lines), rt, ("", s)) == HandlebarsBodies.Exec(guarded, rt, at);
    assert HandlebarsBodies.Exec(empty, rt, at) == Text("");
    assert guarded[0] == ReturnUnlessNull(code);
  }

  /** What each line adds to the output: null adds nothing. */
  lemma AddedBy<S, V>(line: Line, rest: seq<Line>, rt: Runtime<S, V>, s: S)
    ensures Output([], rt, s) == ""
    ensures var all, text := Output([line] + rest, rt, s), (t: string, after: S) => t + Output(rest, rt, after);
      match line
      case BufferText(t) => all == text(t, s)
      case BufferEscaped(code) => all == text(rt.escape(code, s).0, rt.escape(code, s).1)
      case IfNotNull(code) =>
        all == text(match rt.value(code, s) case None => "" case Some(v) => rt.text(v), s)
      case _ => all == text("", rt.run(line, s))
  {
    assert ([line] + rest)[1..] == rest;
  }
}
