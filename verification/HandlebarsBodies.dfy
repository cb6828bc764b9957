/** The body of the function generated for a program: its lines put together,
    and what the function returns when it is called. */
module HandlebarsBodies {
  import opened Handlebars
  import opened HandlebarsMachine
  import opened Prelude

  /** A piece of text to be added to the output: a string literal, or a call of `escapeExpression`. */
  datatype Content = Literally(text: string) | Escaped(code: Code)

  datatype Stmt =
    | Perform(line: Line)                   // an assignment, or a call of blockHelperMissing unless a helper was found
    | AddUnlessNull(code: Code)        // if (code != null) { buffer += code; }
    | ReturnUnlessNull(code: Code)     // if (code != null) { return code; }
    | ElseReturnEmpty                  // else { return ''; }
    | AddToBuffer(contents: seq<Content>)
    | Return(contents: seq<Content>)   // of no contents: return "";
    | ReturnBuffer(contents: seq<Content>)

  /** What the buffer is declared with, if there is one, and the statements. */
  datatype Body = Body(buffer: Option<seq<Content>>, statements: seq<Stmt>)

  // ---------- putting the lines together

  predicate IsContent(line: Line) {
    line.BufferText? || line.BufferEscaped?
  }

  function ContentOf(line: Line): Content
    requires IsContent(line)
  {
    match line case BufferText(text) => Literally(text) case BufferEscaped(code) => Escaped(code)
  }

  /** `appendToBuffer`: a simple program returns what others add to the buffer. */
  function Statement(line: Line, isSimple: bool): Stmt {
    if IsContent(line) then Return([ContentOf(line)])
    else
      match line
      case IfNotNull(code) => if isSimple then ReturnUnlessNull(code) else AddUnlessNull(code)
      case ElseEmpty => ElseReturnEmpty
      case _ => Perform(line)
  }

  /** Where `mergeSource` has got to: contents waiting to be joined, those the
      buffer starts with, the statements so far, and whether it can still do
      without a buffer. */
  datatype Merging = Merging(
    waiting: seq<Content>, first: Option<seq<Content>>, statements: seq<Stmt>, unbuffered: bool)

  const Unmerged := Merging([], None, [], true)

  function Flushed(m: Merging): Merging {
    if m.waiting == [] then m
    else if m.first.None? && m.statements == [] then m.(waiting := [], first := Some(m.waiting))
    else m.(waiting := [], statements := m.statements + [AddToBuffer(m.waiting)])
  }

  function MergeLine(m: Merging, line: Line, isSimple: bool): Merging {
    if !isSimple && IsContent(line) then m.(waiting := m.waiting + [ContentOf(line)])
    else
      var m1 := Flushed(m);
      m1.(statements := m1.statements + [Statement(line, isSimple)], unbuffered := m1.unbuffered && isSimple)
  }

  function MergeFrom(m: Merging, lines: seq<Line>, isSimple: bool): Merging
    decreases |lines|
  {
    if lines == [] then m else MergeFrom(MergeLine(m, lines[0], isSimple), lines[1..], isSimple)
  }

  function Finished(m: Merging): Body {
    if m.unbuffered then
      Body(None, if m.waiting != [] || (m.first.None? && m.statements == []) then m.statements + [Return(m.waiting)]
                 else m.statements)
    else
      Body(Some(if m.first.Some? then m.first.value else []), m.statements + [ReturnBuffer(m.waiting)])
  }

  function Merge(lines: seq<Line>, isSimple: bool): Body {
    Finished(MergeFrom(Unmerged, lines, isSimple))
  }

  // ---------- calling the function

  /** What a call depends on: the effect of evaluating and of running code in
      some state, and the string a value is turned into. */
  datatype Runtime<!S, !V> = Runtime(
    escape: (Code, S) -> (string, S),
    value: (Code, S) -> Option<V>,   // null and undefined are none
    run: (Line, S) -> S,
    text: V -> string)

  /** A string that was put together, or a value returned as it is. */
  datatype Answer<V> = Text(text: string) | Raw(value: V) | NoAnswer

  function AnswerText<S, V>(a: Answer<V>, rt: Runtime<S, V>): string {
    match a case Text(text) => text case Raw(value) => rt.text(value) case NoAnswer => "undefined"
  }

  function Piece<S, V>(c: Content, rt: Runtime<S, V>, s: S): (string, S) {
    match c case Literally(text) => (text, s) case Escaped(code) => rt.escape(code, s)
  }

  /** Contents joined from left to right. */
  function Pieces<S, V>(cs: seq<Content>, rt: Runtime<S, V>, s: S): (string, S) {
    if cs == [] then ("", s)
    else
      var before := Pieces(cs[..|cs| - 1], rt, s);
      var last := Piece(cs[|cs| - 1], rt, before.1);
      (before.0 + last.0, last.1)
  }

  function Added<S, V>(code: Code, rt: Runtime<S, V>, s: S): string {
    match rt.value(code, s) case None => "" case Some(v) => rt.text(v)
  }

  predicate GoesOn(stmt: Stmt) {
    stmt.Perform? || stmt.AddUnlessNull? || stmt.AddToBuffer?
  }

  /** A statement that goes on to the next one: the buffer and the state after it. */
  function After<S, V>(stmt: Stmt, rt: Runtime<S, V>, at: (string, S)): (string, S)
    requires GoesOn(stmt)
  {
    match stmt
    case Perform(line) => (at.0, rt.run(line, at.1))
    case AddUnlessNull(code) => (at.0 + Added(code, rt, at.1), at.1)
    case AddToBuffer(cs) => (at.0 + Pieces(cs, rt, at.1).0, Pieces(cs, rt, at.1).1)
  }

  function Exec<S, V>(statements: seq<Stmt>, rt: Runtime<S, V>, at: (string, S)): Answer<V> {
    if statements == [] then NoAnswer
    else
      match statements[0]
      case ReturnUnlessNull(code) =>
        (match rt.value(code, at.1) case None => Exec(statements[1..], rt, at) case Some(v) => Raw(v))
      case ElseReturnEmpty => Text("")
      case Return(cs) => Text(Pieces(cs, rt, at.1).0)
      case ReturnBuffer(cs) => Text(at.0 + Pieces(cs, rt, at.1).0)
      case _ => Exec(statements[1..], rt, After(statements[0], rt, at))
  }

  function Call<S, V>(body: Body, rt: Runtime<S, V>, s: S): Answer<V> {
    Exec(body.statements, rt, if body.buffer.Some? then Pieces(body.buffer.value, rt, s) else ("", s))
  }

  // ---------- what the lines ask for

  function LineAfter<S, V>(line: Line, rt: Runtime<S, V>, s: S): (string, S) {
    if IsContent(line) then Piece(ContentOf(line), rt, s)
    else
      match line
      case IfNotNull(code) => (Added(code, rt, s), s)
      case _ => ("", rt.run(line, s))
  }

  /** The text of the lines, one after the other. */
  function Output<S, V>(lines: seq<Line>, rt: Runtime<S, V>, s: S): string {
    if lines == [] then "" else LineAfter(lines[0], rt, s).0 + Output(lines[1..], rt, LineAfter(lines[0], rt, s).1)
  }

  ghost predicate AllGoOn(statements: seq<Stmt>) {
    forall i | 0 <= i < |statements| :: GoesOn(statements[i])
  }

  /** The buffer and the state after some statements that go on. */
  function AfterAll<S, V>(statements: seq<Stmt>, rt: Runtime<S, V>, at: (string, S)): (string, S)
    requires AllGoOn(statements)
  {
    if statements == [] then at
    else After(statements[|statements| - 1], rt, AfterAll(statements[..|statements| - 1], rt, at))
  }

  lemma {:induction false} ExecLast<S, V>(statements: seq<Stmt>, last: Stmt, rt: Runtime<S, V>, at: (string, S))
    requires AllGoOn(statements)
    ensures Exec(statements + [last], rt, at) == Exec([last], rt, AfterAll(statements, rt, at))
    decreases |statements|
  {
    if statements == [] {
      assert statements + [last] == [last];
    } else {
      var first, rest := statements[0], statements[1..];
      assert (statements + [last])[1..] == rest + [last];
      ExecLast(rest, last, rt, After(first, rt, at));
      AfterFirst(statements, rt, at);
    }
  }

  lemma {:induction false} AfterFirst<S, V>(statements: seq<Stmt>, rt: Runtime<S, V>, at: (string, S))
    requires statements != [] && AllGoOn(statements)
    ensures AllGoOn(statements[1..])
    ensures AfterAll(statements, rt, at) == AfterAll(statements[1..], rt, After(statements[0], rt, at))
    decreases |statements|
  {
    if |statements| > 1 {
      var init := statements[..|statements| - 1];
      AfterFirst(init, rt, at);
      assert statements[1..][..|statements| - 2] == init[1..];
    }
  }

  /** What has been merged so far, run: the text and the state after it. */
  function Reached<S, V>(m: Merging, rt: Runtime<S, V>, s: S): (string, S)
    requires AllGoOn(m.statements)
  {
    var start := if m.first.Some? then Pieces(m.first.value, rt, s) else ("", s);
    var at := AfterAll(m.statements, rt, start);
    var waiting := Pieces(m.waiting, rt, at.1);
    (at.0 + waiting.0, waiting.1)
  }

  /** Without a buffer there is nothing but contents. */
  ghost predicate Sound(m: Merging) {
    AllGoOn(m.statements) && (m.unbuffered ==> m.statements == [] && m.first.None?)
  }

  lemma FlushedReached<S, V>(m: Merging, rt: Runtime<S, V>, s: S)
    requires Sound(m)
    ensures AllGoOn(Flushed(m).statements) && Reached(Flushed(m), rt, s) == Reached(m, rt, s)
    ensures Flushed(m).waiting == [] && Flushed(m).unbuffered == m.unbuffered
  {
    var f := Flushed(m);
    if m.waiting != [] {
      if m.first.None? && m.statements == [] {
        var text := Pieces(m.waiting, rt, s).0;
        assert "" + text == text == text + "";
      } else {
        assert f.statements[..|m.statements|] == m.statements;
        var at := Reached(m, rt, s);
        assert at.0 + "" == at.0;
      }
    }
  }

  lemma LineReached<S, V>(m: Merging, line: Line, rt: Runtime<S, V>, s: S)
    requires Sound(m) && !line.ElseEmpty?
    ensures Sound(MergeLine(m, line, false))
    ensures var before, after := Reached(m, rt, s), LineAfter(line, rt, Reached(m, rt, s).1);
      Reached(MergeLine(m, line, false), rt, s) == (before.0 + after.0, after.1)
  {
    var next := MergeLine(m, line, false);
    if IsContent(line) {
      ContentReached(m, ContentOf(line), rt, s);
    } else {
      FlushedReached(m, rt, s);
      StatementReached(Flushed(m), line, rt, s);
    }
  }

  lemma ContentReached<S, V>(m: Merging, c: Content, rt: Runtime<S, V>, s: S)
    requires Sound(m)
    ensures var before, after := Reached(m, rt, s), Piece(c, rt, Reached(m, rt, s).1);
      Reached(m.(waiting := m.waiting + [c]), rt, s) == (before.0 + after.0, after.1)
  {
    var start := if m.first.Some? then Pieces(m.first.value, rt, s) else ("", s);
    var at := AfterAll(m.statements, rt, start);
    assert (m.waiting + [c])[..|m.waiting|] == m.waiting;
    Assoc(at.0, Pieces(m.waiting, rt, at.1).0, Piece(c, rt, Pieces(m.waiting, rt, at.1).1).0);
  }

  lemma StatementReached<S, V>(m: Merging, line: Line, rt: Runtime<S, V>, s: S)
    requires AllGoOn(m.statements) && m.waiting == [] && !IsContent(line) && !line.ElseEmpty?
    ensures var next := m.(statements := m.statements + [Statement(line, false)], unbuffered := false);
      && AllGoOn(next.statements)
      && Reached(next, rt, s) == (Reached(m, rt, s).0 + LineAfter(line, rt, Reached(m, rt, s).1).0,
                                  LineAfter(line, rt, Reached(m, rt, s).1).1)
  {
    var start := if m.first.Some? then Pieces(m.first.value, rt, s) else ("", s);
    var at, statements := AfterAll(m.statements, rt, start), m.statements + [Statement(line, false)];
    assert statements[..|m.statements|] == m.statements;
    var next := After(Statement(line, false), rt, at);
    assert at.0 + "" == at.0 && next.0 + "" == next.0;
  }

  lemma FinishedReached<S, V>(m: Merging, rt: Runtime<S, V>, s: S)
    requires Sound(m)
    ensures Call(Finished(m), rt, s) == Text(Reached(m, rt, s).0)
  {
    var body := Finished(m);
    if m.unbuffered {
      var text := Pieces(m.waiting, rt, s).0;
      assert "" + text == text;
      assert body.statements == [Return(m.waiting)];
    } else {
      var start := if m.first.Some? then Pieces(m.first.value, rt, s) else ("", s);
      ExecLast(m.statements, ReturnBuffer(m.waiting), rt, start);
    }
  }

  /** A program that is not simple returns the text of its lines, in their
      order, whether they were joined or added to a buffer. */
  lemma MergeKeepsOutput<S, V>(lines: seq<Line>, rt: Runtime<S, V>, s: S)
    requires ElseEmpty !in lines
    ensures Call(Merge(lines, false), rt, s) == Text(Output(lines, rt, s))
  {
    MergedOutput(Unmerged, lines, rt, s);
    assert Reached(Unmerged, rt, s) == ("", s);
    assert "" + Output(lines, rt, s) == Output(lines, rt, s);
    FinishedReached(MergeFrom(Unmerged, lines, false), rt, s);
  }

  lemma {:induction false} MergedOutput<S, V>(m: Merging, lines: seq<Line>, rt: Runtime<S, V>, s: S)
    requires Sound(m) && ElseEmpty !in lines
    ensures Sound(MergeFrom(m, lines, false))
    ensures Reached(MergeFrom(m, lines, false), rt, s).0 == Reached(m, rt, s).0 + Output(lines, rt, Reached(m, rt, s).1)
    decreases |lines|
  {
    var before := Reached(m, rt, s);
    if lines == [] {
      assert before.0 + "" == before.0;
    } else {
      var next := LineAfter(lines[0], rt, before.1);
      LineReached(m, lines[0], rt, s);
      MergedOutput(MergeLine(m, lines[0], false), lines[1..], rt, s);
      Assoc(before.0, next.0, Output(lines[1..], rt, next.1));
    }
  }
}
