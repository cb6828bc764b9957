/** When the shared functions of a template are those that would be generated
    one by one, and what a function returns when they are not. */
module HandlebarsExact {
  import opened Handlebars
  import opened HandlebarsCorrect
  import opened HandlebarsMachine
  import opened HandlebarsProgram
  import opened HandlebarsSharing
  import opened HandlebarsTemplates
  import opened HandlebarsWrites
  import opened Prelude
  import B = HandlebarsBodies

  // ---------- the lines of a simple program

  /** The one statement is written with `append`, and not escaped or as content. */
  predicate Unescaped(st: Statement, o: Options) {
    st.Block? || st.Partial? || (st.Mustache? && !(st.escaped && !o.noEscape))
  }

  predicate IsPlain(line: Line) {
    line.AssignLine? || line.UnlessHelper?
  }

  ghost predicate AllPlain(lines: seq<Line>) {
    forall i | 0 <= i < |lines| :: IsPlain(lines[i])
  }

  /** Written unescaped: some plain lines, and then a value unless it is null. */
  ghost predicate Guards(lines: seq<Line>, isSimple: bool, before: seq<Line>, code: Code) {
    AllPlain(before) && lines == before + if isSimple then [IfNotNull(code), ElseEmpty] else [IfNotNull(code)]
  }

  function StatementLines(st: Statement, o: Options, isSimple: bool): seq<Line> {
    Flushed(StatementOutput(st, 0, Output(None, []), o, isSimple))
  }

  lemma AppendLines(code: Code, isSimple: bool)
    ensures Guards(Flushed(EmitAppend(Output(None, []), code, isSimple)), isSimple, [AssignLine(1, code)], StackVar(1))
  {
  }

  lemma UnescapedLines(st: Statement, o: Options) returns (before: seq<Line>)
    requires Unescaped(st, o)
    ensures forall isSimple :: Guards(StatementLines(st, o, isSimple), isSimple, before, StackVar(1))
  {
    match st
    case Mustache(sexpr, _) =>
      var code := CallTree(sexpr, None, None, 0, o);
      forall isSimple { AppendLines(code, isSimple); }
      before := [AssignLine(1, code)];
    case Block(sexpr, program, inverse) =>
      before := BlockLines(sexpr, Child(program, 0), Child(inverse, InverseGuid(st, 0)), o);
    case Partial(name, indent, context, hash) =>
      var code := PartialCall(name, indent,
        if context.Some? then ParamEntry(context.value, 0, o).code else ContextName(0),
        if hash.Some? then HashObject(HashValues(hash.value, 0, o)) else Undefined);
      forall isSimple { AppendLines(code, isSimple); }
      before := [AssignLine(1, code)];
  }

  lemma BlockLines(s: Sexpr, program: Option<nat>, inverse: Option<nat>, o: Options) returns (before: seq<Line>)
    ensures forall isSimple ::
      Guards(Flushed(BlockOutput(s, program, inverse, Output(None, []), o, isSimple)), isSimple, before, StackVar(1))
  {
    var code := CallTree(s, program, inverse, 0, o);
    match Classify(s, o) {
      case Helper =>
        forall isSimple { AppendLines(code, isSimple); }
        before := [AssignLine(1, code)];
      case Simple =>
        var call := BlockHelperMissing(code, EmptyOptions(Original(s.id), program, inverse));
        forall isSimple { AppendLines(call, isSimple); }
        before := [AssignLine(1, call)];
      case Ambiguous =>
        var call := UnlessHelper(Head(s.id.parts), StackVar(1), EmptyOptions("", program, inverse));
        before := [AssignLine(1, code), call];
    }
  }

  /** Anything else is at most one line of content. */
  lemma OtherLines(st: Statement, o: Options)
    requires !Unescaped(st, o)
    ensures StatementLines(st, o, true) == StatementLines(st, o, false)
    ensures StatementLines(st, o, true) == []
         || (|StatementLines(st, o, true)| == 1 && B.IsContent(StatementLines(st, o, true)[0]))
  {
  }

  /** The opcodes of a simple program tell how its statement is written. */
  lemma AppendIff(q: Program, o: Options)
    requires Length(q) == 1
    ensures Append in CompiledProgram(q, o).opcodes <==> Unescaped(q.first, o)
  {
    var st, ops := q.first, StatementOps(q.first, 0, o);
    assert q.rest == End;
    assert Flatten(ProgramOps(q, 0, o)) == Flatten(ops) + [] == Flatten(ops);
    AppendInOps(st, o);
  }

  predicate HasAppend(ops: Ops) {
    match ops
    case Nothing => false
    case Do(op) => op == Append
    case Both(first, second) => HasAppend(first) || HasAppend(second)
  }

  lemma {:induction false} AppendFlattened(ops: Ops)
    ensures Append in Flatten(ops) <==> HasAppend(ops)
  {
    if ops.Both? {
      AppendFlattened(ops.first);
      AppendFlattened(ops.second);
    }
  }

  lemma {:induction false} NoWriteNoAppend(ops: Ops)
    requires Writes(ops) == 0
    ensures !HasAppend(ops)
  {
    if ops.Both? {
      NoWriteNoAppend(ops.first);
      NoWriteNoAppend(ops.second);
    }
  }

  lemma AppendInOps(st: Statement, o: Options)
    ensures Append in Flatten(StatementOps(st, 0, o)) <==> Unescaped(st, o)
  {
    AppendFlattened(StatementOps(st, 0, o));
    match st
    case Mustache(sexpr, _) =>
      SexprWritesNothing(sexpr, None, None, o);
      NoWriteNoAppend(SexprOps(sexpr, None, None, o));
    case Block(sexpr, program, inverse) =>
      BlockAppends(sexpr, Child(program, 0), Child(inverse, InverseGuid(st, 0)), o);
    case Partial(_, _, _, _) => AppendParts();
    case _ =>
  }

  lemma AppendParts()
    ensures forall a, b :: HasAppend(Both(a, b)) <==> HasAppend(a) || HasAppend(b)
  {
  }

  lemma BlockAppends(s: Sexpr, program: Option<nat>, inverse: Option<nat>, o: Options)
    ensures HasAppend(BlockOps(s, program, inverse, o))
  {
    AppendParts();
    match Classify(s, o)
    case Helper =>
    case Simple =>
    case Ambiguous =>
  }

  // ---------- the bodies of look-alikes

  lemma {:induction false} SimpleMerging(m: B.Merging, lines: seq<Line>)
    requires m.waiting == [] && m.unbuffered && m.first.None?
    ensures var merged := B.MergeFrom(m, lines, true);
      && merged.waiting == [] && merged.unbuffered && merged.first.None?
      && merged.statements == m.statements + SimpleStatements(lines)
    decreases |lines|
  {
    if lines == [] {
      assert m.statements + [] == m.statements;
    } else {
      var next := B.MergeLine(m, lines[0], true);
      SimpleMerging(next, lines[1..]);
      Assoc(m.statements, [B.Statement(lines[0], true)], SimpleStatements(lines[1..]));
    }
  }

  function SimpleStatements(lines: seq<Line>): seq<B.Stmt> {
    if lines == [] then [] else [B.Statement(lines[0], true)] + SimpleStatements(lines[1..])
  }

  lemma SimpleBody(lines: seq<Line>)
    ensures B.Merge(lines, true) == B.Body(None, if lines == [] then [B.Return([])] else SimpleStatements(lines))
  {
    SimpleMerging(B.Unmerged, lines);
    assert [] + SimpleStatements(lines) == SimpleStatements(lines);
    if lines == [] { assert SimpleStatements(lines) + [B.Return([])] == [B.Return([])]; }
  }

  lemma {:induction false} BufferedMerging(m: B.Merging, lines: seq<Line>)
    ensures B.MergeFrom(m, lines, false).unbuffered <==>
      (m.unbuffered && forall i | 0 <= i < |lines| :: B.IsContent(lines[i]))
    decreases |lines|
  {
    if lines != [] { BufferedMerging(B.MergeLine(m, lines[0], false), lines[1..]); }
  }

  /** One content, or none, makes the same body either way. */
  lemma ContentBody(lines: seq<Line>)
    requires lines == [] || (|lines| == 1 && B.IsContent(lines[0]))
    ensures B.Merge(lines, true) == B.Merge(lines, false)
  {
    SimpleBody(lines);
    if lines != [] {
      var next, content := B.MergeLine(B.Unmerged, lines[0], false), B.ContentOf(lines[0]);
      assert lines[1..] == [] && next.waiting == [] + [content] == [content];
      assert B.MergeFrom(next, lines[1..], false) == next;
      assert SimpleStatements(lines) == [B.Return([content])] + [] == [B.Return([content])];
      assert next.statements + [B.Return([content])] == [B.Return([content])];
    }
  }

  lemma GuardedBodies(simple: seq<Line>, buffered: seq<Line>, before: seq<Line>, code: Code)
    requires Guards(simple, true, before, code) && Guards(buffered, false, before, code)
    ensures B.Merge(simple, true) != B.Merge(buffered, false)
  {
    SimpleBody(simple);
    BufferedMerging(B.Unmerged, buffered);
    assert buffered[|before|] == IfNotNull(code);
  }

  /** The lines of a simple program, and those that its opcodes give when they
      are taken for a program that is not. */
  lemma LinesEitherWay(q: Program, o: Options, c: Compiled)
    requires Length(q) == 1 && !ProgramThrows(q, o) && c.opcodes == CompiledProgram(q, o).opcodes
    ensures !Fails(c, o.compat) && SourceOf(c, o.compat) == StatementLines(q.first, o, c.isSimple)
  {
    TemplateCompiles(q, o, c.isSimple);
    assert q.rest == End;
    assert ProgramOutput(q, 0, Output(None, []), o, c.isSimple)
        == StatementOutput(q.first, 0, Output(None, []), o, c.isSimple);
  }

  /** Two programs that look alike, only one of them simple: the same body is
      generated for both if and only if no value is written unescaped. */
  lemma BodiesSameIff(q: Program, o: Options, b: Compiled)
    requires Length(q) == 1 && !ProgramThrows(q, o)
    requires Equal(CompiledProgram(q, o), b) && !b.isSimple
    ensures !Fails(CompiledProgram(q, o), o.compat) && !Fails(b, o.compat)
    ensures BodyOf(CompiledProgram(q, o), o.compat) == BodyOf(b, o.compat) <==> Append !in b.opcodes
  {
    var a := CompiledProgram(q, o);
    LinesEitherWay(q, o, a);
    LinesEitherWay(q, o, b);
    AppendIff(q, o);
    if Unescaped(q.first, o) {
      var before := UnescapedLines(q.first, o);
      GuardedBodies(SourceOf(a, o.compat), SourceOf(b, o.compat), before, StackVar(1));
    } else {
      OtherLines(q.first, o);
      ContentBody(SourceOf(a, o.compat));
    }
  }

  // ---------- what their functions return

  /** The state after some plain lines. */
  function PlainState<S, V>(lines: seq<Line>, rt: B.Runtime<S, V>, s: S): S {
    if lines == [] then s else PlainState(lines[1..], rt, rt.run(lines[0], s))
  }

  lemma {:induction false} SimpleRun<S, V>(before: seq<Line>, rest: seq<B.Stmt>, rt: B.Runtime<S, V>, s: S)
    requires AllPlain(before)
    ensures B.Exec(SimpleStatements(before) + rest, rt, ("", s)) == B.Exec(rest, rt, ("", PlainState(before, rt, s)))
    decreases |before|
  {
    if before == [] {
      assert SimpleStatements(before) + rest == rest;
    } else {
      var statements := SimpleStatements(before) + rest;
      assert IsPlain(before[0]) && statements[0] == B.Perform(before[0]);
      assert statements[1..] == SimpleStatements(before[1..]) + rest;
      SimpleRun(before[1..], rest, rt, rt.run(before[0], s));
    }
  }

  lemma {:induction false} SimpleStatementsBoth(a: seq<Line>, b: seq<Line>)
    ensures SimpleStatements(a + b) == SimpleStatements(a) + SimpleStatements(b)
    decreases |a|
  {
    if a == [] {
      assert a + b == b;
    } else {
      assert (a + b)[1..] == a[1..] + b;
      SimpleStatementsBoth(a[1..], b);
    }
  }

  lemma {:induction false} GuardedOutput<S, V>(before: seq<Line>, code: Code, rt: B.Runtime<S, V>, s: S)
    requires AllPlain(before)
    ensures B.Output(before + [IfNotNull(code)], rt, s) == B.Added(code, rt, PlainState(before, rt, s))
    decreases |before|
  {
    var lines := before + [IfNotNull(code)];
    if before == [] {
      assert lines == [IfNotNull(code)] && lines[1..] == [];
      assert B.Added(code, rt, s) + "" == B.Added(code, rt, s);
    } else {
      assert lines[1..] == before[1..] + [IfNotNull(code)] && lines[0] == before[0] && IsPlain(before[0]);
      GuardedOutput(before[1..], code, rt, rt.run(before[0], s));
      assert "" + B.Output(lines[1..], rt, rt.run(before[0], s)) == B.Output(lines[1..], rt, rt.run(before[0], s));
    }
  }

  lemma GuardStatements(code: Code)
    ensures SimpleStatements([IfNotNull(code), ElseEmpty]) == [B.ReturnUnlessNull(code), B.ElseReturnEmpty]
  {
    var tail := [IfNotNull(code), ElseEmpty];
    assert tail[1..] == [ElseEmpty];
    assert SimpleStatements([ElseEmpty]) == [B.ElseReturnEmpty] + SimpleStatements([ElseEmpty][1..]);
    assert SimpleStatements(tail) == [B.ReturnUnlessNull(code)] + SimpleStatements(tail[1..]);
  }

  lemma GuardExec<S, V>(code: Code, rt: B.Runtime<S, V>, s: S)
    ensures B.Exec([B.ReturnUnlessNull(code), B.ElseReturnEmpty], rt, ("", s))
         == match rt.value(code, s) case None => B.Text("") case Some(v) => B.Raw(v)
  {
    assert [B.ReturnUnlessNull(code), B.ElseReturnEmpty][1..] == [B.ElseReturnEmpty];
  }

  /** Written unescaped, a simple program returns the value itself. */
  lemma SimpleAnswer<S, V>(simple: seq<Line>, before: seq<Line>, code: Code, rt: B.Runtime<S, V>, s: S)
    requires Guards(simple, true, before, code)
    ensures B.Call(B.Merge(simple, true), rt, s)
         == match rt.value(code, PlainState(before, rt, s)) case None => B.Text("") case Some(v) => B.Raw(v)
  {
    var tail := [IfNotNull(code), ElseEmpty];
    SimpleBody(simple);
    SimpleStatementsBoth(before, tail);
    GuardStatements(code);
    SimpleRun(before, SimpleStatements(tail), rt, s);
    GuardExec(code, rt, PlainState(before, rt, s));
  }

  /** Any other returns it as text. */
  lemma BufferedAnswer<S, V>(buffered: seq<Line>, before: seq<Line>, code: Code, rt: B.Runtime<S, V>, s: S)
    requires Guards(buffered, false, before, code)
    ensures B.Call(B.Merge(buffered, false), rt, s) == B.Text(B.Added(code, rt, PlainState(before, rt, s)))
  {
    GuardedOutput(before, code, rt, s);
    B.MergeKeepsOutput(buffered, rt, s);
  }

  /** Whichever of two look-alikes is called, the text is the same. */
  lemma TextSame<S, V>(q: Program, o: Options, b: Compiled, rt: B.Runtime<S, V>, s: S)
    requires Length(q) == 1 && !ProgramThrows(q, o)
    requires Equal(CompiledProgram(q, o), b) && !b.isSimple
    requires !Fails(CompiledProgram(q, o), o.compat) && !Fails(b, o.compat)
    ensures B.AnswerText(B.Call(BodyOf(CompiledProgram(q, o), o.compat), rt, s), rt)
         == B.AnswerText(B.Call(BodyOf(b, o.compat), rt, s), rt)
  {
    var a := CompiledProgram(q, o);
    BodiesSameIff(q, o, b);
    if Append in b.opcodes {
      AppendIff(q, o);
      LinesEitherWay(q, o, a);
      LinesEitherWay(q, o, b);
      var before := UnescapedLines(q.first, o);
      SimpleAnswer(SourceOf(a, o.compat), before, StackVar(1), rt, s);
      BufferedAnswer(SourceOf(b, o.compat), before, StackVar(1), rt, s);
    }
  }

  /** But where a value is written unescaped, some value tells them apart: the
      one that is simple hands it on as it is. */
  lemma ValueTellsApart(q: Program, o: Options, b: Compiled) returns (rt: B.Runtime<int, bool>)
    requires Length(q) == 1 && !ProgramThrows(q, o)
    requires Equal(CompiledProgram(q, o), b) && !b.isSimple && Append in b.opcodes
    requires !Fails(CompiledProgram(q, o), o.compat) && !Fails(b, o.compat)
    ensures B.Call(BodyOf(CompiledProgram(q, o), o.compat), rt, 0) == B.Raw(true)
    ensures B.Call(BodyOf(b, o.compat), rt, 0) == B.Text("true")
  {
    rt := B.Runtime((code, s) => ("", s), (code, s) => Some(true), (line, s) => s, v => if v then "true" else "false");
    var a := CompiledProgram(q, o);
    AppendIff(q, o);
    LinesEitherWay(q, o, a);
    LinesEitherWay(q, o, b);
    var before := UnescapedLines(q.first, o);
    SimpleAnswer(SourceOf(a, o.compat), before, StackVar(1), rt, 0);
    BufferedAnswer(SourceOf(b, o.compat), before, StackVar(1), rt, 0);
  }

  // ---------- the whole template

  /** No two programs within the template look alike, only one of them simple,
      and write a value unescaped. */
  ghost predicate Unmixed(c: Compiled) {
    forall a, b | Within(a, c) && Within(b, c) && Equal(a, b) && a.isSimple && !b.isSimple :: Append !in a.opcodes
  }

  lemma {:induction false} WithinIsProgram(p: Program, o: Options, a: Compiled) returns (q: Program)
    requires Within(a, CompiledProgram(p, o)) && !ProgramThrows(p, o)
    ensures a == CompiledProgram(q, o) && !ProgramThrows(q, o)
    decreases p, 0
  {
    var here, later := StatementChildren(p.first, o), ChildrenOf(p.rest, o);
    var all := here + later;
    assert CompiledProgram(p, o).children == all;
    var k :| 0 <= k < |all| && (a == all[k] || Within(a, all[k]));
    if k < |here| {
      q := StatementHasProgram(p.first, o, a, k);
    } else {
      assert all[k] == later[k - |here|];
      q := WithinIsProgram(p.rest, o, a);
    }
  }

  lemma {:induction false} StatementHasProgram(st: Statement, o: Options, a: Compiled, k: nat) returns (q: Program)
    requires k < |StatementChildren(st, o)| && !StatementThrows(st, o)
    requires a == StatementChildren(st, o)[k] || Within(a, StatementChildren(st, o)[k])
    ensures a == CompiledProgram(q, o) && !ProgramThrows(q, o)
    decreases st
  {
    q := if k == 0 && st.program.Some? then st.program.value else st.inverse.value;
    if a != CompiledProgram(q, o) { q := WithinIsProgram(q, o, a); }
  }

  /** The functions of a program generated on its own. */
  lemma FunctionsOf(c: Compiled, compat: bool)
    requires Generate(c, compat).Some?
    ensures !Fails(c, compat)
    ensures var f := Functions(Generate(c, compat).value);
      && f.body == BodyOf(c, compat) && |f.children| == |c.children|
      && forall k | 0 <= k < |c.children| ::
           Generate(c.children[k], compat).Some? && f.children[k] == Functions(Generate(c.children[k], compat).value)
  {
    GenerateEach(c.children, compat);
  }

  lemma BodiesOfLookAlikes(p: Program, o: Options, a: Compiled, b: Compiled)
    requires !ProgramThrows(p, o) && Within(a, CompiledProgram(p, o)) && Within(b, CompiledProgram(p, o))
    requires Equal(a, b) && a.isSimple && !b.isSimple
    ensures !Fails(a, o.compat) && !Fails(b, o.compat)
    ensures BodyOf(a, o.compat) == BodyOf(b, o.compat) <==> Append !in a.opcodes
  {
    var q := WithinIsProgram(p, o, a);
    BodiesSameIff(q, o, b);
  }

  lemma SameOpcodesSameBody(a: Compiled, b: Compiled, compat: bool)
    requires a.opcodes == b.opcodes && a.isSimple == b.isSimple && !Fails(a, compat)
    ensures !Fails(b, compat) && BodyOf(a, compat) == BodyOf(b, compat)
  {
    assert AfterRun(a, compat) == AfterRun(b, compat);
  }

  lemma {:induction false} UnmixedSame(p: Program, o: Options, a: Compiled, b: Compiled)
    requires !ProgramThrows(p, o) && Unmixed(CompiledProgram(p, o))
    requires Within(a, CompiledProgram(p, o)) && Within(b, CompiledProgram(p, o)) && Equal(a, b)
    requires Generate(a, o.compat).Some? && Generate(b, o.compat).Some?
    ensures Functions(Generate(a, o.compat).value) == Functions(Generate(b, o.compat).value)
    decreases a
  {
    var f, g := Functions(Generate(a, o.compat).value), Functions(Generate(b, o.compat).value);
    FunctionsOf(a, o.compat);
    FunctionsOf(b, o.compat);
    EqualSwapped(a, b);
    if a.isSimple == b.isSimple {
      SameOpcodesSameBody(a, b, o.compat);
    } else if a.isSimple {
      BodiesOfLookAlikes(p, o, a, b);
    } else {
      BodiesOfLookAlikes(p, o, b, a);
    }
    forall k | 0 <= k < |a.children| ensures f.children[k] == g.children[k] {
      ChildWithin(p, o, a, k);
      ChildWithin(p, o, b, k);
      UnmixedSame(p, o, a.children[k], b.children[k]);
    }
    assert f.children == g.children;
  }

  lemma ChildWithin(p: Program, o: Options, a: Compiled, k: nat)
    requires (a == CompiledProgram(p, o) || Within(a, CompiledProgram(p, o))) && k < |a.children|
    ensures Within(a.children[k], CompiledProgram(p, o))
  {
    assert Within(a.children[k], a);
    if a != CompiledProgram(p, o) { WithinThrough(a.children[k], a, CompiledProgram(p, o)); }
  }

  lemma {:induction false} UnmixedUnfolds(table: Table, p: Program, o: Options, i: nat)
    requires TableOf(table, CompiledProgram(p, o), o.compat) && !ProgramThrows(p, o) && Unmixed(CompiledProgram(p, o))
    requires i < |table|
    ensures Generate(table[i].environment, o.compat).Some?
    ensures Unfold(table, i) == Functions(Generate(table[i].environment, o.compat).value)
    decreases i
  {
    var e := table[i];
    assert EntryRight(table, i, o.compat);
    EntryCompiles(table, i, o.compat);
    FunctionsOf(e.environment, o.compat);
    var f := Functions(Generate(e.environment, o.compat).value);
    forall k | 0 <= k < |e.refs| ensures Unfold(table, e.refs[k]) == f.children[k] {
      UnmixedUnfolds(table, p, o, e.refs[k]);
      ChildWithin(p, o, e.environment, k);
      UnmixedSame(p, o, table[e.refs[k]].environment, e.environment.children[k]);
    }
    assert Unfold(table, i).children == f.children;
  }

  /** Where what is called is what was generated for a program, so it is for
      every program within that one. */
  lemma {:induction false} WithinUnfolded(table: Table, compat: bool, i: nat, c: Compiled, a: Compiled) returns (j: nat)
    requires Right(table, compat) && RefsBelow(table) && i < |table| && Equal(table[i].environment, c)
    requires Generate(c, compat).Some? && Unfold(table, i) == Functions(Generate(c, compat).value)
    requires Within(a, c)
    ensures j < |table| && Equal(table[j].environment, a)
    ensures Generate(a, compat).Some? && Unfold(table, j) == Functions(Generate(a, compat).value)
    decreases i
  {
    var e := table[i];
    assert EntryRight(table, i, compat);
    FunctionsOf(c, compat);
    var k :| 0 <= k < |c.children| && (a == c.children[k] || Within(a, c.children[k]));
    assert Equal(e.environment.children[k], c.children[k]);
    EqualThrough(table[e.refs[k]].environment, e.environment.children[k], c.children[k]);
    assert Unfold(table, i).children[k] == Unfold(table, e.refs[k]);
    j := e.refs[k];
    if a != c.children[k] { j := WithinUnfolded(table, compat, j, c.children[k], a); }
  }

  lemma OneEntry(table: Table, i: nat, j: nat, a: Compiled, b: Compiled)
    requires NoTwins(table) && i < |table| && j < |table|
    requires Equal(table[i].environment, a) && Equal(table[j].environment, b) && Equal(a, b)
    ensures i == j
  {
    EqualThrough(table[i].environment, a, b);
    EqualSwapped(table[j].environment, b);
    EqualThrough(table[i].environment, b, table[j].environment);
    EqualSwapped(table[i].environment, table[j].environment);
  }

  /** The shared functions of a template are those generated one by one if and
      only if no two of its programs look alike, only one of them simple, and
      write a value unescaped. */
  lemma SharingIsExactIff(table: Table, p: Program, o: Options)
    requires TableOf(table, CompiledProgram(p, o), o.compat) && !ProgramThrows(p, o)
    ensures Unfold(table, |table| - 1) == Functions(ProgramSource(p, o)) <==> Unmixed(CompiledProgram(p, o))
  {
    var root, c := |table| - 1, CompiledProgram(p, o);
    NotRejected(p, o);
    CompilesExactly(p, o);
    if Unmixed(c) { UnmixedUnfolds(table, p, o, root); }
    if Unfold(table, root) == Functions(Generate(c, o.compat).value) {
      EqualSelf(c);
      forall a, b | Within(a, c) && Within(b, c) && Equal(a, b) && a.isSimple && !b.isSimple
        ensures Append !in a.opcodes
      {
        var i := WithinUnfolded(table, o.compat, root, c, a);
        var j := WithinUnfolded(table, o.compat, root, c, b);
        OneEntry(table, i, j, a, b);
        FunctionsOf(a, o.compat);
        FunctionsOf(b, o.compat);
        BodiesOfLookAlikes(p, o, a, b);
      }
    }
  }

  lemma NotRejected(p: Program, o: Options)
    requires !ProgramThrows(p, o)
    ensures !ProgramRejected(p, o)
  {
    if ProgramRejected(p, o) { RejectedThrows(p, o); }
  }

  /** A template without comments, and without content stripped to nothing, is
      shared exactly: its opcodes tell which of its programs are simple. */
  lemma FullIsUnmixed(p: Program, o: Options)
    requires Full(p)
    ensures Unmixed(CompiledProgram(p, o))
  {
    forall a | Within(a, CompiledProgram(p, o)) ensures Counted(a) { ChildCounted(p, o, a); }
  }

  // ---------- two blocks around one variable

  function Named(name: string): Sexpr {
    Sexpr(Path([name], 0, name, true, false), NoParams, None, false, true)
  }

  function Alone(escaped: bool): Program {
    Statements(Mustache(Named("x"), escaped), End)
  }

  /** The same with a comment before it. */
  function Commented(escaped: bool): Program {
    Statements(Comment, Alone(escaped))
  }

  function Twice(escaped: bool): Program {
    Statements(Block(Named("a"), Some(Alone(escaped)), None),
               Statements(Block(Named("b"), Some(Commented(escaped)), None), End))
  }

  const Plainly := Options({}, false, false, false)

  lemma LooksAlike(escaped: bool)
    ensures var a, b := CompiledProgram(Alone(escaped), Plainly), CompiledProgram(Commented(escaped), Plainly);
      Equal(a, b) && a.isSimple && !b.isSimple && a.children == b.children == []
  {
    var o := Plainly;
    var a, b := CompiledProgram(Alone(escaped), o), CompiledProgram(Commented(escaped), o);
    assert Length(Alone(escaped)) == 1 && Length(Commented(escaped)) == 2;
    assert ProgramOps(Commented(escaped), 0, o) == Both(Nothing, ProgramOps(Alone(escaped), 0, o));
    assert [] + Flatten(ProgramOps(Alone(escaped), 0, o)) == Flatten(ProgramOps(Alone(escaped), 0, o));
    assert a.children == [] && b.children == [];
  }

  lemma TwiceHasBoth(escaped: bool)
    ensures CompiledProgram(Twice(escaped), Plainly).children
      == [CompiledProgram(Alone(escaped), Plainly), CompiledProgram(Commented(escaped), Plainly)]
  {
    var o, twice := Plainly, Twice(escaped);
    var a, b := CompiledProgram(Alone(escaped), o), CompiledProgram(Commented(escaped), o);
    assert StatementChildren(twice.first, o) == [a] && StatementChildren(twice.rest.first, o) == [b];
    assert ChildrenOf(End, o) == [] && ChildrenOf(twice.rest, o) == [b] && ChildrenOf(twice, o) == [a] + [b];
  }

  lemma TwiceCompiles(escaped: bool)
    ensures !ProgramThrows(Twice(escaped), Plainly) && !ProgramThrows(Alone(escaped), Plainly)
  {
    var o, twice := Plainly, Twice(escaped);
    assert !ProgramThrows(Alone(escaped), o) && !ProgramThrows(Commented(escaped), o);
    assert !StatementThrows(twice.first, o) && !StatementThrows(twice.rest.first, o);
    assert !ProgramThrows(twice.rest, o);
  }

  lemma OnlyBothWithin(escaped: bool, a: Compiled)
    requires Within(a, CompiledProgram(Twice(escaped), Plainly))
    ensures a == CompiledProgram(Alone(escaped), Plainly) || a == CompiledProgram(Commented(escaped), Plainly)
  {
    LooksAlike(escaped);
    TwiceHasBoth(escaped);
    OneOfTwo(CompiledProgram(Twice(escaped), Plainly), a,
             CompiledProgram(Alone(escaped), Plainly), CompiledProgram(Commented(escaped), Plainly));
  }

  lemma OneOfTwo(c: Compiled, a: Compiled, x: Compiled, y: Compiled)
    requires c.children == [x, y] && x.children == y.children == [] && Within(a, c)
    ensures a == x || a == y
  {
  }

  lemma BothWithin(escaped: bool)
    ensures Within(CompiledProgram(Alone(escaped), Plainly), CompiledProgram(Twice(escaped), Plainly))
    ensures Within(CompiledProgram(Commented(escaped), Plainly), CompiledProgram(Twice(escaped), Plainly))
  {
    var c := CompiledProgram(Twice(escaped), Plainly);
    TwiceHasBoth(escaped);
    assert c.children[0] == CompiledProgram(Alone(escaped), Plainly);
    assert c.children[1] == CompiledProgram(Commented(escaped), Plainly);
  }

  /** `{{#a}}{{{x}}}{{/a}}{{#b}}{{! c}}{{{x}}}{{/b}}`: the second block calls
      the function of the first, which returns `x` as it is where its own would
      return it as text.  With `{{x}}` the two functions are the same. */
  lemma CommentSharesProgram(escaped: bool)
    ensures !ProgramThrows(Twice(escaped), Plainly)
    ensures Unmixed(CompiledProgram(Twice(escaped), Plainly)) <==> escaped
  {
    var c, x := CompiledProgram(Twice(escaped), Plainly), CompiledProgram(Alone(escaped), Plainly);
    TwiceCompiles(escaped);
    LooksAlike(escaped);
    BothWithin(escaped);
    assert Length(Alone(escaped)) == 1;
    AppendIff(Alone(escaped), Plainly);
    forall a | Within(a, c) ensures a == x || !a.isSimple { OnlyBothWithin(escaped, a); }
  }
}
