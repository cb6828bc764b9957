/** Both passes together: what a template compiles to, and exactly when it compiles. */
module HandlebarsTemplates {
  import opened Handlebars
  import opened HandlebarsMachine
  import opened HandlebarsProgram
  import opened Prelude

  /** The source generated for a program, and for each of its child programs;
      whether it is simple decides how its lines are written out. */
  datatype Generated = Generated(isSimple: bool, source: seq<Line>, children: seq<Generated>)

  // ---------- the second pass over a program and its children

  function AfterRun(c: Compiled, compat: bool): Option<Machine> {
    Run(c.opcodes, Initial, Environment(compat, c.isSimple))
  }

  /** The second pass throws on the opcodes of the program itself. */
  predicate Fails(c: Compiled, compat: bool) {
    AfterRun(c, compat).None? || ContentLeft(AfterRun(c, compat).value)
  }

  function SourceOf(c: Compiled, compat: bool): seq<Line>
    requires !Fails(c, compat)
  {
    FlushPending(AfterRun(c, compat).value).source
  }

  /** Every program on its own; no result where the second pass throws. */
  function Generate(c: Compiled, compat: bool): Option<Generated>
    decreases c
  {
    var children := GenerateAll(c.children, compat);
    if children.None? || Fails(c, compat) then None
    else Some(Generated(c.isSimple, SourceOf(c, compat), children.value))
  }

  function GenerateAll(cs: seq<Compiled>, compat: bool): Option<seq<Generated>>
    decreases cs
  {
    if cs == [] then Some([]) else
      var first, rest := Generate(cs[0], compat), GenerateAll(cs[1..], compat);
      if first.None? || rest.None? then None else Some([first.value] + rest.value)
  }

  lemma {:induction false} GenerateEach(cs: seq<Compiled>, compat: bool)
    ensures GenerateAll(cs, compat).Some? <==> forall k | 0 <= k < |cs| :: Generate(cs[k], compat).Some?
    ensures GenerateAll(cs, compat).Some? ==>
      && |GenerateAll(cs, compat).value| == |cs|
      && forall k | 0 <= k < |cs| :: Generate(cs[k], compat) == Some(GenerateAll(cs, compat).value[k])
    decreases |cs|
  {
    if cs != [] {
      GenerateEach(cs[1..], compat);
      forall k | 0 < k < |cs| ensures cs[k] == cs[1..][k - 1] {}
    }
  }

  // ---------- the source read off a template

  function Flushed(out: Output): seq<Line> {
    if out.pending.Some? then out.source + [BufferText(out.pending.value)] else out.source
  }

  function ProgramSource(p: Program, o: Options): Generated
    decreases p, 1
  {
    var isSimple := Length(p) == 1;
    Generated(isSimple, Flushed(ProgramOutput(p, 0, Output(None, []), o, isSimple)), ChildSources(p, o))
  }

  function StatementSources(st: Statement, o: Options): seq<Generated>
    decreases st
  {
    if st.Block? then
      (if st.program.Some? then [ProgramSource(st.program.value, o)] else []) +
      (if st.inverse.Some? then [ProgramSource(st.inverse.value, o)] else [])
    else []
  }

  function ChildSources(p: Program, o: Options): seq<Generated>
    decreases p, 0
  {
    match p
    case End => []
    case Statements(first, rest) => StatementSources(first, o) + ChildSources(rest, o)
  }

  // ---------- where compiling fails

  predicate ChildThrows(st: Statement, o: Options) {
    st.Block? &&
    ((st.program.Some? && ProgramThrows(st.program.value, o))
      || (st.inverse.Some? && ProgramThrows(st.inverse.value, o)))
  }

  predicate ChildrenThrow(p: Program, o: Options) {
    p.Statements? && (ChildThrows(p.first, o) || ChildrenThrow(p.rest, o))
  }

  lemma NamelessFails(s: Sexpr, program: Option<nat>, inverse: Option<nat>, m: Machine, o: Options, env: Environment)
    requires Nameless(s, o)
    ensures RunOps(BlockOps(s, program, inverse, o), m, env).None?
  {
    var tail := Both(Do(BlockValue(None)), Do(Append));
    assert forall m1 :: RunOps(tail, m1, env).None?;
    assert forall m1 :: RunOps(Both(BlockArgsOps(program, inverse), tail), m1, env).None?;
  }

  lemma {:induction false} NamelessStops(p: Program, guid: nat, m: Machine, o: Options, env: Environment)
    requires !ProgramRejected(p, o) && ProgramThrows(p, o) && !ChildrenThrow(p, o)
    requires Clean(m) && env.compat == o.compat
    ensures RunOps(ProgramOps(p, guid, o), m, env).None?
  {
    var first := p.first;
    if StatementThrows(first, o) {
      NamelessFails(first.sexpr, Child(first.program, guid), Child(first.inverse, InverseGuid(first, guid)), m, o, env);
    } else {
      StatementProduces(first, guid, m, o, env);
      NamelessStops(p.rest, NextGuid(first, guid), RunOps(StatementOps(first, guid, o), m, env).value, o, env);
    }
  }

  lemma {:induction false} GenerateConcat(a: seq<Compiled>, b: seq<Compiled>, compat: bool)
    ensures GenerateAll(a + b, compat) ==
      if GenerateAll(a, compat).None? || GenerateAll(b, compat).None? then None
      else Some(GenerateAll(a, compat).value + GenerateAll(b, compat).value)
    decreases |a|
  {
    if a == [] {
      assert a + b == b;
      var others := GenerateAll(b, compat);
      assert others.Some? ==> [] + others.value == others.value;
    } else {
      assert (a + b)[1..] == a[1..] + b;
      GenerateConcat(a[1..], b, compat);
      var first, rest, others := Generate(a[0], compat), GenerateAll(a[1..], compat), GenerateAll(b, compat);
      if first.Some? && rest.Some? && others.Some? {
        assert [first.value] + (rest.value + others.value) == ([first.value] + rest.value) + others.value;
      }
    }
  }

  lemma GenerateSingle(c: Compiled, compat: bool)
    ensures GenerateAll([c], compat) == if Generate(c, compat).None? then None else Some([Generate(c, compat).value])
  {
    assert [c][1..] == [];
    var r := Generate(c, compat);
    assert r.Some? ==> [r.value] + [] == [r.value];
  }

  lemma {:induction false} StatementChildrenCompile(st: Statement, o: Options)
    requires !StatementRejected(st, o)
    ensures GenerateAll(StatementChildren(st, o), o.compat)
         == if ChildThrows(st, o) then None else Some(StatementSources(st, o))
    decreases st
  {
    if st.Block? {
      var a := if st.program.Some? then [CompiledProgram(st.program.value, o)] else [];
      var b := if st.inverse.Some? then [CompiledProgram(st.inverse.value, o)] else [];
      GenerateConcat(a, b, o.compat);
      if st.program.Some? {
        CompilesExactly(st.program.value, o);
        GenerateSingle(a[0], o.compat);
      }
      if st.inverse.Some? {
        CompilesExactly(st.inverse.value, o);
        GenerateSingle(b[0], o.compat);
      }
    }
  }

  lemma {:induction false} ChildrenCompile(p: Program, o: Options)
    requires !ProgramRejected(p, o)
    ensures GenerateAll(ChildrenOf(p, o), o.compat) == if ChildrenThrow(p, o) then None else Some(ChildSources(p, o))
    decreases p, 0
  {
    if p.Statements? {
      StatementChildrenCompile(p.first, o);
      ChildrenCompile(p.rest, o);
      GenerateConcat(StatementChildren(p.first, o), ChildrenOf(p.rest, o), o.compat);
    }
  }

  lemma {:induction false} ChildrenThrowWithin(p: Program, o: Options)
    requires ChildrenThrow(p, o)
    ensures ProgramThrows(p, o)
  {
    if !ChildThrows(p.first, o) { ChildrenThrowWithin(p.rest, o); }
  }

  /** The second pass throws exactly on the templates that have a nameless
      block, in the program itself or in a child of any depth; on all others it
      never pops an empty stack, never leaves anything on one, and generates
      the source read off the template, for every program in it. */
  lemma {:induction false} CompilesExactly(p: Program, o: Options)
    requires !ProgramRejected(p, o)
    ensures Generate(CompiledProgram(p, o), o.compat) == if ProgramThrows(p, o) then None else Some(ProgramSource(p, o))
    decreases p, 1
  {
    ChildrenCompile(p, o);
    var env := Environment(o.compat, Length(p) == 1);
    if ChildrenThrow(p, o) {
      ChildrenThrowWithin(p, o);
    } else if ProgramThrows(p, o) {
      NamelessStops(p, 0, Initial, o, env);
      RunFlattened(ProgramOps(p, 0, o), Initial, env);
    } else {
      TemplateCompiles(p, o, Length(p) == 1);
    }
  }

  /** One block on a data path, as no parsed template has it but a tree passed
      in may: the first pass takes it and the second throws. */
  lemma NamelessBlockThrows(name: string, o: Options)
    ensures var p := Statements(Block(Sexpr(Data([name], 0), NoParams, None, false, false), Some(End), None), End);
      !ProgramRejected(p, o) && Generate(CompiledProgram(p, o), o.compat).None?
  {
    var sexpr := Sexpr(Data([name], 0), NoParams, None, false, false);
    var p := Statements(Block(sexpr, Some(End), None), End);
    assert Nameless(sexpr, o) && !SexprThrows(sexpr, o) && !ProgramRejected(End, o);
    assert !StatementRejected(p.first, o);
    CompilesExactly(p, o);
  }

  lemma {:induction false} RejectedThrows(p: Program, o: Options)
    requires ProgramRejected(p, o)
    ensures ProgramThrows(p, o)
    decreases p
  {
    var first := p.first;
    if StatementRejected(first, o) {
      if first.Block? {
        if first.program.Some? && ProgramRejected(first.program.value, o) { RejectedThrows(first.program.value, o); }
        if first.inverse.Some? && ProgramRejected(first.inverse.value, o) { RejectedThrows(first.inverse.value, o); }
      }
    } else {
      RejectedThrows(p.rest, o);
    }
  }
}
