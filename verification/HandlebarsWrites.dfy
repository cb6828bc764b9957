/** What a program writes: one opcode for each of its statements that is not silent. */
module HandlebarsWrites {
  import opened Handlebars
  import opened HandlebarsSharing
  import opened Prelude

  // ---------- one write for each statement

  predicate IsWrite(op: Opcode) {
    op.Append? || op.AppendEscaped? || op.AppendContent?
  }

  function Writes(ops: Ops): nat {
    match ops
    case Nothing => 0
    case Do(op) => if IsWrite(op) then 1 else 0
    case Both(first, second) => Writes(first) + Writes(second)
  }

  lemma WritesParts()
    ensures forall a, b :: Writes(Both(a, b)) == Writes(a) + Writes(b)
    ensures forall op :: Writes(Do(op)) == if IsWrite(op) then 1 else 0
  {
  }

  function WritesIn(opcodes: seq<Opcode>): nat {
    if opcodes == [] then 0 else (if IsWrite(opcodes[0]) then 1 else 0) + WritesIn(opcodes[1..])
  }

  lemma {:induction false} WritesInBoth(a: seq<Opcode>, b: seq<Opcode>)
    ensures WritesIn(a + b) == WritesIn(a) + WritesIn(b)
    decreases |a|
  {
    if a == [] {
      assert a + b == b;
    } else {
      assert (a + b)[1..] == a[1..] + b;
      WritesInBoth(a[1..], b);
    }
  }

  lemma {:induction false} WritesFlattened(ops: Ops)
    ensures WritesIn(Flatten(ops)) == Writes(ops)
  {
    match ops
    case Nothing =>
    case Do(op) => assert [op][1..] == [];
    case Both(first, second) =>
      WritesFlattened(first);
      WritesFlattened(second);
      WritesInBoth(Flatten(first), Flatten(second));
  }

  lemma IdWritesNothing(id: Id, falsy: bool)
    ensures Writes(IdOps(id, falsy)) == 0 && Writes(SimpleOps(id)) == 0
  {
    WritesParts();
  }

  lemma SetupWritesNothing(s: Sexpr, program: Option<nat>, inverse: Option<nat>, o: Options)
    requires Writes(ParamsOps(s.params, o)) == 0 && (s.hash.Some? ==> Writes(HashOps(s.hash.value, o)) == 0)
    ensures Writes(SetupOps(s, program, inverse, o)) == 0
  {
    WritesParts();
  }

  lemma CallWritesNothing(s: Sexpr, program: Option<nat>, inverse: Option<nat>, o: Options)
    requires Writes(SetupOps(s, program, inverse, o)) == 0
    ensures Writes(HelperOps(s, program, inverse, o)) == 0
  {
    WritesParts();
    IdWritesNothing(s.id, true);
  }

  lemma AmbiguousWritesNothing(s: Sexpr, program: Option<nat>, inverse: Option<nat>)
    ensures Writes(AmbiguousOps(s, program, inverse)) == 0
  {
    WritesParts();
    IdWritesNothing(s.id, false);
  }

  lemma {:induction false} SexprWritesNothing(s: Sexpr, program: Option<nat>, inverse: Option<nat>, o: Options)
    ensures Writes(SexprOps(s, program, inverse, o)) == 0 && Writes(HelperOps(s, program, inverse, o)) == 0
    decreases s
  {
    ParamsWriteNothing(s.params, o);
    if s.hash.Some? { PairsWriteNothing(s.hash.value, o); }
    SetupWritesNothing(s, program, inverse, o);
    CallWritesNothing(s, program, inverse, o);
    AmbiguousWritesNothing(s, program, inverse);
    IdWritesNothing(s.id, false);
  }

  lemma {:induction false} ParamWritesNothing(p: Param, o: Options)
    ensures Writes(ParamOps(p, o)) == 0
    decreases p
  {
    if p.IdParam? { IdWritesNothing(p.id, false); }
    if p.SubExpression? { SexprWritesNothing(p.sexpr, None, None, o); }
  }

  lemma {:induction false} ParamsWriteNothing(ps: Params, o: Options)
    ensures Writes(ParamsOps(ps, o)) == 0
    decreases ps
  {
    if ps.Params? {
      ParamWritesNothing(ps.first, o);
      ParamsWriteNothing(ps.rest, o);
    }
  }

  lemma {:induction false} PairsWriteNothing(pairs: Pairs, o: Options)
    ensures Writes(PairValuesOps(pairs, o)) == 0 && Writes(AssignOps(pairs)) == 0 && Writes(HashOps(pairs, o)) == 0
    decreases pairs
  {
    WritesParts();
    if pairs.Pairs? {
      ParamWritesNothing(pairs.value, o);
      PairsWriteNothing(pairs.rest, o);
    }
  }

  /** Comments, and content that has been stripped to nothing. */
  predicate Silent(st: Statement) {
    st.Comment? || (st.Content? && st.text == "")
  }

  lemma BlockWritesOnce(s: Sexpr, program: Option<nat>, inverse: Option<nat>, o: Options)
    ensures Writes(BlockOps(s, program, inverse, o)) == 1
  {
    WritesParts();
    SexprWritesNothing(s, program, inverse, o);
    AmbiguousWritesNothing(s, program, inverse);
    IdWritesNothing(s.id, false);
    assert Writes(BlockArgsOps(program, inverse)) == 0;
  }

  lemma PartialWritesOnce(name: string, indent: string, context: Option<Param>, hash: Option<Pairs>, o: Options)
    ensures Writes(PartialOps(name, indent, context, hash, o)) == 1
  {
    WritesParts();
    if context.Some? { ParamWritesNothing(context.value, o); }
    if hash.Some? { PairsWriteNothing(hash.value, o); }
  }

  lemma StatementWritesOnce(st: Statement, guid: nat, o: Options)
    ensures Writes(StatementOps(st, guid, o)) == if Silent(st) then 0 else 1
  {
    match st
    case Mustache(sexpr, _) => SexprWritesNothing(sexpr, None, None, o);
    case Block(sexpr, program, inverse) =>
      BlockWritesOnce(sexpr, Child(program, guid), Child(inverse, InverseGuid(st, guid)), o);
    case Partial(name, indent, context, hash) => PartialWritesOnce(name, indent, context, hash, o);
    case _ =>
  }

  predicate NoneSilent(p: Program) {
    p.Statements? ==> !Silent(p.first) && NoneSilent(p.rest)
  }

  lemma {:induction false} ProgramWrites(p: Program, guid: nat, o: Options)
    requires NoneSilent(p)
    ensures Writes(ProgramOps(p, guid, o)) == Length(p)
  {
    if p.Statements? {
      StatementWritesOnce(p.first, guid, o);
      ProgramWrites(p.rest, NextGuid(p.first, guid), o);
    }
  }

  // ---------- no silent statement anywhere

  predicate Full(p: Program)
    decreases p
  {
    p.Statements? ==> !Silent(p.first) && FullWithin(p.first) && Full(p.rest)
  }

  predicate FullWithin(st: Statement)
    decreases st
  {
    st.Block? ==>
      (st.program.Some? ==> Full(st.program.value)) && (st.inverse.Some? ==> Full(st.inverse.value))
  }

  lemma {:induction false} FullIsNotSilent(p: Program)
    requires Full(p)
    ensures NoneSilent(p)
  {
    if p.Statements? { FullIsNotSilent(p.rest); }
  }

  /** What a program compiled from a template without silent statements looks like. */
  ghost predicate Counted(c: Compiled) {
    c.isSimple <==> WritesIn(c.opcodes) == 1
  }

  lemma FullIsCounted(p: Program, o: Options)
    requires Full(p)
    ensures Counted(CompiledProgram(p, o))
  {
    FullIsNotSilent(p);
    ProgramWrites(p, 0, o);
    WritesFlattened(ProgramOps(p, 0, o));
  }

  lemma {:induction false} AllCounted(p: Program, o: Options, a: Compiled)
    requires Full(p) && Among(a, ChildrenOf(p, o))
    ensures Counted(a)
    decreases p, 0
  {
    var here, later := StatementChildren(p.first, o), ChildrenOf(p.rest, o);
    var k :| 0 <= k < |here + later| && (a == (here + later)[k] || Within(a, (here + later)[k]));
    if k < |here| {
      StatementCounted(p.first, o, a, k);
    } else {
      assert (here + later)[k] == later[k - |here|];
      AllCounted(p.rest, o, a);
    }
  }

  lemma {:induction false} StatementCounted(st: Statement, o: Options, a: Compiled, k: nat)
    requires FullWithin(st) && k < |StatementChildren(st, o)|
    requires a == StatementChildren(st, o)[k] || Within(a, StatementChildren(st, o)[k])
    ensures Counted(a)
    decreases st
  {
    if k == 0 && st.program.Some? {
      ChildCounted(st.program.value, o, a);
    } else {
      ChildCounted(st.inverse.value, o, a);
    }
  }

  lemma {:induction false} ChildCounted(p: Program, o: Options, a: Compiled)
    requires Full(p) && (a == CompiledProgram(p, o) || Within(a, CompiledProgram(p, o)))
    ensures Counted(a)
    decreases p, 1
  {
    if a == CompiledProgram(p, o) {
      FullIsCounted(p, o);
    } else {
      assert Among(a, ChildrenOf(p, o));
      AllCounted(p, o, a);
    }
  }
}
