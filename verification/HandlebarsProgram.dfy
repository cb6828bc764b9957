/** Whole templates: the source the two passes generate, and the empty stacks
    they end with. */
module HandlebarsProgram {
  import opened Handlebars
  import opened HandlebarsCorrect
  import opened HandlebarsMachine
  import opened Prelude

  /** Source generated so far, and text not yet written to it. */
  datatype Output = Output(pending: Option<string>, source: seq<Line>)

  function OutputOf(m: Machine): Output { Output(m.pending, m.source) }

  function Emit(out: Output, line: Line): Output {
    Output(None, (if out.pending.Some? then out.source + [BufferText(out.pending.value)] else out.source) + [line])
  }

  /** A value appended unescaped: through the first stack variable, if it is not null. */
  function EmitAppend(out: Output, code: Code, isSimple: bool): Output {
    EmitUse(Emit(out, AssignLine(1, code)), isSimple)
  }

  function EmitUse(out: Output, isSimple: bool): Output {
    var used := Emit(out, IfNotNull(StackVar(1)));
    if isSimple then Emit(used, ElseEmpty) else used
  }

  function EmptyOptions(name: string, program: Option<nat>, inverse: Option<nat>): CallOptions {
    CallOptions(name, EmptyObject, ProgramEntry(program).code, ProgramEntry(inverse).code)
  }

  function BlockOutput(s: Sexpr, program: Option<nat>, inverse: Option<nat>, out: Output, o: Options,
                       isSimple: bool): Output {
    var code := CallTree(s, program, inverse, 0, o);
    match Classify(s, o)
    case Helper => EmitAppend(out, code, isSimple)
    case Simple => EmitAppend(out, BlockHelperMissing(code, EmptyOptions(Original(s.id), program, inverse)), isSimple)
    case Ambiguous =>
      EmitUse(Emit(Emit(out, AssignLine(1, code)),
                   UnlessHelper(Head(s.id.parts), StackVar(1), EmptyOptions("", program, inverse))), isSimple)
  }

  /** The source of one statement, read off the template. */
  function StatementOutput(st: Statement, guid: nat, out: Output, o: Options, isSimple: bool): Output {
    match st
    case Mustache(sexpr, escaped) =>
      var code := CallTree(sexpr, None, None, 0, o);
      if escaped && !o.noEscape then Emit(out, BufferEscaped(code)) else EmitAppend(out, code, isSimple)
    case Block(sexpr, program, inverse) =>
      BlockOutput(sexpr, Child(program, guid), Child(inverse, InverseGuid(st, guid)), out, o, isSimple)
    case Partial(name, indent, context, hash) =>
      EmitAppend(out, PartialCall(name, indent,
        if context.Some? then ParamEntry(context.value, 0, o).code else ContextName(0),
        if hash.Some? then HashObject(HashValues(hash.value, 0, o)) else Undefined), isSimple)
    case Content(text) =>
      if text == "" then out
      else out.(pending := Some(if out.pending.Some? then out.pending.value + text else text))
    case Comment => out
  }

  function ProgramOutput(p: Program, guid: nat, out: Output, o: Options, isSimple: bool): Output {
    match p
    case End => out
    case Statements(first, rest) =>
      ProgramOutput(rest, NextGuid(first, guid), StatementOutput(first, guid, out, o, isSimple), o, isSimple)
  }

  // ---------- statements on the machine

  /** Nothing on either half of the stack, no variable in use, no hash being built. */
  ghost predicate Clean(m: Machine) {
    m.inlineStack == m.compileStack == [] && m.stackSlot == 0 && m.hash.None? && m.hashes == []
  }

  ghost predicate Produces(ops: Ops, m: Machine, env: Environment, out: Output) {
    RunOps(ops, m, env).Some? && Clean(RunOps(ops, m, env).value) && OutputOf(RunOps(ops, m, env).value) == out
  }

  /** The machine `m` with just one entry on its inline stack. */
  ghost predicate Holding(m: Machine, m1: Machine, e: Entry) {
    Clean(m) && Pushed(m, m1, [e])
  }

  lemma SpillOne(m1: Machine, e: Entry)
    requires m1.inlineStack == [e]
    ensures FlushInline(m1) == Spill(m1.(inlineStack := []), e)
  {
    assert SpillAll(m1.(inlineStack := []), []) == m1.(inlineStack := []);
    assert [e][..0] == [];
  }

  lemma AppendProduces(m: Machine, m1: Machine, code: Code, env: Environment)
    requires Holding(m, m1, Plain(code))
    ensures Produces(Do(Append), m1, env, EmitAppend(OutputOf(m), code, env.isSimple))
  {
    SpillOne(m1, Plain(code));
  }

  lemma AppendEscapedProduces(m: Machine, m1: Machine, code: Code, env: Environment)
    requires Holding(m, m1, Plain(code))
    ensures Produces(Do(AppendEscaped), m1, env, Emit(OutputOf(m), BufferEscaped(code)))
  {
    PopInline(m1, [], Plain(code));
  }

  lemma Sequenced(a: Ops, b: Ops, m: Machine, env: Environment, out: Output)
    requires RunOps(a, m, env).Some? && Produces(b, RunOps(a, m, env).value, env, out)
    ensures Produces(Both(a, b), m, env, out)
  {
  }

  lemma BlockArgsPush(program: Option<nat>, inverse: Option<nat>, m: Machine, env: Environment)
    ensures RunOps(BlockArgsOps(program, inverse), m, env)
         == Some(m.(inlineStack :=
              m.inlineStack + [ProgramEntry(program), ProgramEntry(inverse), Wrapped(EmptyObject)]))
  {
    var p, i, h := ProgramEntry(program), ProgramEntry(inverse), Wrapped(EmptyObject);
    RunBoth(Do(PushProgram(program)), Both(Do(PushProgram(inverse)), Do(EmptyHash)), m, env, Push(m, p));
    RunBoth(Do(PushProgram(inverse)), Do(EmptyHash), Push(m, p), env, Push(Push(m, p), i));
    assert m.inlineStack + [p] + [i] + [h] == m.inlineStack + [p, i, h];
  }

  lemma BlockValueHolds(m: Machine, m1: Machine, m2: Machine, code: Code,
                        program: Option<nat>, inverse: Option<nat>, name: string, env: Environment)
    requires Holding(m, m1, Plain(code))
    requires m2 == m1.(inlineStack :=
      m1.inlineStack + [ProgramEntry(program), ProgramEntry(inverse), Wrapped(EmptyObject)])
    ensures var end := Exec(BlockValue(Some(name)), m2, env);
            end.Some? && Holding(m, end.value, Plain(BlockHelperMissing(code, EmptyOptions(name, program, inverse))))
  {
    var p, i, h := ProgramEntry(program), ProgramEntry(inverse), Wrapped(EmptyObject);
    assert m2.inlineStack == m1.inlineStack + ([] + [p, i, h]);
    SetsUp(m2, m1.inlineStack, [], p, i, h, name);
    PopInline(m2.(inlineStack := m1.inlineStack), [], Plain(code));
  }

  lemma BlockValueProduces(m: Machine, m1: Machine, code: Code,
                           program: Option<nat>, inverse: Option<nat>, name: string, env: Environment)
    requires Holding(m, m1, Plain(code))
    ensures Produces(Both(BlockArgsOps(program, inverse), Both(Do(BlockValue(Some(name))), Do(Append))), m1, env,
              EmitAppend(OutputOf(m), BlockHelperMissing(code, EmptyOptions(name, program, inverse)), env.isSimple))
  {
    BlockArgsPush(program, inverse, m1, env);
    var m2 := RunOps(BlockArgsOps(program, inverse), m1, env).value;
    BlockValueHolds(m, m1, m2, code, program, inverse, name, env);
    var m3 := Exec(BlockValue(Some(name)), m2, env).value;
    var call := BlockHelperMissing(code, EmptyOptions(name, program, inverse));
    AppendProduces(m, m3, call, env);
    var out := EmitAppend(OutputOf(m), call, env.isSimple);
    Sequenced(Do(BlockValue(Some(name))), Do(Append), m2, env, out);
    Sequenced(BlockArgsOps(program, inverse), Both(Do(BlockValue(Some(name))), Do(Append)), m1, env, out);
  }

  /** One value spilled into the first variable, and nothing else. */
  ghost predicate Spilled(m: Machine) {
    && m.inlineStack == [] && m.compileStack == [Plain(StackVar(1))] && m.stackSlot == 1
    && m.hash.None? && m.hashes == []
  }

  lemma AppendSpilled(m: Machine, env: Environment)
    requires Spilled(m)
    ensures Produces(Do(Append), m, env, EmitUse(OutputOf(m), env.isSimple))
  {
    assert FlushInline(m) == m;
  }

  lemma GuardSpills(m: Machine, m1: Machine, m2: Machine, code: Code, program: Option<nat>, inverse: Option<nat>,
                    env: Environment)
    requires Holding(m, m1, Plain(code))
    requires m2 == m1.(inlineStack :=
      m1.inlineStack + [ProgramEntry(program), ProgramEntry(inverse), Wrapped(EmptyObject)])
    ensures Exec(AmbiguousBlockValue, m2, env).Some? && Spilled(Exec(AmbiguousBlockValue, m2, env).value)
    ensures OutputOf(Exec(AmbiguousBlockValue, m2, env).value)
         == Emit(Emit(OutputOf(m), AssignLine(1, code)),
           UnlessHelper(m1.lastHelper, StackVar(1), EmptyOptions("", program, inverse)))
  {
    var p, i, h := ProgramEntry(program), ProgramEntry(inverse), Wrapped(EmptyObject);
    assert m2.inlineStack == m1.inlineStack + ([] + [p, i, h]);
    SetsUp(m2, m1.inlineStack, [], p, i, h, "");
    SpillOne(m2.(inlineStack := m1.inlineStack, registers := m2.registers + {"options"}), Plain(code));
  }

  lemma AmbiguousBlockProduces(m: Machine, m1: Machine, code: Code, program: Option<nat>, inverse: Option<nat>,
                               env: Environment)
    requires Holding(m, m1, Plain(code))
    ensures Produces(Both(BlockArgsOps(program, inverse), Both(Do(AmbiguousBlockValue), Do(Append))), m1, env,
              EmitUse(Emit(Emit(OutputOf(m), AssignLine(1, code)),
                           UnlessHelper(m1.lastHelper, StackVar(1), EmptyOptions("", program, inverse))), env.isSimple))
  {
    BlockArgsPush(program, inverse, m1, env);
    var m2 := RunOps(BlockArgsOps(program, inverse), m1, env).value;
    GuardSpills(m, m1, m2, code, program, inverse, env);
    var m3 := Exec(AmbiguousBlockValue, m2, env).value;
    AppendSpilled(m3, env);
    var out := EmitUse(OutputOf(m3), env.isSimple);
    Sequenced(Do(AmbiguousBlockValue), Do(Append), m2, env, out);
    Sequenced(BlockArgsOps(program, inverse), Both(Do(AmbiguousBlockValue), Do(Append)), m1, env, out);
  }

  lemma HelperBlockProduces(s: Sexpr, program: Option<nat>, inverse: Option<nat>, m: Machine, o: Options,
                            env: Environment)
    requires !SexprThrows(s, o) && env.compat == o.compat && Clean(m) && Classify(s, o) == Helper
    ensures Produces(BlockOps(s, program, inverse, o), m, env,
      BlockOutput(s, program, inverse, OutputOf(m), o, env.isSimple))
  {
    HelperPushes(s, program, inverse, m, o, env);
    AppendProduces(m, RunOps(HelperOps(s, program, inverse, o), m, env).value,
                   CallTree(s, program, inverse, 0, o), env);
  }

  lemma BlockProduces(s: Sexpr, program: Option<nat>, inverse: Option<nat>, m: Machine, o: Options, env: Environment)
    requires !SexprThrows(s, o) && !Nameless(s, o)
    requires env.compat == o.compat && Clean(m)
    ensures Produces(BlockOps(s, program, inverse, o), m, env,
      BlockOutput(s, program, inverse, OutputOf(m), o, env.isSimple))
  {
    var code, out := CallTree(s, program, inverse, 0, o),
      BlockOutput(s, program, inverse, OutputOf(m), o, env.isSimple);
    match Classify(s, o)
    case Helper => HelperBlockProduces(s, program, inverse, m, o, env);
    case Simple =>
      SimplePushes(s.id, m, o, env);
      var m1 := RunOps(SimpleOps(s.id), m, env).value;
      BlockValueProduces(m, m1, code, program, inverse, Original(s.id), env);
      Sequenced(SimpleOps(s.id),
        Both(BlockArgsOps(program, inverse), Both(Do(BlockValue(Some(s.id.original))), Do(Append))), m, env, out);
    case Ambiguous =>
      AmbiguousPushes(s, program, inverse, m, o, env);
      var m1 := RunOps(AmbiguousOps(s, program, inverse), m, env).value;
      AmbiguousBlockProduces(m, m1, code, program, inverse, env);
      Sequenced(AmbiguousOps(s, program, inverse),
        Both(BlockArgsOps(program, inverse), Both(Do(AmbiguousBlockValue), Do(Append))), m, env, out);
  }

  lemma MustacheProduces(s: Sexpr, escape: bool, m: Machine, o: Options, env: Environment)
    requires !SexprThrows(s, o) && env.compat == o.compat && Clean(m)
    ensures Produces(Both(SexprOps(s, None, None, o), Do(if escape then AppendEscaped else Append)), m, env,
              var code := CallTree(s, None, None, 0, o);
              if escape then Emit(OutputOf(m), BufferEscaped(code)) else EmitAppend(OutputOf(m), code, env.isSimple))
  {
    SexprPushes(s, None, None, m, o, env);
    var m1 := RunOps(SexprOps(s, None, None, o), m, env).value;
    var code := CallTree(s, None, None, 0, o);
    if escape { AppendEscapedProduces(m, m1, code, env); } else { AppendProduces(m, m1, code, env); }
  }

  lemma PartialProduces(name: string, indent: string, context: Option<Param>, hash: Option<Pairs>,
                        m: Machine, o: Options, env: Environment)
    requires (context.Some? ==> !ParamThrows(context.value, o)) && (hash.Some? ==> !PairsThrow(hash.value, o))
    requires env.compat == o.compat && Clean(m)
    ensures Produces(PartialOps(name, indent, context, hash, o), m, env,
              EmitAppend(OutputOf(m), PartialCall(name, indent,
                if context.Some? then ParamEntry(context.value, 0, o).code else ContextName(0),
                if hash.Some? then HashObject(HashValues(hash.value, 0, o)) else Undefined), env.isSimple))
  {
    var h := if hash.Some? then Plain(HashObject(HashValues(hash.value, 0, o))) else Plain(Undefined);
    var c := if context.Some? then ParamEntry(context.value, 0, o) else Wrapped(ContextName(0));
    var hashOps := if hash.Some? then HashOps(hash.value, o) else Do(PushUndefined);
    var contextOps := if context.Some? then ParamOps(context.value, o) else Both(Do(GetContext(0)), Do(PushContext));
    if hash.Some? { HashPushes(hash.value, m, o, env); }
    assert Pushes(hashOps, m, env, [h]);
    var m1 := RunOps(hashOps, m, env).value;
    if context.Some? { ParamPushes(context.value, m1, o, env); }
    assert Pushes(contextOps, m1, env, [c]);
    var m2 := RunOps(contextOps, m1, env).value;
    PartialCallProduces(name, indent, m, m2, h, c, env);
    var rest := Both(Do(InvokePartial(name, indent)), Do(Append));
    var out := EmitAppend(OutputOf(m), PartialCall(name, indent, c.code, h.code), env.isSimple);
    Sequenced(contextOps, rest, m1, env, out);
    Sequenced(hashOps, Both(contextOps, rest), m, env, out);
  }

  lemma PartialCallProduces(name: string, indent: string, m: Machine, m2: Machine, h: Entry, c: Entry, env: Environment)
    requires Clean(m) && Pushed(m, m2, [h] + [c])
    ensures Produces(Both(Do(InvokePartial(name, indent)), Do(Append)), m2, env,
              EmitAppend(OutputOf(m), PartialCall(name, indent, c.code, h.code), env.isSimple))
  {
    PopInline(m2, [h], c);
    PopInline(m2.(inlineStack := [h]), [], h);
    var call := PartialCall(name, indent, c.code, h.code);
    var m3 := Exec(InvokePartial(name, indent), m2, env).value;
    assert Holding(m, m3, Plain(call));
    AppendProduces(m, m3, call, env);
    Sequenced(Do(InvokePartial(name, indent)), Do(Append), m2, env, EmitAppend(OutputOf(m), call, env.isSimple));
  }

  lemma StatementProduces(st: Statement, guid: nat, m: Machine, o: Options, env: Environment)
    requires !StatementThrows(st, o) && env.compat == o.compat && Clean(m)
    ensures Produces(StatementOps(st, guid, o), m, env, StatementOutput(st, guid, OutputOf(m), o, env.isSimple))
  {
    match st
    case Mustache(sexpr, escaped) => MustacheProduces(sexpr, escaped && !o.noEscape, m, o, env);
    case Block(sexpr, program, inverse) =>
      BlockProduces(sexpr, Child(program, guid), Child(inverse, InverseGuid(st, guid)), m, o, env);
    case Partial(name, indent, context, hash) => PartialProduces(name, indent, context, hash, m, o, env);
    case Content(_) =>
    case Comment =>
  }

  lemma {:induction false} ProgramProduces(p: Program, guid: nat, m: Machine, o: Options, env: Environment)
    requires !ProgramThrows(p, o) && env.compat == o.compat && Clean(m)
    ensures Produces(ProgramOps(p, guid, o), m, env, ProgramOutput(p, guid, OutputOf(m), o, env.isSimple))
  {
    match p
    case End =>
    case Statements(first, rest) =>
      StatementProduces(first, guid, m, o, env);
      var m1 := RunOps(StatementOps(first, guid, o), m, env).value;
      ProgramProduces(rest, NextGuid(first, guid), m1, o, env);
      Sequenced(StatementOps(first, guid, o), ProgramOps(rest, NextGuid(first, guid), o), m, env,
        ProgramOutput(p, guid, OutputOf(m), o, env.isSimple));
  }

  /** "Compile completed with content left on stack" */
  predicate ContentLeft(m: Machine) {
    m.stackSlot != 0 || m.inlineStack != [] || m.compileStack != []
  }

  /** Every template whose compilation does not throw on a helper: running its
      opcodes from the start never pops an empty stack or replaces a missing top,
      ends with nothing left on either stack, and generates exactly the source
      read off the template. */
  lemma TemplateCompiles(p: Program, o: Options, isSimple: bool)
    requires !ProgramThrows(p, o)
    ensures var end := Run(Flatten(ProgramOps(p, 0, o)), Initial, Environment(o.compat, isSimple));
            && end.Some? && !ContentLeft(end.value)
            && OutputOf(end.value) == ProgramOutput(p, 0, Output(None, []), o, isSimple)
  {
    var env := Environment(o.compat, isSimple);
    ProgramProduces(p, 0, Initial, o, env);
    RunFlattened(ProgramOps(p, 0, o), Initial, env);
  }
}
