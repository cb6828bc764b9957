/** Emitting opcodes and running them on the split stack, against code read
    directly off the template. */
module HandlebarsCorrect {
  import opened Handlebars
  import opened HandlebarsMachine
  import opened Prelude

  // ---------- code read off the template

  function AccessEntry(e: Entry, slot: nat, name: string, falsy: bool): Entry {
    if e.Wrapped? then Plain(Access(e.code, e.code, name, falsy))
    else Plain(Access(Assign(ChainSlot(slot), e.code), StackVar(ChainSlot(slot)), name, falsy))
  }

  function Chain(e: Entry, parts: seq<string>, slot: nat, falsy: bool): Entry {
    if parts == [] then e else AccessEntry(Chain(e, parts[..|parts| - 1], slot, falsy), slot, parts[|parts| - 1], falsy)
  }

  /** A path: a chain of accesses from its context, or from a search through the contexts. */
  function IdEntry(id: Id, slot: nat, falsy: bool, compat: bool): Entry {
    if id.Data? then Chain(Wrapped(DataName(id.depth)), id.parts, slot, true)
    else if NoName(id.parts) then Wrapped(ContextName(id.depth))
    else if id.isScoped || !compat || id.depth != 0 then
      Chain(Wrapped(ContextName(id.depth)), id.parts, slot, falsy)
    else Chain(Plain(Depthed(id.parts[0])), id.parts[1..], slot, falsy)
  }

  function ParamEntry(p: Param, slot: nat, o: Options): Entry
    decreases p
  {
    match p
    case IdParam(id) => IdEntry(id, slot, false, o.compat)
    case StringParam(text) => Wrapped(Quoted(text))
    case LiteralParam(text) => Wrapped(Literal(text))
    case SubExpression(sexpr) => Plain(CallTree(sexpr, None, None, slot, o))
  }

  /** The arguments in source order. */
  function ParamEntries(ps: Params, slot: nat, o: Options): seq<Entry>
    decreases ps
  {
    match ps
    case NoParams => []
    case Params(first, rest) => [ParamEntry(first, slot, o)] + ParamEntries(rest, slot, o)
  }

  function PairEntries(pairs: Pairs, slot: nat, o: Options): seq<Entry>
    decreases pairs, 0
  {
    match pairs
    case NoPairs => []
    case Pairs(_, value, rest) => [ParamEntry(value, slot, o)] + PairEntries(rest, slot, o)
  }

  /** The properties of a hash object: last pair first. */
  function HashValues(pairs: Pairs, slot: nat, o: Options): seq<(string, Code)>
    decreases pairs, 1
  {
    match pairs
    case NoPairs => []
    case Pairs(key, value, rest) => HashValues(rest, slot, o) + [(key, ParamEntry(value, slot, o).code)]
  }

  function Codes(entries: seq<Entry>): seq<Code> {
    seq(|entries|, i requires 0 <= i < |entries| => entries[i].code)
  }

  function ProgramEntry(child: Option<nat>): Entry {
    Wrapped(if child.Some? then ProgramRef(child.value) else Null)
  }

  function HashEntry(hash: Option<Pairs>, slot: nat, o: Options): Entry
    decreases hash
  {
    match hash
    case None => Wrapped(EmptyObject)
    case Some(pairs) => Plain(HashObject(HashValues(pairs, slot, o)))
  }

  function OptionsOf(s: Sexpr, name: string, program: Option<nat>, inverse: Option<nat>, slot: nat,
                     o: Options): CallOptions
    decreases s, 0
  {
    CallOptions(name, HashEntry(s.hash, slot, o).code, ProgramEntry(program).code, ProgramEntry(inverse).code)
  }

  /** The call tree of an S-expression. */
  function CallTree(s: Sexpr, program: Option<nat>, inverse: Option<nat>, slot: nat, o: Options): Code
    decreases s, 1
  {
    match Classify(s, o)
    case Simple => Lambda(IdEntry(s.id, slot, false, o.compat).code)
    case Ambiguous =>
      AmbiguousCall(Head(s.id.parts), program.Some? || inverse.Some?, IdEntry(s.id, slot, false, o.compat).code,
        CallOptions(Head(s.id.parts), EmptyObject, ProgramEntry(program).code, ProgramEntry(inverse).code))
    case Helper =>
      var args := Codes(ParamEntries(s.params, slot, o));
      if Head(s.id.parts) in o.knownHelpers then
        KnownHelperCall(Head(s.id.parts), args, OptionsOf(s, Head(s.id.parts), program, inverse, slot, o))
      else
        HelperCall(Original(s.id), s.id.Path? && s.id.isSimple, IdEntry(s.id, slot, true, o.compat).code, args,
          OptionsOf(s, Original(s.id), program, inverse, slot, o))
  }

  // ---------- what running opcodes does to the stack

  /** `after` is `before` with some entries on top of the inline stack: what lies
      beneath, the hash being built and those waiting, and the source are the same. */
  ghost predicate Pushed(before: Machine, after: Machine, entries: seq<Entry>) {
    after == before.(inlineStack := before.inlineStack + entries, stackVars := after.stackVars,
                     lastContext := after.lastContext, lastHelper := after.lastHelper, registers := after.registers)
  }

  ghost predicate Pushes(ops: Ops, m: Machine, env: Environment, entries: seq<Entry>) {
    RunOps(ops, m, env).Some? && Pushed(m, RunOps(ops, m, env).value, entries)
  }

  lemma RunBoth(a: Ops, b: Ops, m: Machine, env: Environment, m1: Machine)
    requires RunOps(a, m, env) == Some(m1)
    ensures RunOps(Both(a, b), m, env) == RunOps(b, m1, env)
  {
  }

  lemma PushedTwice(m: Machine, m1: Machine, m2: Machine, x: seq<Entry>, y: seq<Entry>)
    requires Pushed(m, m1, x) && Pushed(m1, m2, y)
    ensures Pushed(m, m2, x + y)
  {
    assert (m.inlineStack + x) + y == m.inlineStack + (x + y);
  }

  lemma BothPush(a: Ops, b: Ops, m: Machine, env: Environment, x: seq<Entry>, y: seq<Entry>)
    requires Pushes(a, m, env, x) && Pushes(b, RunOps(a, m, env).value, env, y)
    ensures Pushes(Both(a, b), m, env, x + y)
  {
    PushedTwice(m, RunOps(a, m, env).value, RunOps(b, RunOps(a, m, env).value, env).value, x, y);
  }

  /** A hash being built, or none and none waiting. */
  ghost predicate HashOk(m: Machine) {
    m.hash.None? ==> m.hashes == []
  }

  lemma {:induction false} ReplacesTop(m: Machine, e: Entry, below: seq<Entry>, parts: seq<string>, falsy: bool)
    requires m.inlineStack == below + [e]
    ensures ReplaceAll(m, parts, falsy).Some?
    ensures Pushed(m.(inlineStack := below), ReplaceAll(m, parts, falsy).value, [Chain(e, parts, m.stackSlot, falsy)])
    decreases |parts|
  {
    if parts != [] {
      ReplacesTop(m, e, below, parts[..|parts| - 1], falsy);
    }
  }

  lemma IdPushes(id: Id, falsy: bool, m: Machine, o: Options, env: Environment)
    requires id.Path? && env.compat == o.compat
    ensures Pushes(IdOps(id, falsy), m, env, [IdEntry(id, m.stackSlot, falsy, o.compat)])
  {
    var m1 := m.(lastContext := id.depth);
    if NoName(id.parts) {
      assert RunOps(IdOps(id, falsy), m, env) == Some(Push(m1, Wrapped(ContextName(id.depth))));
    } else if id.isScoped || !env.compat || id.depth != 0 {
      ReplacesTop(Push(m1, Wrapped(ContextName(id.depth))), Wrapped(ContextName(id.depth)),
                  m.inlineStack, id.parts, falsy);
    } else {
      ReplacesTop(Push(m1, Plain(Depthed(id.parts[0]))), Plain(Depthed(id.parts[0])),
                  m.inlineStack, id.parts[1..], falsy);
    }
  }

  lemma DataPushes(id: Id, m: Machine, o: Options, env: Environment)
    requires id.Data?
    ensures Pushes(Do(LookupData(id.depth, id.parts)), m, env, [IdEntry(id, m.stackSlot, false, o.compat)])
  {
    ReplacesTop(Push(m, Wrapped(DataName(id.depth))), Wrapped(DataName(id.depth)), m.inlineStack, id.parts, true);
  }

  lemma SimplePushes(id: Id, m: Machine, o: Options, env: Environment)
    requires env.compat == o.compat
    ensures Pushes(SimpleOps(id), m, env, [Plain(Lambda(IdEntry(id, m.stackSlot, false, o.compat).code))])
  {
    if id.Data? { DataPushes(id, m, o, env); } else { IdPushes(id, false, m, o, env); }
  }

  lemma OnePushes(op: Opcode, m: Machine, env: Environment, e: Entry)
    requires Exec(op, m, env) == Some(Push(m, e))
    ensures Pushes(Do(op), m, env, [e])
  {
  }

  lemma {:induction false} ParamPushes(p: Param, m: Machine, o: Options, env: Environment)
    requires !ParamThrows(p, o) && env.compat == o.compat && HashOk(m)
    ensures Pushes(ParamOps(p, o), m, env, [ParamEntry(p, m.stackSlot, o)])
    decreases p
  {
    match p
    case IdParam(id) => if id.Data? { DataPushes(id, m, o, env); } else { IdPushes(id, false, m, o, env); }
    case StringParam(text) =>
    case LiteralParam(text) =>
    case SubExpression(sexpr) => SexprPushes(sexpr, None, None, m, o, env);
  }

  lemma {:induction false} ParamsPush(ps: Params, m: Machine, o: Options, env: Environment)
    requires !ParamsThrow(ps, o) && env.compat == o.compat && HashOk(m)
    ensures Pushes(ParamsOps(ps, o), m, env, ParamEntries(ps, m.stackSlot, o))
    ensures |ParamEntries(ps, m.stackSlot, o)| == Count(ps)
    decreases ps
  {
    if ps.Params? {
      ParamPushes(ps.first, m, o, env);
      var m1 := RunOps(ParamOps(ps.first, o), m, env).value;
      ParamsPush(ps.rest, m1, o, env);
      BothPush(ParamOps(ps.first, o), ParamsOps(ps.rest, o), m, env,
        [ParamEntry(ps.first, m.stackSlot, o)], ParamEntries(ps.rest, m.stackSlot, o));
    }
  }

  lemma {:induction false} PairValuesPush(pairs: Pairs, m: Machine, o: Options, env: Environment)
    requires !PairsThrow(pairs, o) && env.compat == o.compat && HashOk(m)
    ensures Pushes(PairValuesOps(pairs, o), m, env, PairEntries(pairs, m.stackSlot, o))
    decreases pairs, 0
  {
    if pairs.Pairs? {
      ParamPushes(pairs.value, m, o, env);
      var m1 := RunOps(ParamOps(pairs.value, o), m, env).value;
      PairValuesPush(pairs.rest, m1, o, env);
      BothPush(ParamOps(pairs.value, o), PairValuesOps(pairs.rest, o), m, env,
        [ParamEntry(pairs.value, m.stackSlot, o)], PairEntries(pairs.rest, m.stackSlot, o));
    }
  }

  lemma PopInline(m: Machine, below: seq<Entry>, top: Entry)
    requires m.inlineStack == below + [top]
    ensures Pop(m) == Some((top.code, m.(inlineStack := below)))
  {
  }

  /** The assignments consume the values from the top and record them last pair first. */
  lemma {:induction false} AssignsAll(pairs: Pairs, m: Machine, below: seq<Entry>, slot: nat, o: Options,
                                      env: Environment)
    requires m.inlineStack == below + PairEntries(pairs, slot, o) && m.hash.Some?
    ensures RunOps(AssignOps(pairs), m, env)
         == Some(m.(inlineStack := below, hash := Some(m.hash.value + HashValues(pairs, slot, o))))
    decreases pairs
  {
    match pairs
    case NoPairs =>
      assert m.inlineStack == below;
      assert m.hash.value + [] == m.hash.value;
    case Pairs(key, value, rest) =>
      var e := ParamEntry(value, slot, o);
      assert m.inlineStack == (below + [e]) + PairEntries(rest, slot, o);
      AssignsAll(rest, m, below + [e], slot, o, env);
      var m1 := RunOps(AssignOps(rest), m, env).value;
      PopInline(m1, below, e);
      assert (m.hash.value + HashValues(rest, slot, o)) + [(key, e.code)] == m.hash.value + HashValues(pairs, slot, o);
  }

  lemma {:induction false} HashPushes(pairs: Pairs, m: Machine, o: Options, env: Environment)
    requires !PairsThrow(pairs, o) && env.compat == o.compat && HashOk(m)
    ensures Pushes(HashOps(pairs, o), m, env, [Plain(HashObject(HashValues(pairs, m.stackSlot, o)))])
    decreases pairs, 1
  {
    var m1 := Exec(PushHash, m, env).value;
    PairValuesPush(pairs, m1, o, env);
    var m2 := RunOps(PairValuesOps(pairs, o), m1, env).value;
    AssignsAll(pairs, m2, m.inlineStack, m.stackSlot, o, env);
    var m3 := RunOps(AssignOps(pairs), m2, env).value;
    assert m3.hash == Some(HashValues(pairs, m.stackSlot, o)) by {
      assert [] + HashValues(pairs, m.stackSlot, o) == HashValues(pairs, m.stackSlot, o);
    }
    HashRestored(m, m3, HashValues(pairs, m.stackSlot, o), env);
    RunBoth(Do(PushHash), Both(PairValuesOps(pairs, o), Both(AssignOps(pairs), Do(PopHash))), m, env, m1);
    RunBoth(PairValuesOps(pairs, o), Both(AssignOps(pairs), Do(PopHash)), m1, env, m2);
    RunBoth(AssignOps(pairs), Do(PopHash), m2, env, m3);
  }

  /** Finishing a hash brings back the one that was being built around it. */
  lemma HashRestored(m: Machine, m3: Machine, values: seq<(string, Code)>, env: Environment)
    requires HashOk(m)
    requires m3 == m.(hashes := if m.hash.Some? then m.hashes + [m.hash.value] else m.hashes, hash := Some(values),
                      stackVars := m3.stackVars, lastContext := m3.lastContext, lastHelper := m3.lastHelper,
                      registers := m3.registers)
    ensures Exec(PopHash, m3, env).Some? && Pushed(m, Exec(PopHash, m3, env).value, [Plain(HashObject(values))])
  {
    if m.hash.Some? {
      assert (m.hashes + [m.hash.value])[..|m.hashes|] == m.hashes;
    }
  }

  lemma {:induction false} PopsArgs(m: Machine, below: seq<Entry>, args: seq<Entry>)
    requires m.inlineStack == below + args
    ensures PopArgs(m, |args|) == Some((Codes(args), m.(inlineStack := below)))
    decreases |args|
  {
    if args == [] {
      assert m.inlineStack == below;
    } else {
      var init, last := args[..|args| - 1], args[|args| - 1];
      PopInline(m, below + init, last);
      PopsArgs(m.(inlineStack := below + init), below, init);
      assert Codes(init) + [last.code] == Codes(args);
    }
  }

  lemma SetsUp(m: Machine, below: seq<Entry>, args: seq<Entry>, program: Entry, inverse: Entry, hash: Entry,
               name: string)
    requires m.inlineStack == below + (args + [program, inverse, hash])
    ensures SetupOptions(m, name, |args|)
         == Some((Codes(args), CallOptions(name, hash.code, program.code, inverse.code), m.(inlineStack := below)))
  {
    var base := below + args;
    PopInline(m, base + [program, inverse], hash);
    var m1 := m.(inlineStack := base + [program, inverse]);
    PopInline(m1, base + [program], inverse);
    var m2 := m1.(inlineStack := base + [program]);
    PopInline(m2, base, program);
    PopsArgs(m2.(inlineStack := base), below, args);
  }

  lemma {:induction false} SetupPushes(s: Sexpr, program: Option<nat>, inverse: Option<nat>, m: Machine, o: Options,
                                       env: Environment)
    requires !ParamsThrow(s.params, o) && (s.hash.Some? ==> !PairsThrow(s.hash.value, o))
    requires env.compat == o.compat && HashOk(m)
    ensures Pushes(SetupOps(s, program, inverse, o), m, env,
              ParamEntries(s.params, m.stackSlot, o)
              + [ProgramEntry(program), ProgramEntry(inverse), HashEntry(s.hash, m.stackSlot, o)])
    decreases s, 0
  {
    var slot := m.stackSlot;
    var hashOps := match s.hash case None => Do(EmptyHash) case Some(pairs) => HashOps(pairs, o);
    var p, i, h := ProgramEntry(program), ProgramEntry(inverse), HashEntry(s.hash, slot, o);
    ParamsPush(s.params, m, o, env);
    var m1 := RunOps(ParamsOps(s.params, o), m, env).value;
    OnePushes(PushProgram(program), m1, env, p);
    var m2 := Push(m1, p);
    OnePushes(PushProgram(inverse), m2, env, i);
    var m3 := Push(m2, i);
    match s.hash {
      case None => OnePushes(EmptyHash, m3, env, h);
      case Some(pairs) => HashPushes(pairs, m3, o, env);
    }
    BothPush(Do(PushProgram(inverse)), hashOps, m2, env, [i], [h]);
    BothPush(Do(PushProgram(program)), Both(Do(PushProgram(inverse)), hashOps), m1, env, [p], [i] + [h]);
    BothPush(ParamsOps(s.params, o), Both(Do(PushProgram(program)), Both(Do(PushProgram(inverse)), hashOps)), m, env,
      ParamEntries(s.params, slot, o), [p] + ([i] + [h]));
    assert [p] + ([i] + [h]) == [p, i, h];
  }

  /** Calling a helper replaces everything pushed for the call by one entry. */
  lemma KnownCallPushes(m: Machine, m1: Machine, env: Environment, args: seq<Entry>, p: Entry, i: Entry, h: Entry,
                        name: string)
    requires Pushed(m, m1, args + [p, i, h])
    ensures Exec(InvokeKnownHelper(|args|, name), m1, env).Some?
    ensures Pushed(m, Exec(InvokeKnownHelper(|args|, name), m1, env).value,
              [Plain(KnownHelperCall(name, Codes(args), CallOptions(name, h.code, p.code, i.code)))])
  {
    SetsUp(m1, m.inlineStack, args, p, i, h, name);
  }

  lemma CallPushes(m: Machine, m1: Machine, m2: Machine, env: Environment, args: seq<Entry>, p: Entry, i: Entry,
                   h: Entry,
                   found: Entry, name: string, simple: bool)
    requires Pushed(m, m1, args + [p, i, h]) && Pushed(m1, m2, [found])
    ensures Exec(InvokeHelper(|args|, name, simple), m2, env).Some?
    ensures Pushed(m, Exec(InvokeHelper(|args|, name, simple), m2, env).value,
              [Plain(HelperCall(name, simple, found.code, Codes(args), CallOptions(name, h.code, p.code, i.code)))])
  {
    PopInline(m2, m1.inlineStack, found);
    SetsUp(m2.(inlineStack := m1.inlineStack), m.inlineStack, args, p, i, h, name);
  }

  lemma {:induction false} HelperPushes(s: Sexpr, program: Option<nat>, inverse: Option<nat>, m: Machine, o: Options,
                                        env: Environment)
    requires Classify(s, o) == Helper && !SexprThrows(s, o) && env.compat == o.compat && HashOk(m)
    ensures Pushes(HelperOps(s, program, inverse, o), m, env, [Plain(CallTree(s, program, inverse, m.stackSlot, o))])
    decreases s, 1
  {
    var slot := m.stackSlot;
    var args := ParamEntries(s.params, slot, o);
    var p, i, h := ProgramEntry(program), ProgramEntry(inverse), HashEntry(s.hash, slot, o);
    SetupPushes(s, program, inverse, m, o, env);
    ParamsPush(s.params, m, o, env);
    var m1 := RunOps(SetupOps(s, program, inverse, o), m, env).value;
    if Head(s.id.parts) in o.knownHelpers {
      var invoke := Do(InvokeKnownHelper(Count(s.params), Head(s.id.parts)));
      RunBoth(SetupOps(s, program, inverse, o), invoke, m, env, m1);
      KnownCallPushes(m, m1, env, args, p, i, h, Head(s.id.parts));
    } else {
      IdPushes(s.id, true, m1, o, env);
      var m2 := RunOps(IdOps(s.id, true), m1, env).value;
      var invoke := Do(InvokeHelper(Count(s.params), Original(s.id), s.id.isSimple));
      RunBoth(SetupOps(s, program, inverse, o), Both(IdOps(s.id, true), invoke), m, env, m1);
      RunBoth(IdOps(s.id, true), invoke, m1, env, m2);
      CallPushes(m, m1, m2, env, args, p, i, h, IdEntry(s.id, slot, true, o.compat), Original(s.id), s.id.isSimple);
    }
  }

  lemma AmbiguousCallPushes(m: Machine, m2: Machine, env: Environment, p: Entry, i: Entry, found: Entry, name: string,
                            isBlock: bool)
    requires Pushed(m, m2, [p, i, found])
    ensures Exec(InvokeAmbiguous(name, isBlock), m2, env).Some?
    ensures Pushed(m, Exec(InvokeAmbiguous(name, isBlock), m2, env).value,
              [Plain(AmbiguousCall(name, isBlock, found.code, CallOptions(name, EmptyObject, p.code, i.code)))])
    ensures Exec(InvokeAmbiguous(name, isBlock), m2, env).value.lastHelper == name
  {
    var m3 := m2.(registers := m2.registers + {"helper"});
    PopInline(m3, m.inlineStack + [p, i], found);
    var m4 := Push(m3.(inlineStack := m.inlineStack + [p, i]), Wrapped(EmptyObject));
    assert m4.inlineStack == m.inlineStack + ([] + [p, i, Wrapped(EmptyObject)]);
    SetsUp(m4, m.inlineStack, [], p, i, Wrapped(EmptyObject), name);
  }

  lemma AmbiguousPushes(s: Sexpr, program: Option<nat>, inverse: Option<nat>, m: Machine, o: Options, env: Environment)
    requires Classify(s, o) == Ambiguous && s.id.Path? && env.compat == o.compat
    ensures Pushes(AmbiguousOps(s, program, inverse), m, env, [Plain(CallTree(s, program, inverse, m.stackSlot, o))])
    ensures RunOps(AmbiguousOps(s, program, inverse), m, env).value.lastHelper == Head(s.id.parts)
  {
    var p, i, found := ProgramEntry(program), ProgramEntry(inverse), IdEntry(s.id, m.stackSlot, false, o.compat);
    var m0 := m.(lastContext := s.id.depth);
    var m1 := Push(Push(m0, p), i);
    IdPushes(s.id, false, m1, o, env);
    var m2 := RunOps(IdOps(s.id, false), m1, env).value;
    var invoke := Do(InvokeAmbiguous(Head(s.id.parts), program.Some? || inverse.Some?));
    var lookup := Both(IdOps(s.id, false), invoke);
    RunBoth(Do(GetContext(s.id.depth)), Both(Do(PushProgram(program)), Both(Do(PushProgram(inverse)), lookup)),
            m, env, m0);
    RunBoth(Do(PushProgram(program)), Both(Do(PushProgram(inverse)), lookup), m0, env, Push(m0, p));
    RunBoth(Do(PushProgram(inverse)), lookup, Push(m0, p), env, m1);
    RunBoth(IdOps(s.id, false), invoke, m1, env, m2);
    assert Pushed(m, m2, [p, i, found]);
    AmbiguousCallPushes(m, m2, env, p, i, found, Head(s.id.parts), program.Some? || inverse.Some?);
  }

  /** Compiling any S-expression adds exactly one entry to the stack: the call
      tree read off the template.  Everything beneath is unchanged, whatever was
      on either half of the stack before. */
  lemma {:induction false} SexprPushes(s: Sexpr, program: Option<nat>, inverse: Option<nat>, m: Machine, o: Options,
                                       env: Environment)
    requires !SexprThrows(s, o) && env.compat == o.compat && HashOk(m)
    ensures Pushes(SexprOps(s, program, inverse, o), m, env, [Plain(CallTree(s, program, inverse, m.stackSlot, o))])
    decreases s, 2
  {
    match Classify(s, o)
    case Simple => SimplePushes(s.id, m, o, env);
    case Helper => HelperPushes(s, program, inverse, m, o, env);
    case Ambiguous => AmbiguousPushes(s, program, inverse, m, o, env);
  }
}
