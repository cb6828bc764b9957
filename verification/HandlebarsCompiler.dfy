/** The first pass, as the object that carries it out. */
module HandlebarsCompiler {
  import opened Handlebars
  import opened Prelude

  /** The opcodes after some more have been pushed. */
  ghost function Emitted(before: seq<Opcode>, ops: Ops): seq<Opcode> {
    before + Flatten(ops)
  }

  lemma EmittedBoth(before: seq<Opcode>, a: Ops, b: Ops)
    ensures Emitted(Emitted(before, a), b) == Emitted(before, Both(a, b))
  {
  }

  lemma EmittedThree(before: seq<Opcode>, a: Ops, b: Ops, c: Ops)
    ensures Emitted(Emitted(Emitted(before, a), b), c) == Emitted(before, Both(a, Both(b, c)))
  {
    EmittedBoth(Emitted(before, a), b, c);
    EmittedBoth(before, a, Both(b, c));
  }

  lemma EmittedFour(before: seq<Opcode>, a: Ops, b: Ops, c: Ops, d: Ops)
    ensures Emitted(Emitted(Emitted(Emitted(before, a), b), c), d) == Emitted(before, Both(a, Both(b, Both(c, d))))
  {
    EmittedThree(Emitted(before, a), b, c, d);
    EmittedBoth(before, a, Both(b, Both(c, d)));
  }

  /** The first pass: pushes opcodes, and compiles child programs as it meets them. */
  class Compiler {
    const options: Options
    var opcodes: seq<Opcode>
    var children: seq<Compiled>
    var isSimple: bool

    constructor (options: Options)
      ensures this.options == options && opcodes == [] && children == []
    {
      this.options := options;
      opcodes, children, isSimple := [], [], false;
    }

    method Emit(op: Opcode)
      modifies `opcodes
      ensures opcodes == Emitted(old(opcodes), Do(op))
    {
      opcodes := opcodes + [op];
    }

    method IdNode(id: Id, falsy: bool)
      modifies `opcodes
      ensures opcodes == Emitted(old(opcodes), IdOps(id, falsy))
    {
      EmittedBoth(opcodes, Do(GetContext(id.depth)),
        if NoName(id.parts) then Do(PushContext) else Do(LookupOnContext(id.parts, falsy, id.Path? && id.isScoped)));
      Emit(GetContext(id.depth));
      if NoName(id.parts) {
        Emit(PushContext);
      } else {
        Emit(LookupOnContext(id.parts, falsy, id.Path? && id.isScoped));
      }
    }

    method SimpleSexpr(id: Id)
      modifies `opcodes
      ensures opcodes == Emitted(old(opcodes), SimpleOps(id))
    {
      EmittedBoth(opcodes, if id.Data? then Do(LookupData(id.depth, id.parts)) else IdOps(id, false),
        Do(ResolvePossibleLambda));
      if id.Data? { Emit(LookupData(id.depth, id.parts)); } else { IdNode(id, false); }
      Emit(ResolvePossibleLambda);
    }

    method PushParam(p: Param) returns (ok: bool)
      modifies `opcodes
      ensures ok <==> !ParamThrows(p, options)
      ensures ok ==> opcodes == Emitted(old(opcodes), ParamOps(p, options))
      decreases p
    {
      ok := true;
      match p {
        case IdParam(id) => if id.Data? { Emit(LookupData(id.depth, id.parts)); } else { IdNode(id, false); }
        case StringParam(text) => Emit(PushString(text));
        case LiteralParam(text) => Emit(PushLiteral(text));
        case SubExpression(sexpr) => ok := SexprNode(sexpr, None, None);
      }
    }

    method PushParams(params: Params) returns (ok: bool)
      modifies `opcodes
      ensures ok <==> !ParamsThrow(params, options)
      ensures ok ==> opcodes == Emitted(old(opcodes), ParamsOps(params, options))
      decreases params
    {
      ok := true;
      if params.Params? {
        EmittedBoth(opcodes, ParamOps(params.first, options), ParamsOps(params.rest, options));
        ok := PushParam(params.first);
        if ok { ok := PushParams(params.rest); }
      }
    }

    method PushPairValues(pairs: Pairs) returns (ok: bool)
      modifies `opcodes
      ensures ok <==> !PairsThrow(pairs, options)
      ensures ok ==> opcodes == Emitted(old(opcodes), PairValuesOps(pairs, options))
      decreases pairs, 0
    {
      ok := true;
      if pairs.Pairs? {
        EmittedBoth(opcodes, ParamOps(pairs.value, options), PairValuesOps(pairs.rest, options));
        ok := PushParam(pairs.value);
        if ok { ok := PushPairValues(pairs.rest); }
      }
    }

    method AssignPairs(pairs: Pairs)
      modifies `opcodes
      ensures opcodes == Emitted(old(opcodes), AssignOps(pairs))
    {
      if pairs.Pairs? {
        EmittedBoth(opcodes, AssignOps(pairs.rest), Do(AssignToHash(pairs.key)));
        AssignPairs(pairs.rest);
        Emit(AssignToHash(pairs.key));
      }
    }

    method HashNode(pairs: Pairs) returns (ok: bool)
      modifies `opcodes
      ensures ok <==> !PairsThrow(pairs, options)
      ensures ok ==> opcodes == Emitted(old(opcodes), HashOps(pairs, options))
      decreases pairs, 1
    {
      EmittedFour(opcodes, Do(PushHash), PairValuesOps(pairs, options), AssignOps(pairs), Do(PopHash));
      Emit(PushHash);
      ok := PushPairValues(pairs);
      if ok {
        AssignPairs(pairs);
        Emit(PopHash);
      }
    }

    method SetupFullMustacheParams(s: Sexpr, program: Option<nat>, inverse: Option<nat>) returns (ok: bool)
      modifies `opcodes
      ensures ok <==> !ParamsThrow(s.params, options) && (s.hash.Some? ==> !PairsThrow(s.hash.value, options))
      ensures ok ==> opcodes == Emitted(old(opcodes), SetupOps(s, program, inverse, options))
      decreases s, 0
    {
      EmittedFour(opcodes, ParamsOps(s.params, options), Do(PushProgram(program)), Do(PushProgram(inverse)),
        match s.hash case None => Do(EmptyHash) case Some(pairs) => HashOps(pairs, options));
      ok := PushParams(s.params);
      if !ok { return; }
      Emit(PushProgram(program));
      Emit(PushProgram(inverse));
      if s.hash.Some? { ok := HashNode(s.hash.value); } else { Emit(EmptyHash); }
    }

    method HelperSexpr(s: Sexpr, program: Option<nat>, inverse: Option<nat>) returns (ok: bool)
      requires Classify(s, options) == Helper
      modifies `opcodes
      ensures ok <==> !SexprThrows(s, options)
      ensures ok ==> opcodes == Emitted(old(opcodes), HelperOps(s, program, inverse, options))
      decreases s, 1
    {
      ghost var setup := SetupOps(s, program, inverse, options);
      var name := Head(s.id.parts);
      EmittedBoth(opcodes, setup, Do(InvokeKnownHelper(Count(s.params), name)));
      EmittedThree(opcodes, setup, IdOps(s.id, true),
        Do(InvokeHelper(Count(s.params), Original(s.id), s.id.Path? && s.id.isSimple)));
      ok := SetupFullMustacheParams(s, program, inverse);
      if !ok || s.id.Data? { return false; }
      if name in options.knownHelpers {
        Emit(InvokeKnownHelper(Count(s.params), name));
      } else if options.knownHelpersOnly {
        return false;
      } else {
        IdNode(s.id, true);
        Emit(InvokeHelper(Count(s.params), Original(s.id), s.id.isSimple));
      }
    }

    method AmbiguousSexpr(s: Sexpr, program: Option<nat>, inverse: Option<nat>)
      modifies `opcodes
      ensures opcodes == Emitted(old(opcodes), AmbiguousOps(s, program, inverse))
    {
      ghost var rest := Both(IdOps(s.id, false), Do(InvokeAmbiguous(Head(s.id.parts), program.Some? || inverse.Some?)));
      EmittedBoth(Emitted(Emitted(Emitted(opcodes, Do(GetContext(s.id.depth))), Do(PushProgram(program))),
                          Do(PushProgram(inverse))),
        IdOps(s.id, false), Do(InvokeAmbiguous(Head(s.id.parts), program.Some? || inverse.Some?)));
      EmittedFour(opcodes, Do(GetContext(s.id.depth)), Do(PushProgram(program)), Do(PushProgram(inverse)), rest);
      Emit(GetContext(s.id.depth));
      Emit(PushProgram(program));
      Emit(PushProgram(inverse));
      IdNode(s.id, false);
      Emit(InvokeAmbiguous(Head(s.id.parts), program.Some? || inverse.Some?));
    }

    method SexprNode(s: Sexpr, program: Option<nat>, inverse: Option<nat>) returns (ok: bool)
      modifies `opcodes
      ensures ok <==> !SexprThrows(s, options)
      ensures ok ==> opcodes == Emitted(old(opcodes), SexprOps(s, program, inverse, options))
      decreases s, 2
    {
      if s.eligibleHelper && !s.isHelper && s.id.Data? { return false; }
      ok := true;
      match Classify(s, options) {
        case Simple => SimpleSexpr(s.id);
        case Helper => ok := HelperSexpr(s, program, inverse);
        case Ambiguous => AmbiguousSexpr(s, program, inverse);
      }
    }

    /** Compiles a child program with a compiler of its own, and numbers it. */
    method CompileProgram(p: Program) returns (ok: bool, d: nat)
      modifies this
      ensures opcodes == old(opcodes)
      ensures ok <==> !ProgramRejected(p, options)
      ensures ok ==> d == |old(children)| && children == old(children) + [CompiledProgram(p, options)]
      decreases p, 2
    {
      var child := new Compiler(options);
      ok := child.Compile(p);
      d := |children|;
      if ok { children := children + [Compiled(child.opcodes, child.isSimple, child.children)]; }
    }

    method BlockArgs(program: Option<nat>, inverse: Option<nat>)
      modifies `opcodes
      ensures opcodes == Emitted(old(opcodes), BlockArgsOps(program, inverse))
    {
      EmittedThree(opcodes, Do(PushProgram(program)), Do(PushProgram(inverse)), Do(EmptyHash));
      Emit(PushProgram(program));
      Emit(PushProgram(inverse));
      Emit(EmptyHash);
    }

    method BlockSexpr(s: Sexpr, program: Option<nat>, inverse: Option<nat>) returns (ok: bool)
      modifies `opcodes
      ensures ok <==> !SexprThrows(s, options)
      ensures ok ==> opcodes == Emitted(old(opcodes), BlockOps(s, program, inverse, options))
    {
      if s.eligibleHelper && !s.isHelper && s.id.Data? { return false; }
      ok := true;
      match Classify(s, options) {
        case Helper =>
          EmittedBoth(opcodes, HelperOps(s, program, inverse, options), Do(Append));
          ok := HelperSexpr(s, program, inverse);
          if ok { Emit(Append); }
        case Simple =>
          var original := if s.id.Path? then Some(s.id.original) else None;
          EmittedFour(opcodes, SimpleOps(s.id), BlockArgsOps(program, inverse), Do(BlockValue(original)), Do(Append));
          SimpleSexpr(s.id);
          BlockArgs(program, inverse);
          Emit(BlockValue(original));
          Emit(Append);
        case Ambiguous =>
          EmittedFour(opcodes, AmbiguousOps(s, program, inverse), BlockArgsOps(program, inverse),
            Do(AmbiguousBlockValue), Do(Append));
          AmbiguousSexpr(s, program, inverse);
          BlockArgs(program, inverse);
          Emit(AmbiguousBlockValue);
          Emit(Append);
      }
    }

    method PartialNode(name: string, indent: string, context: Option<Param>, hash: Option<Pairs>) returns (ok: bool)
      modifies `opcodes
      ensures ok <==> !StatementRejected(Partial(name, indent, context, hash), options)
      ensures ok ==> opcodes == Emitted(old(opcodes), PartialOps(name, indent, context, hash, options))
    {
      ghost var hashOps := if hash.Some? then HashOps(hash.value, options) else Do(PushUndefined);
      ghost var contextOps := if context.Some? then ParamOps(context.value, options)
        else Both(Do(GetContext(0)), Do(PushContext));
      EmittedFour(opcodes, hashOps, contextOps, Do(InvokePartial(name, indent)), Do(Append));
      ok := true;
      if hash.Some? { ok := HashNode(hash.value); } else { Emit(PushUndefined); }
      if !ok { return; }
      EmittedBoth(opcodes, Do(GetContext(0)), Do(PushContext));
      if context.Some? {
        ok := PushParam(context.value);
        if !ok { return; }
      } else {
        Emit(GetContext(0));
        Emit(PushContext);
      }
      Emit(InvokePartial(name, indent));
      Emit(Append);
    }

    method BlockNode(sexpr: Sexpr, program: Option<Program>, inverse: Option<Program>) returns (ok: bool)
      modifies this
      ensures ok <==> !StatementRejected(Block(sexpr, program, inverse), options)
      ensures ok ==>
        opcodes == Emitted(old(opcodes), StatementOps(Block(sexpr, program, inverse), |old(children)|, options))
      ensures ok ==> children == old(children) + StatementChildren(Block(sexpr, program, inverse), options)
      decreases Block(sexpr, program, inverse), 0
    {
      var first: Option<nat>, second: Option<nat> := None, None;
      if program.Some? {
        var d;
        ok, d := CompileProgram(program.value);
        if !ok { return; }
        first := Some(d);
      }
      if inverse.Some? {
        var d;
        ok, d := CompileProgram(inverse.value);
        if !ok { return; }
        second := Some(d);
      }
      ok := BlockSexpr(sexpr, first, second);
    }

    method StatementNode(st: Statement) returns (ok: bool)
      modifies this
      ensures ok <==> !StatementRejected(st, options)
      ensures ok ==> opcodes == Emitted(old(opcodes), StatementOps(st, |old(children)|, options))
      ensures ok ==> children == old(children) + StatementChildren(st, options)
      decreases st, 1
    {
      ok := true;
      match st {
        case Mustache(sexpr, escaped) =>
          var last := if escaped && !options.noEscape then AppendEscaped else Append;
          EmittedBoth(opcodes, SexprOps(sexpr, None, None, options), Do(last));
          ok := SexprNode(sexpr, None, None);
          if ok { Emit(last); }
        case Block(sexpr, program, inverse) => ok := BlockNode(sexpr, program, inverse);
        case Partial(name, indent, context, hash) => ok := PartialNode(name, indent, context, hash);
        case Content(text) => if text != "" { Emit(AppendContent(text)); }
        case Comment =>
      }
    }

    method StatementNodes(p: Program) returns (ok: bool)
      modifies this
      ensures ok <==> !ProgramRejected(p, options)
      ensures ok ==> opcodes == Emitted(old(opcodes), ProgramOps(p, |old(children)|, options))
      ensures ok ==> children == old(children) + ChildrenOf(p, options)
      decreases p, 0
    {
      ok := true;
      if p.Statements? {
        ghost var first := StatementOps(p.first, |children|, options);
        EmittedBoth(opcodes, first, ProgramOps(p.rest, NextGuid(p.first, |children|), options));
        ok := StatementNode(p.first);
        if ok { ok := StatementNodes(p.rest); }
      }
    }

    /** `compile`: the opcodes and the children of a whole program. */
    method Compile(p: Program) returns (ok: bool)
      modifies this
      ensures ok <==> !ProgramRejected(p, options)
      ensures ok ==> Compiled(opcodes, isSimple, children) == CompiledProgram(p, options)
      decreases p, 1
    {
      opcodes, children := [], [];
      ok := StatementNodes(p);
      isSimple := Length(p) == 1;
      if ok {
        assert Emitted([], ProgramOps(p, 0, options)) == Flatten(ProgramOps(p, 0, options));
        assert [] + ChildrenOf(p, options) == ChildrenOf(p, options);
      }
    }
  }
}
