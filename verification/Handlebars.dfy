/** Handlebars templates, the opcodes the first pass emits for them, and the
    code expressions the second pass builds. */
module Handlebars {
  import opened Prelude

  // ---------- templates

  datatype Id =
    | Path(parts: seq<string>, depth: nat, original: string, isSimple: bool, isScoped: bool)
    | Data(parts: seq<string>, depth: nat)

  datatype Param =
    | IdParam(id: Id)
    | StringParam(text: string)
    | LiteralParam(text: string)  // a number or a boolean
    | SubExpression(sexpr: Sexpr)

  datatype Params = NoParams | Params(first: Param, rest: Params)

  datatype Pairs = NoPairs | Pairs(key: string, value: Param, rest: Pairs)

  datatype Sexpr = Sexpr(id: Id, params: Params, hash: Option<Pairs>, isHelper: bool, eligibleHelper: bool)

  datatype Statement =
    | Mustache(sexpr: Sexpr, escaped: bool)
    | Block(sexpr: Sexpr, program: Option<Program>, inverse: Option<Program>)
    | Partial(name: string, indent: string, context: Option<Param>, hash: Option<Pairs>)
    | Content(text: string)
    | Comment

  datatype Program = End | Statements(first: Statement, rest: Program)

  datatype Options = Options(knownHelpers: set<string>, knownHelpersOnly: bool, noEscape: bool, compat: bool)

  // ---------- opcodes

  datatype Opcode =
    | GetContext(depth: nat)
    | PushContext
    | LookupOnContext(parts: seq<string>, falsy: bool, scoped: bool)
    | LookupData(depth: nat, parts: seq<string>)
    | ResolvePossibleLambda
    | EmptyHash
    | PushHash
    | AssignToHash(key: string)
    | PopHash
    | PushString(text: string)
    | PushLiteral(text: string)
    | PushUndefined
    | PushProgram(child: Option<nat>)
    | InvokeHelper(count: nat, name: string, simple: bool)
    | InvokeKnownHelper(count: nat, name: string)
    | InvokeAmbiguous(name: string, isBlock: bool)
    | InvokePartial(name: string, indent: string)
    | BlockValue(original: Option<string>)
    | AmbiguousBlockValue
    | Append
    | AppendEscaped
    | AppendContent(text: string)

  /** Opcodes in the order they are pushed, grouped as the recursion emits them. */
  datatype Ops = Nothing | Do(op: Opcode) | Both(first: Ops, second: Ops)

  function Flatten(ops: Ops): seq<Opcode> {
    match ops
    case Nothing => []
    case Do(op) => [op]
    case Both(first, second) => Flatten(first) + Flatten(second)
  }

  // ---------- the first pass

  datatype Class = Helper | Ambiguous | Simple

  function Head(parts: seq<string>): string {
    if parts == [] then "undefined" else parts[0]
  }

  function Classify(s: Sexpr, o: Options): Class {
    if s.isHelper then Helper
    else if s.eligibleHelper then
      if Head(s.id.parts) in o.knownHelpers then Helper
      else if o.knownHelpersOnly then Simple
      else Ambiguous
    else Simple
  }

  /** No first part, or an empty one: `{{this}}`, or `{{[]}}`. */
  predicate NoName(parts: seq<string>) {
    parts == [] || parts[0] == ""
  }

  function IdOps(id: Id, falsy: bool): Ops {
    Both(Do(GetContext(id.depth)),
         Do(if NoName(id.parts) then PushContext else LookupOnContext(id.parts, falsy, id.Path? && id.isScoped)))
  }

  function SimpleOps(id: Id): Ops {
    Both(if id.Data? then Do(LookupData(id.depth, id.parts)) else IdOps(id, false), Do(ResolvePossibleLambda))
  }

  function ParamOps(p: Param, o: Options): Ops
    decreases p
  {
    match p
    case IdParam(id) => if id.Data? then Do(LookupData(id.depth, id.parts)) else IdOps(id, false)
    case StringParam(text) => Do(PushString(text))
    case LiteralParam(text) => Do(PushLiteral(text))
    case SubExpression(sexpr) => SexprOps(sexpr, None, None, o)
  }

  function ParamsOps(ps: Params, o: Options): Ops
    decreases ps
  {
    match ps
    case NoParams => Nothing
    case Params(first, rest) => Both(ParamOps(first, o), ParamsOps(rest, o))
  }

  function Count(ps: Params): nat {
    match ps case NoParams => 0 case Params(_, rest) => 1 + Count(rest)
  }

  function PairValuesOps(pairs: Pairs, o: Options): Ops
    decreases pairs, 0
  {
    match pairs
    case NoPairs => Nothing
    case Pairs(_, value, rest) => Both(ParamOps(value, o), PairValuesOps(rest, o))
  }

  /** The values are on the stack in order, so they are assigned last to first. */
  function AssignOps(pairs: Pairs): Ops {
    match pairs
    case NoPairs => Nothing
    case Pairs(key, _, rest) => Both(AssignOps(rest), Do(AssignToHash(key)))
  }

  function HashOps(pairs: Pairs, o: Options): Ops
    decreases pairs, 1
  {
    Both(Do(PushHash), Both(PairValuesOps(pairs, o), Both(AssignOps(pairs), Do(PopHash))))
  }

  /** Parameters, the two programs, and the hash: what every helper call is set up from. */
  function SetupOps(s: Sexpr, program: Option<nat>, inverse: Option<nat>, o: Options): Ops
    decreases s, 0
  {
    Both(ParamsOps(s.params, o), Both(Do(PushProgram(program)), Both(Do(PushProgram(inverse)),
      match s.hash case None => Do(EmptyHash) case Some(pairs) => HashOps(pairs, o))))
  }

  function HelperOps(s: Sexpr, program: Option<nat>, inverse: Option<nat>, o: Options): Ops
    decreases s, 1
  {
    Both(SetupOps(s, program, inverse, o),
      if Head(s.id.parts) in o.knownHelpers then Do(InvokeKnownHelper(Count(s.params), Head(s.id.parts)))
      else Both(IdOps(s.id, true), Do(InvokeHelper(Count(s.params), Original(s.id), s.id.Path? && s.id.isSimple))))
  }

  function Original(id: Id): string {
    if id.Path? then id.original else "undefined"
  }

  function AmbiguousOps(s: Sexpr, program: Option<nat>, inverse: Option<nat>): Ops {
    Both(Do(GetContext(s.id.depth)), Both(Do(PushProgram(program)), Both(Do(PushProgram(inverse)),
      Both(IdOps(s.id, false), Do(InvokeAmbiguous(Head(s.id.parts), program.Some? || inverse.Some?))))))
  }

  function SexprOps(s: Sexpr, program: Option<nat>, inverse: Option<nat>, o: Options): Ops
    decreases s, 2
  {
    match Classify(s, o)
    case Simple => SimpleOps(s.id)
    case Helper => HelperOps(s, program, inverse, o)
    case Ambiguous => AmbiguousOps(s, program, inverse)
  }

  /** The first pass throws on an unknown helper when only known ones are
      allowed, and on a data path where a helper may stand: it has no parts there. */
  predicate SexprThrows(s: Sexpr, o: Options)
    decreases s, 1
  {
    match Classify(s, o)
    case Simple => s.eligibleHelper && s.id.Data?
    case Ambiguous => s.id.Data?
    case Helper =>
      || s.id.Data?
      || (o.knownHelpersOnly && Head(s.id.parts) !in o.knownHelpers)
      || ParamsThrow(s.params, o)
      || (s.hash.Some? && PairsThrow(s.hash.value, o))
  }

  predicate ParamThrows(p: Param, o: Options)
    decreases p
  {
    p.SubExpression? && SexprThrows(p.sexpr, o)
  }

  predicate ParamsThrow(ps: Params, o: Options)
    decreases ps
  {
    ps.Params? && (ParamThrows(ps.first, o) || ParamsThrow(ps.rest, o))
  }

  predicate PairsThrow(pairs: Pairs, o: Options)
    decreases pairs
  {
    pairs.Pairs? && (ParamThrows(pairs.value, o) || PairsThrow(pairs.rest, o))
  }

  // ---------- statements

  /** The children a block compiles are numbered in the order they are met. */
  function Child(p: Option<Program>, guid: nat): Option<nat> {
    if p.Some? then Some(guid) else None
  }

  function NextGuid(st: Statement, guid: nat): nat {
    if st.Block? then guid + (if st.program.Some? then 1 else 0) + (if st.inverse.Some? then 1 else 0) else guid
  }

  function InverseGuid(st: Statement, guid: nat): nat
    requires st.Block?
  {
    if st.program.Some? then guid + 1 else guid
  }

  /** The programs of a block and an empty hash, for the call that runs it. */
  function BlockArgsOps(program: Option<nat>, inverse: Option<nat>): Ops {
    Both(Do(PushProgram(program)), Both(Do(PushProgram(inverse)), Do(EmptyHash)))
  }

  function BlockOps(s: Sexpr, program: Option<nat>, inverse: Option<nat>, o: Options): Ops {
    match Classify(s, o)
    case Helper => Both(HelperOps(s, program, inverse, o), Do(Append))
    case Simple =>
      Both(SimpleOps(s.id), Both(BlockArgsOps(program, inverse),
        Both(Do(BlockValue(if s.id.Path? then Some(s.id.original) else None)), Do(Append))))
    case Ambiguous =>
      Both(AmbiguousOps(s, program, inverse),
        Both(BlockArgsOps(program, inverse), Both(Do(AmbiguousBlockValue), Do(Append))))
  }

  function PartialOps(name: string, indent: string, context: Option<Param>, hash: Option<Pairs>, o: Options): Ops {
    Both(if hash.Some? then HashOps(hash.value, o) else Do(PushUndefined),
    Both(if context.Some? then ParamOps(context.value, o) else Both(Do(GetContext(0)), Do(PushContext)),
    Both(Do(InvokePartial(name, indent)), Do(Append))))
  }

  function StatementOps(st: Statement, guid: nat, o: Options): Ops {
    match st
    case Mustache(sexpr, escaped) =>
      Both(SexprOps(sexpr, None, None, o), Do(if escaped && !o.noEscape then AppendEscaped else Append))
    case Block(sexpr, program, inverse) =>
      BlockOps(sexpr, Child(program, guid), Child(inverse, InverseGuid(st, guid)), o)
    case Partial(name, indent, context, hash) => PartialOps(name, indent, context, hash, o)
    case Content(text) => if text == "" then Nothing else Do(AppendContent(text))
    case Comment => Nothing
  }

  function ProgramOps(p: Program, guid: nat, o: Options): Ops {
    match p
    case End => Nothing
    case Statements(first, rest) => Both(StatementOps(first, guid, o), ProgramOps(rest, NextGuid(first, guid), o))
  }

  /** A plain block on a data path has no original text to name its call by. */
  predicate Nameless(sexpr: Sexpr, o: Options) {
    Classify(sexpr, o) == Simple && sexpr.id.Data?
  }

  /** The first pass throws on this statement, or in one of its child programs. */
  predicate StatementRejected(st: Statement, o: Options)
    decreases st
  {
    match st
    case Mustache(sexpr, _) => SexprThrows(sexpr, o)
    case Block(sexpr, program, inverse) =>
      || SexprThrows(sexpr, o)
      || (program.Some? && ProgramRejected(program.value, o))
      || (inverse.Some? && ProgramRejected(inverse.value, o))
    case Partial(_, _, context, hash) =>
      (context.Some? && ParamThrows(context.value, o)) || (hash.Some? && PairsThrow(hash.value, o))
    case _ => false
  }

  predicate ProgramRejected(p: Program, o: Options)
    decreases p
  {
    p.Statements? && (StatementRejected(p.first, o) || ProgramRejected(p.rest, o))
  }

  /** The second pass throws as well, where a block is nameless. */
  predicate StatementThrows(st: Statement, o: Options)
    decreases st
  {
    match st
    case Block(sexpr, program, inverse) =>
      || SexprThrows(sexpr, o)
      || Nameless(sexpr, o)
      || (program.Some? && ProgramThrows(program.value, o))
      || (inverse.Some? && ProgramThrows(inverse.value, o))
    case _ => StatementRejected(st, o)
  }

  predicate ProgramThrows(p: Program, o: Options)
    decreases p
  {
    p.Statements? && (StatementThrows(p.first, o) || ProgramThrows(p.rest, o))
  }

  /** What the first pass makes of a program and of the child programs in it. */
  datatype Compiled = Compiled(opcodes: seq<Opcode>, isSimple: bool, children: seq<Compiled>)

  function Length(p: Program): nat {
    match p case End => 0 case Statements(_, rest) => 1 + Length(rest)
  }

  function StatementChildren(st: Statement, o: Options): seq<Compiled>
    decreases st
  {
    if st.Block? then
      (if st.program.Some? then [CompiledProgram(st.program.value, o)] else []) +
      (if st.inverse.Some? then [CompiledProgram(st.inverse.value, o)] else [])
    else []
  }

  function ChildrenOf(p: Program, o: Options): seq<Compiled>
    decreases p, 0
  {
    match p
    case End => []
    case Statements(first, rest) => StatementChildren(first, o) + ChildrenOf(rest, o)
  }

  function CompiledProgram(p: Program, o: Options): Compiled
    decreases p, 1
  {
    Compiled(Flatten(ProgramOps(p, 0, o)), Length(p) == 1, ChildrenOf(p, o))
  }

  // ---------- code

  /** JavaScript expressions, one constructor for each text template of the second pass. */
  datatype Code =
    | Null
    | Undefined
    | EmptyObject
    | Literal(text: string)
    | Quoted(text: string)
    | ProgramRef(child: nat)
    | ContextName(depth: nat)
    | DataName(depth: nat)
    | Depthed(name: string)
    | StackVar(slot: nat)
    | Assign(slot: nat, value: Code)
    | Access(prefix: Code, subject: Code, name: string, falsy: bool)
    | Lambda(callee: Code)
    | HashObject(values: seq<(string, Code)>)
    | HelperCall(name: string, simple: bool, found: Code, args: seq<Code>, options: CallOptions)
    | KnownHelperCall(name: string, args: seq<Code>, options: CallOptions)
    | AmbiguousCall(name: string, isBlock: bool, found: Code, options: CallOptions)
    | BlockHelperMissing(found: Code, options: CallOptions)
    | PartialCall(name: string, indent: string, context: Code, hash: Code)

  datatype CallOptions = CallOptions(name: string, hash: Code, fn: Code, inverse: Code)

  /** A stack entry: wrapped in a literal, or a plain expression. */
  datatype Entry = Wrapped(code: Code) | Plain(code: Code)
}
