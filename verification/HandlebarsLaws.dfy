/** What single statements compile to, in terms of their syntax and the options. */
module HandlebarsLaws {
  import opened Handlebars
  import opened HandlebarsCorrect
  import opened HandlebarsExact
  import opened HandlebarsMachine
  import opened HandlebarsProgram
  import opened HandlebarsTemplates
  import opened Prelude

  /** The name a helper is looked up by; JavaScript turns a missing one into this word. */
  function NameOf(s: Sexpr): string {
    if |s.id.parts| > 0 then s.id.parts[0] else "undefined"
  }

  predicate Known(s: Sexpr, o: Options) {
    NameOf(s) in o.knownHelpers
  }

  /** Which of the four kinds of call an expression becomes. */
  lemma KindOfCall(s: Sexpr, program: Option<nat>, inverse: Option<nat>, slot: nat, o: Options)
    ensures var code := CallTree(s, program, inverse, slot, o);
      && (code.KnownHelperCall? <==> (s.isHelper || s.eligibleHelper) && Known(s, o))
      && (code.HelperCall? <==> s.isHelper && !Known(s, o))
      && (code.AmbiguousCall? <==> s.eligibleHelper && !s.isHelper && !Known(s, o) && !o.knownHelpersOnly)
      && (code.Lambda? <==> !s.isHelper && (!s.eligibleHelper || (!Known(s, o) && o.knownHelpersOnly)))
  {
  }

  /** What the first pass throws on: a data path where a helper may stand, a
      helper that is not known when only known ones are allowed, and such in
      what a helper is called with. */
  lemma RejectedCallIff(s: Sexpr, o: Options)
    ensures SexprThrows(s, o) <==>
      || (s.id.Data? && (s.isHelper || s.eligibleHelper))
      || (s.isHelper && !Known(s, o) && o.knownHelpersOnly)
      || ((s.isHelper || (s.eligibleHelper && Known(s, o)))
            && (ParamsThrow(s.params, o) || (s.hash.Some? && PairsThrow(s.hash.value, o))))
  {
  }

  /** The programs a call is given: those of its block, by number, or null. */
  function ProgramCode(program: Option<nat>): Code {
    match program case None => Null case Some(number) => ProgramRef(number)
  }

  function ArgumentsOf(code: Code): seq<Code>
    requires code.KnownHelperCall? || code.HelperCall?
  {
    match code case KnownHelperCall(_, args, _) => args case HelperCall(_, _, _, args, _) => args
  }

  function OptionsIn(code: Code): CallOptions
    requires code.KnownHelperCall? || code.HelperCall? || code.AmbiguousCall?
  {
    match code
    case KnownHelperCall(_, _, options) => options
    case HelperCall(_, _, _, _, options) => options
    case AmbiguousCall(_, _, _, options) => options
  }

  /** What a call is made with: the name, the programs, and one argument for
      each parameter. */
  lemma PartsOfCall(s: Sexpr, program: Option<nat>, inverse: Option<nat>, slot: nat, o: Options)
    requires !SexprThrows(s, o)
    ensures var code := CallTree(s, program, inverse, slot, o);
      && (code.KnownHelperCall? ==> code.name == NameOf(s))
      && (code.HelperCall? ==> s.id.Path? && code.name == s.id.original && code.simple == s.id.isSimple)
      && (code.AmbiguousCall? ==> code.name == NameOf(s) && code.isBlock == (program.Some? || inverse.Some?))
      && (!code.Lambda? ==>
            OptionsIn(code).fn == ProgramCode(program) && OptionsIn(code).inverse == ProgramCode(inverse))
      && (code.AmbiguousCall? || (!code.Lambda? && s.hash.None?) ==> OptionsIn(code).hash == EmptyObject)
      && (code.KnownHelperCall? || code.HelperCall? ==> |ArgumentsOf(code)| == Arity(s.params))
  {
    EntriesLength(s.params, slot, o);
    if s.hash.None? { assert HashEntry(s.hash, slot, o) == Wrapped(EmptyObject); }
  }

  function Arity(ps: Params): nat {
    if ps.NoParams? then 0 else Arity(ps.rest) + 1
  }

  lemma {:induction false} EntriesLength(ps: Params, slot: nat, o: Options)
    ensures |ParamEntries(ps, slot, o)| == Arity(ps) && |Codes(ParamEntries(ps, slot, o))| == Arity(ps)
  {
    if ps.Params? { EntriesLength(ps.rest, slot, o); }
  }

  /** Each argument by its place: a string is quoted, a number or boolean is
      itself, a path and a subexpression are what they read as. */
  function ParamAt(ps: Params, k: nat): Param
    requires k < Arity(ps)
  {
    if k == 0 then ps.first else ParamAt(ps.rest, k - 1)
  }

  lemma {:induction false} ArgumentAt(ps: Params, k: nat, slot: nat, o: Options)
    requires k < Arity(ps)
    ensures |ParamEntries(ps, slot, o)| == Arity(ps)
    ensures var code, p := ParamEntries(ps, slot, o)[k].code, ParamAt(ps, k);
      && (p.StringParam? ==> code == Quoted(p.text)) && (p.LiteralParam? ==> code == Literal(p.text))
      && (p.SubExpression? ==> code == CallTree(p.sexpr, None, None, slot, o))
      && (p.IdParam? ==> code == IdEntry(p.id, slot, false, o.compat).code)
  {
    EntriesLength(ps, slot, o);
    if k > 0 { ArgumentAt(ps.rest, k - 1, slot, o); }
  }

  /** A path of two names: the first is looked up in the contexts of all depths
      if that is asked for, and otherwise in the one it says; the second on what
      was found, through a variable, so that it is found once. */
  lemma PathRead(name: string, member: string, depth: nat, original: string, isSimple: bool, scoped: bool, slot: nat,
                 falsy: bool, compat: bool)
    requires name != ""
    ensures var found := if compat && !scoped && depth == 0 then Depthed(name)
                         else Access(ContextName(depth), ContextName(depth), name, falsy);
      var variable := if slot == 0 then 1 else slot;
      && IdEntry(Path([name], depth, original, isSimple, scoped), slot, falsy, compat) == Plain(found)
      && IdEntry(Path([name, member], depth, original, isSimple, scoped), slot, falsy, compat)
           == Plain(Access(Assign(variable, found), StackVar(variable), member, falsy))
  {
    var context := Wrapped(ContextName(depth));
    ChainOne(context, name, slot, falsy);
    ChainTwo(context, name, member, slot, falsy);
    ChainOne(Plain(Depthed(name)), member, slot, falsy);
    assert [name, member][1..] == [member] && [name][1..] == [];
  }

  lemma ChainOne(e: Entry, name: string, slot: nat, falsy: bool)
    ensures Chain(e, [name], slot, falsy) == AccessEntry(e, slot, name, falsy)
  {
    assert [name][..0] == [] && Chain(e, [], slot, falsy) == e;
  }

  lemma ChainTwo(e: Entry, name: string, member: string, slot: nat, falsy: bool)
    ensures Chain(e, [name, member], slot, falsy) == AccessEntry(AccessEntry(e, slot, name, falsy), slot, member, falsy)
  {
    ChainOne(e, name, slot, falsy);
    assert [name, member][..1] == [name];
  }

  /** A data path: each name is looked up on what was found, quietly. */
  lemma DataRead(name: string, depth: nat, slot: nat, falsy: bool, compat: bool)
    ensures IdEntry(Data([name], depth), slot, falsy, compat)
         == Plain(Access(DataName(depth), DataName(depth), name, true))
  {
    ChainOne(Wrapped(DataName(depth)), name, slot, true);
  }

  /** `this` and `..`, and a path whose first name is empty, are contexts. */
  lemma ContextRead(parts: seq<string>, depth: nat, original: string, isSimple: bool, scoped: bool, slot: nat,
                    falsy: bool, compat: bool)
    requires parts == [] || parts[0] == ""
    ensures IdEntry(Path(parts, depth, original, isSimple, scoped), slot, falsy, compat) == Wrapped(ContextName(depth))
  {
  }

  // ---------- statements on their own

  function Only(st: Statement): Program {
    Statements(st, End)
  }

  /** What one statement compiles to when it is all there is. */
  lemma OnlyLines(st: Statement, o: Options)
    requires !ProgramThrows(Only(st), o)
    ensures Generate(CompiledProgram(Only(st), o), o.compat).Some?
    ensures Generate(CompiledProgram(Only(st), o), o.compat).value.source == StatementLines(st, o, true)
    ensures Generate(CompiledProgram(Only(st), o), o.compat).value.isSimple
  {
    assert Length(End) == 0 && Length(Only(st)) == 1;
    NotRejected(Only(st), o);
    CompilesExactly(Only(st), o);
    assert ProgramOutput(Only(st), 0, Output(None, []), o, true) == StatementOutput(st, 0, Output(None, []), o, true);
  }

  function Guarded(code: Code): seq<Line> {
    [AssignLine(1, code), IfNotNull(StackVar(1)), ElseEmpty]
  }

  function LinesOf(st: Statement, o: Options): seq<Line>
    requires !ProgramThrows(Only(st), o)
  {
    OnlyLines(st, o);
    Generate(CompiledProgram(Only(st), o), o.compat).value.source
  }

  /** A mustache: escaped unless it asks not to be or escaping is off. */
  lemma MustacheLines(s: Sexpr, escaped: bool, o: Options)
    requires !SexprThrows(s, o)
    ensures !ProgramThrows(Only(Mustache(s, escaped)), o)
    ensures LinesOf(Mustache(s, escaped), o) ==
      var code := CallTree(s, None, None, 0, o);
      if escaped && !o.noEscape then [BufferEscaped(code)] else Guarded(code)
  {
    assert !ProgramThrows(End, o) && !StatementThrows(Mustache(s, escaped), o);
    OnlyLines(Mustache(s, escaped), o);
  }

  /** What `blockHelperMissing` is called with besides the value. */
  function Missing(name: string, fn: Option<nat>, inverse: Option<nat>): CallOptions {
    CallOptions(name, EmptyObject, ProgramCode(fn), ProgramCode(inverse))
  }

  /** A block: called as a helper; or, where it may or may not be one, given to
      `blockHelperMissing` unless a helper was found; or always given to it. */
  function BlockCode(s: Sexpr, code: Code, fn: Option<nat>, inverse: Option<nat>): seq<Line> {
    if code.Lambda? then
      Guarded(BlockHelperMissing(code, Missing(if s.id.Path? then s.id.original else "undefined", fn, inverse)))
    else if code.AmbiguousCall? then
      [AssignLine(1, code), UnlessHelper(NameOf(s), StackVar(1), Missing("", fn, inverse)),
       IfNotNull(StackVar(1)), ElseEmpty]
    else Guarded(code)
  }

  lemma BlockStatement(s: Sexpr, program: Option<Program>, inverse: Option<Program>, o: Options)
    requires !ProgramThrows(Only(Block(s, program, inverse)), o)
    ensures var fn := if program.Some? then Some(0) else None;
      var otherwise := if inverse.Some? then Some(if program.Some? then 1 else 0) else None;
      StatementLines(Block(s, program, inverse), o, true)
      == BlockCode(s, CallTree(s, fn, otherwise, 0, o), fn, otherwise)
  {
  }

  /** The programs of a single block are numbered from zero. */
  lemma BlockLinesOf(s: Sexpr, program: Option<Program>, inverse: Option<Program>, o: Options)
    requires !ProgramThrows(Only(Block(s, program, inverse)), o)
    ensures var fn := if program.Some? then Some(0) else None;
      var otherwise := if inverse.Some? then Some(if program.Some? then 1 else 0) else None;
      LinesOf(Block(s, program, inverse), o) == BlockCode(s, CallTree(s, fn, otherwise, 0, o), fn, otherwise)
  {
    OnlyLines(Block(s, program, inverse), o);
    BlockStatement(s, program, inverse, o);
  }

  lemma ContentLines(text: string, o: Options)
    ensures !ProgramThrows(Only(Content(text)), o) && !ProgramThrows(Only(Comment), o)
    ensures LinesOf(Content(text), o) == if text == "" then [] else [BufferText(text)]
    ensures LinesOf(Comment, o) == []
  {
    assert !ProgramThrows(End, o) && !StatementThrows(Content(text), o) && !StatementThrows(Comment, o);
    OnlyLines(Content(text), o);
    OnlyLines(Comment, o);
  }

  /** A partial without a context is given the one it stands in, and one without
      a hash no object at all. */
  lemma PartialLines(name: string, indent: string, o: Options)
    ensures !ProgramThrows(Only(Partial(name, indent, None, None)), o)
    ensures LinesOf(Partial(name, indent, None, None), o)
         == Guarded(PartialCall(name, indent, ContextName(0), Undefined))
  {
    assert !ProgramThrows(End, o) && !StatementThrows(Partial(name, indent, None, None), o);
    OnlyLines(Partial(name, indent, None, None), o);
  }
}
