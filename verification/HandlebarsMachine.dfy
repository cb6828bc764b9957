/** The second pass of Handlebars: a symbolic stack machine whose stack is
    split into entries still inline and entries already assigned to variables. */
module HandlebarsMachine {
  import opened Handlebars
  import opened Prelude

  /** Lines of generated source. */
  datatype Line =
    | BufferText(text: string)
    | BufferEscaped(code: Code)
    | AssignLine(slot: nat, code: Code)  // stackN = code;
    | IfNotNull(code: Code)              // if (code != null) { append code }
    | ElseEmpty
    | UnlessHelper(helper: string, target: Code, options: CallOptions)

  datatype Machine = Machine(
    inlineStack: seq<Entry>,
    compileStack: seq<Entry>,
    stackSlot: nat,
    stackVars: nat,
    hash: Option<seq<(string, Code)>>,
    hashes: seq<seq<(string, Code)>>,
    lastContext: nat,
    lastHelper: string,
    registers: set<string>,
    pending: Option<string>,
    source: seq<Line>)

  const Initial := Machine([], [], 0, 0, None, [], 0, "", {}, None, [])

  /** What the environment of one program contributes. */
  datatype Environment = Environment(compat: bool, isSimple: bool)

  /** The number of stack variables declared once `slot` has been taken. */
  function Declared(stackVars: nat, slot: nat): nat {
    if slot > stackVars then stackVars + 1 else stackVars
  }

  // ---------- stack operations

  function Push(m: Machine, e: Entry): Machine {
    m.(inlineStack := m.inlineStack + [e])
  }

  function IncrStack(m: Machine): Machine {
    m.(stackSlot := m.stackSlot + 1, stackVars := Declared(m.stackVars, m.stackSlot + 1))
  }

  function PushSource(m: Machine, line: Line): Machine {
    FlushPending(m).(source := FlushPending(m).source + [line])
  }

  function FlushPending(m: Machine): Machine {
    if m.pending.Some? then m.(source := m.source + [BufferText(m.pending.value)], pending := None) else m
  }

  /** One inline entry moved below: literals as they are, others through a new variable. */
  function Spill(m: Machine, e: Entry): Machine {
    if e.Wrapped? then m.(compileStack := m.compileStack + [e])
    else
      var m1 := IncrStack(m);
      var m2 := PushSource(m1, AssignLine(m1.stackSlot, e.code));
      m2.(compileStack := m2.compileStack + [Plain(StackVar(m2.stackSlot))])
  }

  function SpillAll(m: Machine, entries: seq<Entry>): Machine {
    if entries == [] then m else Spill(SpillAll(m, entries[..|entries| - 1]), entries[|entries| - 1])
  }

  function FlushInline(m: Machine): Machine {
    SpillAll(m.(inlineStack := []), m.inlineStack)
  }

  /** The popped expression, or None for "Invalid stack pop". */
  function Pop(m: Machine): Option<(Code, Machine)> {
    if m.inlineStack != [] then
      Some((m.inlineStack[|m.inlineStack| - 1].code, m.(inlineStack := m.inlineStack[..|m.inlineStack| - 1])))
    else if m.compileStack != [] then
      var top, rest := m.compileStack[|m.compileStack| - 1], m.(compileStack := m.compileStack[..|m.compileStack| - 1]);
      if top.Wrapped? then Some((top.code, rest))
      else if m.stackSlot == 0 then None
      else Some((top.code, rest.(stackSlot := m.stackSlot - 1)))
    else if m.stackSlot == 0 then None
    else Some((Undefined, m.(stackSlot := m.stackSlot - 1)))
  }

  function TopStack(m: Machine): Code {
    var stack := if m.inlineStack != [] then m.inlineStack else m.compileStack;
    if stack == [] then Undefined else stack[|stack| - 1].code
  }

  /** The variable a chained access goes through: a new one only if none is in use. */
  function ChainSlot(stackSlot: nat): nat {
    if stackSlot == 0 then 1 else stackSlot
  }

  /** `replaceStack` with a member access: None for "replaceStack on non-inline". */
  function ReplaceStack(m: Machine, name: string, falsy: bool): Option<Machine> {
    if m.inlineStack == [] then None else
      var top, below := m.inlineStack[|m.inlineStack| - 1], m.inlineStack[..|m.inlineStack| - 1];
      if top.Wrapped? then Some(m.(inlineStack := below + [Plain(Access(top.code, top.code, name, falsy))]))
      else
        var slot := ChainSlot(m.stackSlot);
        Some(m.(inlineStack := below + [Plain(Access(Assign(slot, top.code), StackVar(slot), name, falsy))],
                stackVars := if m.stackSlot == 0 then Declared(m.stackVars, slot) else m.stackVars))
  }

  function ReplaceAll(m: Machine, parts: seq<string>, falsy: bool): Option<Machine> {
    if parts == [] then Some(m) else
      match ReplaceAll(m, parts[..|parts| - 1], falsy)
      case None => None
      case Some(m1) => ReplaceStack(m1, parts[|parts| - 1], falsy)
  }

  // ---------- calls

  /** Pops `count` arguments; the topmost is the last. */
  function PopArgs(m: Machine, count: nat): Option<(seq<Code>, Machine)>
    decreases count
  {
    if count == 0 then Some(([], m)) else
      match Pop(m)
      case None => None
      case Some((last, m1)) =>
        match PopArgs(m1, count - 1)
        case None => None
        case Some((args, m2)) => Some((args + [last], m2))
  }

  /** Pops hash, inverse and program, then the arguments. */
  function SetupOptions(m: Machine, name: string, count: nat): Option<(seq<Code>, CallOptions, Machine)> {
    match Pop(m)
    case None => None
    case Some((hash, m1)) =>
      match Pop(m1)
      case None => None
      case Some((inverse, m2)) =>
        match Pop(m2)
        case None => None
        case Some((fn, m3)) =>
          match PopArgs(m3, count)
          case None => None
          case Some((args, m4)) => Some((args, CallOptions(name, hash, fn, inverse), m4))
  }

  function UseRegister(m: Machine, name: string): Machine {
    m.(registers := m.registers + {name})
  }

  function PushAmbiguous(m: Machine, name: string, isBlock: bool, found: Code, options: CallOptions): Machine {
    var m1 := if isBlock then UseRegister(m, "options") else m;
    Push(m1.(lastHelper := name), Plain(AmbiguousCall(name, isBlock, found, options)))
  }

  // ---------- opcodes

  function Exec(op: Opcode, m: Machine, env: Environment): Option<Machine> {
    match op
    case GetContext(depth) => Some(m.(lastContext := depth))
    case PushContext => Some(Push(m, Wrapped(ContextName(m.lastContext))))
    case LookupOnContext(parts, falsy, scoped) =>
      if scoped || !env.compat || m.lastContext != 0 || parts == [] then
        ReplaceAll(Push(m, Wrapped(ContextName(m.lastContext))), parts, falsy)
      else ReplaceAll(Push(m, Plain(Depthed(parts[0]))), parts[1..], falsy)
    case LookupData(depth, parts) => ReplaceAll(Push(m, Wrapped(DataName(depth))), parts, true)
    case ResolvePossibleLambda =>
      (match Pop(m) case None => None case Some((callee, m1)) => Some(Push(m1, Plain(Lambda(callee)))))
    case EmptyHash => Some(Push(m, Wrapped(EmptyObject)))
    case PushHash =>
      Some(m.(hashes := if m.hash.Some? then m.hashes + [m.hash.value] else m.hashes, hash := Some([])))
    case AssignToHash(key) =>
      (match Pop(m)
       case None => None
       case Some((value, m1)) =>
         if m1.hash.None? then None else Some(m1.(hash := Some(m1.hash.value + [(key, value)]))))
    case PopHash =>
      if m.hash.None? then None
      else
        var restored := if m.hashes == [] then m.(hash := None)
                        else m.(hash := Some(m.hashes[|m.hashes| - 1]), hashes := m.hashes[..|m.hashes| - 1]);
        Some(Push(restored, Plain(HashObject(m.hash.value))))
    case PushString(text) => Some(Push(m, Wrapped(Quoted(text))))
    case PushLiteral(text) => Some(Push(m, Wrapped(Literal(text))))
    case PushUndefined => Some(Push(m, Plain(Undefined)))
    case PushProgram(child) => Some(Push(m, Wrapped(if child.Some? then ProgramRef(child.value) else Null)))
    case InvokeHelper(count, name, simple) =>
      (match Pop(m)
       case None => None
       case Some((found, m1)) =>
         match SetupOptions(m1, name, count)
         case None => None
         case Some((args, options, m2)) => Some(Push(m2, Plain(HelperCall(name, simple, found, args, options)))))
    case InvokeKnownHelper(count, name) =>
      (match SetupOptions(m, name, count)
       case None => None
       case Some((args, options, m1)) => Some(Push(m1, Plain(KnownHelperCall(name, args, options)))))
    case InvokeAmbiguous(name, isBlock) =>
      (match Pop(UseRegister(m, "helper"))
       case None => None
       case Some((found, m1)) =>
         match SetupOptions(Push(m1, Wrapped(EmptyObject)), name, 0)
         case None => None
         case Some((_, options, m2)) => Some(PushAmbiguous(m2, name, isBlock, found, options)))
    case InvokePartial(name, indent) =>
      (match Pop(m)
       case None => None
       case Some((context, m1)) =>
         match Pop(m1)
         case None => None
         case Some((hash, m2)) => Some(Push(m2, Plain(PartialCall(name, indent, context, hash)))))
    case BlockValue(None) => None
    case BlockValue(Some(name)) =>
      (match SetupOptions(m, name, 0)
       case None => None
       case Some((_, options, m1)) =>
         match Pop(m1)
         case None => None
         case Some((found, m2)) => Some(Push(m2, Plain(BlockHelperMissing(found, options)))))
    case AmbiguousBlockValue =>
      (match SetupOptions(m, "", 0)
       case None => None
       case Some((_, options, m1)) =>
         var m2 := FlushInline(UseRegister(m1, "options"));
         Some(PushSource(m2, UnlessHelper(m2.lastHelper, TopStack(m2), options))))
    case Append =>
      (match Pop(FlushInline(m))
       case None => None
       case Some((code, m1)) =>
         var m2 := PushSource(m1, IfNotNull(code));
         Some(if env.isSimple then PushSource(m2, ElseEmpty) else m2))
    case AppendEscaped =>
      (match Pop(m) case None => None case Some((code, m1)) => Some(PushSource(m1, BufferEscaped(code))))
    case AppendContent(text) =>
      Some(m.(pending := Some(if m.pending.Some? then m.pending.value + text else text)))
  }

  function Run(ops: seq<Opcode>, m: Machine, env: Environment): Option<Machine> {
    if ops == [] then Some(m) else
      match Exec(ops[0], m, env)
      case None => None
      case Some(m1) => Run(ops[1..], m1, env)
  }

  /** The same over the grouping the first pass emits. */
  function RunOps(ops: Ops, m: Machine, env: Environment): Option<Machine> {
    match ops
    case Nothing => Some(m)
    case Do(op) => Exec(op, m, env)
    case Both(first, second) =>
      match RunOps(first, m, env)
      case None => None
      case Some(m1) => RunOps(second, m1, env)
  }

  lemma {:induction false} RunConcat(a: seq<Opcode>, b: seq<Opcode>, m: Machine, env: Environment)
    ensures Run(a + b, m, env) ==
      match Run(a, m, env)
      case None => None
      case Some(m1) => Run(b, m1, env)
    decreases |a|
  {
    if a == [] {
      assert a + b == b;
    } else {
      assert (a + b)[1..] == a[1..] + b;
      match Exec(a[0], m, env) {
        case None =>
        case Some(m1) => RunConcat(a[1..], b, m1, env);
      }
    }
  }

  lemma {:induction false} RunFlattened(ops: Ops, m: Machine, env: Environment)
    ensures Run(Flatten(ops), m, env) == RunOps(ops, m, env)
  {
    match ops
    case Nothing =>
    case Do(op) =>
      match Exec(op, m, env) {
        case None =>
        case Some(m1) => assert Run([], m1, env) == Some(m1);
      }
    case Both(first, second) =>
      RunConcat(Flatten(first), Flatten(second), m, env);
      RunFlattened(first, m, env);
      match RunOps(first, m, env) {
        case None =>
        case Some(m1) => RunFlattened(second, m1, env);
      }
  }
}
