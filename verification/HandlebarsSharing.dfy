/** The table of child programs that the second pass keeps for a whole template:
    a program that looks like one compiled before is not compiled again. */
module HandlebarsSharing {
  import opened Handlebars
  import opened HandlebarsMachine
  import opened HandlebarsProgram
  import opened HandlebarsTemplates
  import opened Prelude
  import B = HandlebarsBodies

  /** What is generated for a program: the body of its function, and the functions it calls. */
  datatype Function = Function(body: B.Body, children: seq<Function>)

  /** The functions of programs generated one by one. */
  function Functions(g: Generated): Function
    decreases g
  {
    Function(B.Merge(g.source, g.isSimple),
             seq(|g.children|, k requires 0 <= k < |g.children| => Functions(g.children[k])))
  }

  function BodyOf(c: Compiled, compat: bool): B.Body
    requires !Fails(c, compat)
  {
    B.Merge(SourceOf(c, compat), c.isSimple)
  }

  /** `equals`: the opcodes and the children, but not whether the program is simple. */
  predicate Equal(a: Compiled, b: Compiled)
    decreases a
  {
    && a.opcodes == b.opcodes && |a.children| == |b.children|
    && forall k | 0 <= k < |a.children| :: Equal(a.children[k], b.children[k])
  }

  /** A compiled program, and the indices its child programs are called by. */
  datatype TableEntry = TableEntry(environment: Compiled, body: B.Body, refs: seq<nat>)

  type Table = seq<TableEntry>

  /** `matchExistingProgram`. */
  function Match(table: Table, c: Compiled, from: nat): Option<nat>
    decreases |table| - from
  {
    if from >= |table| then None
    else if Equal(table[from].environment, c) then Some(from)
    else Match(table, c, from + 1)
  }

  datatype Shared = Shared(table: Table, refs: seq<nat>)

  datatype Added = Added(table: Table, index: nat)

  /** The children of a program, one after the other; no result where one throws. */
  function ShareAll(cs: seq<Compiled>, table: Table, compat: bool): Option<Shared>
    decreases cs, 2
  {
    if cs == [] then Some(Shared(table, []))
    else
      match ShareAll(cs[..|cs| - 1], table, compat)
      case None => None
      case Some(before) =>
        match ShareOne(cs[|cs| - 1], before.table, compat)
        case None => None
        case Some(last) => Some(Shared(last.table, before.refs + [last.index]))
  }

  function ShareOne(c: Compiled, table: Table, compat: bool): Option<Added>
    decreases c, 1
  {
    match Match(table, c, 0)
    case Some(i) => Some(Added(table, i))
    case None => Share(c, table, compat)
  }

  /** A program is entered behind all those of its children. */
  function Share(c: Compiled, table: Table, compat: bool): Option<Added>
    decreases c, 0
  {
    match ShareAll(c.children, table, compat)
    case None => None
    case Some(below) =>
      if Fails(c, compat) then None
      else Some(Added(below.table + [TableEntry(c, BodyOf(c, compat), below.refs)], |below.table|))
  }

  // ---------- looking alike

  lemma {:induction false} EqualSelf(a: Compiled)
    ensures Equal(a, a)
    decreases a
  {
    forall k | 0 <= k < |a.children| ensures Equal(a.children[k], a.children[k]) { EqualSelf(a.children[k]); }
  }

  lemma {:induction false} EqualSwapped(a: Compiled, b: Compiled)
    requires Equal(a, b)
    ensures Equal(b, a)
    decreases a
  {
    forall k | 0 <= k < |b.children| ensures Equal(b.children[k], a.children[k]) {
      EqualSwapped(a.children[k], b.children[k]);
    }
  }

  lemma {:induction false} EqualThrough(a: Compiled, b: Compiled, c: Compiled)
    requires Equal(a, b) && Equal(b, c)
    ensures Equal(a, c)
    decreases a
  {
    forall k | 0 <= k < |a.children| ensures Equal(a.children[k], c.children[k]) {
      EqualThrough(a.children[k], b.children[k], c.children[k]);
    }
  }

  // ---------- being simple does not decide what throws

  /** The same apart from the lines written. */
  ghost predicate SameBut(m: Machine, n: Machine) {
    m == n.(source := m.source)
  }

  ghost predicate AlikeOrNone(m: Option<Machine>, n: Option<Machine>) {
    (m.Some? <==> n.Some?) && (m.Some? ==> SameBut(m.value, n.value))
  }

  lemma {:induction false} SpillsAlike(m: Machine, n: Machine, entries: seq<Entry>)
    requires SameBut(m, n)
    ensures SameBut(SpillAll(m, entries), SpillAll(n, entries))
    decreases |entries|
  {
    if entries != [] { SpillsAlike(m, n, entries[..|entries| - 1]); }
  }

  lemma {:induction false} ReplacesAlike(m: Machine, n: Machine, parts: seq<string>, falsy: bool)
    requires SameBut(m, n)
    ensures AlikeOrNone(ReplaceAll(m, parts, falsy), ReplaceAll(n, parts, falsy))
    decreases |parts|
  {
    if parts != [] { ReplacesAlike(m, n, parts[..|parts| - 1], falsy); }
  }

  ghost predicate PoppedAlike<T>(a: Option<(T, Machine)>, b: Option<(T, Machine)>) {
    (a.Some? <==> b.Some?) && (a.Some? ==> a.value.0 == b.value.0 && SameBut(a.value.1, b.value.1))
  }

  lemma PopAlike(m: Machine, n: Machine)
    requires SameBut(m, n)
    ensures PoppedAlike(Pop(m), Pop(n))
  {
  }

  lemma {:induction false} ArgsAlike(m: Machine, n: Machine, count: nat)
    requires SameBut(m, n)
    ensures PoppedAlike(PopArgs(m, count), PopArgs(n, count))
    decreases count
  {
    PopAlike(m, n);
    if count > 0 && Pop(m).Some? { ArgsAlike(Pop(m).value.1, Pop(n).value.1, count - 1); }
  }

  type SetUp = Option<(seq<Code>, CallOptions, Machine)>

  ghost predicate SetUpAlike(a: SetUp, b: SetUp) {
    (a.Some? <==> b.Some?)
    && (a.Some? ==> a.value.0 == b.value.0 && a.value.1 == b.value.1 && SameBut(a.value.2, b.value.2))
  }

  lemma OptionsAlike(m: Machine, n: Machine, name: string, count: nat)
    requires SameBut(m, n)
    ensures SetUpAlike(SetupOptions(m, name, count), SetupOptions(n, name, count))
  {
    PopAlike(m, n);
    if Pop(m).Some? {
      var m1, n1 := Pop(m).value.1, Pop(n).value.1;
      PopAlike(m1, n1);
      if Pop(m1).Some? {
        var m2, n2 := Pop(m1).value.1, Pop(n1).value.1;
        PopAlike(m2, n2);
        if Pop(m2).Some? { ArgsAlike(Pop(m2).value.1, Pop(n2).value.1, count); }
      }
    }
  }

  lemma FlushedAlike(m: Machine, n: Machine)
    requires SameBut(m, n)
    ensures SameBut(FlushInline(m), FlushInline(n))
  {
    SpillsAlike(m.(inlineStack := []), n.(inlineStack := []), m.inlineStack);
  }

  lemma LookupAlike(op: Opcode, m: Machine, n: Machine, e: Environment, f: Environment)
    requires SameBut(m, n) && e.compat == f.compat && (op.LookupOnContext? || op.LookupData?)
    ensures AlikeOrNone(Exec(op, m, e), Exec(op, n, f))
  {
    match op
    case LookupOnContext(parts, falsy, scoped) =>
      var name := Wrapped(ContextName(m.lastContext));
      ReplacesAlike(Push(m, name), Push(n, name), parts, falsy);
      if parts != [] {
        ReplacesAlike(Push(m, Plain(Depthed(parts[0]))), Push(n, Plain(Depthed(parts[0]))), parts[1..], falsy);
      }
    case LookupData(depth, parts) =>
      ReplacesAlike(Push(m, Wrapped(DataName(depth))), Push(n, Wrapped(DataName(depth))), parts, true);
  }

  lemma HelperAlike(op: Opcode, m: Machine, n: Machine, e: Environment, f: Environment)
    requires SameBut(m, n) && (op.InvokeHelper? || op.InvokeKnownHelper? || op.BlockValue?)
    ensures AlikeOrNone(Exec(op, m, e), Exec(op, n, f))
  {
    match op
    case InvokeHelper(count, name, _) =>
      PopAlike(m, n);
      if Pop(m).Some? { OptionsAlike(Pop(m).value.1, Pop(n).value.1, name, count); }
    case InvokeKnownHelper(count, name) => OptionsAlike(m, n, name, count);
    case BlockValue(original) =>
      if original.Some? {
        OptionsAlike(m, n, original.value, 0);
        var m1, n1 := SetupOptions(m, original.value, 0), SetupOptions(n, original.value, 0);
        if m1.Some? { PopAlike(m1.value.2, n1.value.2); }
      }
  }

  lemma WrittenAlike(m: Machine, n: Machine, x: Line, y: Line)
    requires SameBut(m, n)
    ensures SameBut(PushSource(m, x), PushSource(n, y)) && PushSource(m, x).pending.None?
  {
  }

  lemma AmbiguousAlike(name: string, isBlock: bool, m: Machine, n: Machine, e: Environment, f: Environment)
    requires SameBut(m, n)
    ensures AlikeOrNone(Exec(InvokeAmbiguous(name, isBlock), m, e), Exec(InvokeAmbiguous(name, isBlock), n, f))
  {
    var m0, n0 := UseRegister(m, "helper"), UseRegister(n, "helper");
    PopAlike(m0, n0);
    if Pop(m0).Some? {
      var m1, n1 := Push(Pop(m0).value.1, Wrapped(EmptyObject)), Push(Pop(n0).value.1, Wrapped(EmptyObject));
      OptionsAlike(m1, n1, name, 0);
      var a, b := SetupOptions(m1, name, 0), SetupOptions(n1, name, 0);
      if a.Some? { PushedAlike(a.value.2, b.value.2, name, isBlock, Pop(m0).value.0, a.value.1); }
    }
  }

  lemma PushedAlike(m: Machine, n: Machine, name: string, isBlock: bool, found: Code, options: CallOptions)
    requires SameBut(m, n)
    ensures SameBut(PushAmbiguous(m, name, isBlock, found, options), PushAmbiguous(n, name, isBlock, found, options))
  {
  }

  lemma AmbiguousBlockAlike(m: Machine, n: Machine, e: Environment, f: Environment)
    requires SameBut(m, n)
    ensures AlikeOrNone(Exec(AmbiguousBlockValue, m, e), Exec(AmbiguousBlockValue, n, f))
  {
    OptionsAlike(m, n, "", 0);
    var a, b := SetupOptions(m, "", 0), SetupOptions(n, "", 0);
    if a.Some? {
      var m1, n1 := UseRegister(a.value.2, "options"), UseRegister(b.value.2, "options");
      FlushedAlike(m1, n1);
      var m2, n2 := FlushInline(m1), FlushInline(n1);
      var line := UnlessHelper(m2.lastHelper, TopStack(m2), a.value.1);
      WrittenAlike(m2, n2, line, line);
    }
  }

  lemma AppendAlike(m: Machine, n: Machine, e: Environment, f: Environment)
    requires SameBut(m, n)
    ensures AlikeOrNone(Exec(Append, m, e), Exec(Append, n, f))
  {
    var m1, n1 := FlushInline(m), FlushInline(n);
    FlushedAlike(m, n);
    PopAlike(m1, n1);
    if Pop(m1).Some? {
      var line := IfNotNull(Pop(m1).value.0);
      WrittenAlike(Pop(m1).value.1, Pop(n1).value.1, line, line);
      WrittenAlike(Pop(n1).value.1, Pop(m1).value.1, line, line);
    }
  }

  lemma ExecAlike(op: Opcode, m: Machine, n: Machine, e: Environment, f: Environment)
    requires SameBut(m, n) && e.compat == f.compat
    ensures AlikeOrNone(Exec(op, m, e), Exec(op, n, f))
  {
    match op
    case LookupOnContext(_, _, _) => LookupAlike(op, m, n, e, f);
    case LookupData(_, _) => LookupAlike(op, m, n, e, f);
    case InvokeHelper(_, _, _) => HelperAlike(op, m, n, e, f);
    case InvokeKnownHelper(_, _) => HelperAlike(op, m, n, e, f);
    case BlockValue(_) => HelperAlike(op, m, n, e, f);
    case InvokeAmbiguous(name, isBlock) => AmbiguousAlike(name, isBlock, m, n, e, f);
    case AmbiguousBlockValue => AmbiguousBlockAlike(m, n, e, f);
    case Append => AppendAlike(m, n, e, f);
    case _ => OthersAlike(op, m, n, e, f);
  }

  lemma OthersAlike(op: Opcode, m: Machine, n: Machine, e: Environment, f: Environment)
    requires SameBut(m, n)
    requires !op.LookupOnContext? && !op.LookupData? && !op.InvokeHelper? && !op.InvokeKnownHelper?
    requires !op.BlockValue? && !op.InvokeAmbiguous? && !op.AmbiguousBlockValue? && !op.Append?
    ensures AlikeOrNone(Exec(op, m, e), Exec(op, n, f))
  {
    PopAlike(m, n);
    if op.InvokePartial? && Pop(m).Some? { PopAlike(Pop(m).value.1, Pop(n).value.1); }
  }

  lemma {:induction false} RunAlike(ops: seq<Opcode>, m: Machine, n: Machine, e: Environment, f: Environment)
    requires SameBut(m, n) && e.compat == f.compat
    ensures AlikeOrNone(Run(ops, m, e), Run(ops, n, f))
    decreases |ops|
  {
    if ops != [] {
      ExecAlike(ops[0], m, n, e, f);
      var m1, n1 := Exec(ops[0], m, e), Exec(ops[0], n, f);
      if m1.Some? { RunAlike(ops[1..], m1.value, n1.value, e, f); }
    }
  }

  /** Programs with the same opcodes declare the same variables. */
  lemma DeclaredAlike(a: Compiled, b: Compiled, compat: bool)
    requires a.opcodes == b.opcodes && !Fails(a, compat) && !Fails(b, compat)
    ensures AfterRun(a, compat).value.stackVars == AfterRun(b, compat).value.stackVars
    ensures AfterRun(a, compat).value.registers == AfterRun(b, compat).value.registers
  {
    RunAlike(a.opcodes, Initial, Initial, Environment(compat, a.isSimple), Environment(compat, b.isSimple));
  }

  lemma FailAlike(a: Compiled, b: Compiled, compat: bool)
    requires a.opcodes == b.opcodes
    ensures Fails(a, compat) <==> Fails(b, compat)
  {
    RunAlike(a.opcodes, Initial, Initial, Environment(compat, a.isSimple), Environment(compat, b.isSimple));
  }

  /** Programs that look alike compile, or throw, alike. */
  lemma {:induction false} EqualCompileAlike(a: Compiled, b: Compiled, compat: bool)
    requires Equal(a, b)
    ensures Generate(a, compat).Some? <==> Generate(b, compat).Some?
    decreases a
  {
    FailAlike(a, b, compat);
    GenerateEach(a.children, compat);
    GenerateEach(b.children, compat);
    forall k | 0 <= k < |a.children|
      ensures Generate(a.children[k], compat).Some? <==> Generate(b.children[k], compat).Some?
    {
      EqualCompileAlike(a.children[k], b.children[k], compat);
    }
  }

  // ---------- programs within programs

  ghost predicate Within(a: Compiled, c: Compiled)
    decreases c
  {
    exists k | 0 <= k < |c.children| :: a == c.children[k] || Within(a, c.children[k])
  }

  ghost predicate Among(a: Compiled, cs: seq<Compiled>) {
    exists k | 0 <= k < |cs| :: a == cs[k] || Within(a, cs[k])
  }

  lemma AmongOne(a: Compiled, c: Compiled)
    ensures Among(a, [c]) <==> a == c || Within(a, c)
  {
    if a == c || Within(a, c) { assert [c][0] == c; }
  }

  lemma {:induction false} WithinThrough(a: Compiled, b: Compiled, c: Compiled)
    requires Within(a, b) && Within(b, c)
    ensures Within(a, c)
    decreases c
  {
    var k :| 0 <= k < |c.children| && (b == c.children[k] || Within(b, c.children[k]));
    if b != c.children[k] { WithinThrough(a, b, c.children[k]); }
  }

  function Size(c: Compiled): nat
    decreases c, 0
  {
    1 + SizeAll(c.children)
  }

  function SizeAll(cs: seq<Compiled>): nat
    decreases cs, 1
  {
    if cs == [] then 0 else SizeAll(cs[..|cs| - 1]) + Size(cs[|cs| - 1])
  }

  lemma {:induction false} SizeOfEach(cs: seq<Compiled>, k: nat)
    requires k < |cs|
    ensures Size(cs[k]) <= SizeAll(cs)
    decreases |cs|
  {
    if k < |cs| - 1 { SizeOfEach(cs[..|cs| - 1], k); }
  }

  lemma {:induction false} WithinIsSmaller(a: Compiled, c: Compiled)
    requires Within(a, c)
    ensures Size(a) < Size(c)
    decreases c
  {
    var k :| 0 <= k < |c.children| && (a == c.children[k] || Within(a, c.children[k]));
    SizeOfEach(c.children, k);
    if a != c.children[k] { WithinIsSmaller(a, c.children[k]); }
  }

  lemma {:induction false} EqualSize(a: Compiled, b: Compiled)
    requires Equal(a, b)
    ensures Size(a) == Size(b)
    decreases a, 0
  {
    EqualSizes(a.children, b.children);
  }

  lemma {:induction false} EqualSizes(a: seq<Compiled>, b: seq<Compiled>)
    requires |a| == |b| && forall k | 0 <= k < |a| :: Equal(a[k], b[k])
    ensures SizeAll(a) == SizeAll(b)
    decreases a, 1
  {
    if a != [] {
      EqualSizes(a[..|a| - 1], b[..|b| - 1]);
      EqualSize(a[|a| - 1], b[|b| - 1]);
    }
  }

  // ---------- what the table stands for

  ghost predicate RefsBelow(table: Table) {
    forall i, k | 0 <= i < |table| && 0 <= k < |table[i].refs| :: table[i].refs[k] < i
  }

  /** A program as it is called: the entry's own body, and for its children
      what the entries they are called by stand for. */
  ghost function Unfold(table: Table, i: nat): Function
    requires RefsBelow(table) && i < |table|
    decreases i
  {
    var e := table[i];
    Function(e.body, seq(|e.refs|, k requires 0 <= k < |e.refs| => Unfold(table, e.refs[k])))
  }

  ghost predicate EntryRight(table: Table, i: nat, compat: bool)
    requires i < |table|
  {
    var e := table[i];
    && |e.refs| == |e.environment.children|
    && (forall k | 0 <= k < |e.refs| :: e.refs[k] < i && Equal(table[e.refs[k]].environment, e.environment.children[k]))
    && !Fails(e.environment, compat) && e.body == BodyOf(e.environment, compat)
  }

  ghost predicate Right(table: Table, compat: bool) {
    forall i | 0 <= i < |table| :: EntryRight(table, i, compat)
  }

  ghost predicate NoTwins(table: Table) {
    forall i, j | 0 <= i < j < |table| :: !Equal(table[i].environment, table[j].environment)
  }

  lemma RightIsBelow(table: Table, compat: bool)
    requires Right(table, compat)
    ensures RefsBelow(table)
  {
    forall i, k | 0 <= i < |table| && 0 <= k < |table[i].refs| ensures table[i].refs[k] < i {
      assert EntryRight(table, i, compat);
    }
  }

  /** Every program that has been entered compiles on its own. */
  lemma {:induction false} EntryCompiles(table: Table, i: nat, compat: bool)
    requires Right(table, compat) && i < |table|
    ensures Generate(table[i].environment, compat).Some?
    decreases i
  {
    var e := table[i];
    assert EntryRight(table, i, compat);
    forall k | 0 <= k < |e.refs| ensures Generate(e.environment.children[k], compat).Some? {
      EntryCompiles(table, e.refs[k], compat);
      EqualCompileAlike(table[e.refs[k]].environment, e.environment.children[k], compat);
    }
    GenerateEach(e.environment.children, compat);
  }

  // ---------- sharing keeps the table right

  /** What entering programs does to the table. */
  ghost predicate Grows(table: Table, after: Table, cs: seq<Compiled>, compat: bool) {
    && |table| <= |after| && after[..|table|] == table
    && Right(after, compat) && NoTwins(after)
    && forall i | |table| <= i < |after| :: Among(after[i].environment, cs)
  }

  lemma {:induction false} MatchIs(table: Table, c: Compiled, from: nat)
    ensures match Match(table, c, from)
            case None => forall i | from <= i < |table| :: !Equal(table[i].environment, c)
            case Some(i) => from <= i < |table| && Equal(table[i].environment, c)
    decreases |table| - from
  {
    if from < |table| && !Equal(table[from].environment, c) { MatchIs(table, c, from + 1); }
  }

  /** The table has grown by the programs and those within them, which are called by these indices. */
  ghost predicate Holds(table: Table, cs: seq<Compiled>, s: Shared, compat: bool) {
    && Grows(table, s.table, cs, compat) && |s.refs| == |cs|
    && forall k | 0 <= k < |cs| :: s.refs[k] < |s.table| && Equal(s.table[s.refs[k]].environment, cs[k])
  }

  lemma {:induction false} SharesAll(cs: seq<Compiled>, table: Table, compat: bool)
    requires Right(table, compat) && NoTwins(table)
    ensures ShareAll(cs, table, compat).Some? <==> GenerateAll(cs, compat).Some?
    ensures ShareAll(cs, table, compat).Some? ==> Holds(table, cs, ShareAll(cs, table, compat).value, compat)
    decreases cs, 2
  {
    if cs != [] {
      var init, last := cs[..|cs| - 1], cs[|cs| - 1];
      SharesAll(init, table, compat);
      GenerateLast(cs, compat);
      var before := ShareAll(init, table, compat);
      if before.Some? {
        SharesOne(last, before.value.table, compat);
        var added := ShareOne(last, before.value.table, compat);
        if added.Some? { HoldsOneMore(table, cs, before.value, added.value, compat); }
      }
    }
  }

  lemma GenerateLast(cs: seq<Compiled>, compat: bool)
    requires cs != []
    ensures GenerateAll(cs, compat).Some? <==>
      (GenerateAll(cs[..|cs| - 1], compat).Some? && Generate(cs[|cs| - 1], compat).Some?)
  {
    GenerateEach(cs, compat);
    GenerateEach(cs[..|cs| - 1], compat);
    assert forall k | 0 <= k < |cs| - 1 :: cs[..|cs| - 1][k] == cs[k];
  }

  lemma HoldsOneMore(table: Table, cs: seq<Compiled>, before: Shared, added: Added, compat: bool)
    requires cs != [] && Holds(table, cs[..|cs| - 1], before, compat)
    requires Grows(before.table, added.table, [cs[|cs| - 1]], compat)
    requires added.index < |added.table| && Equal(added.table[added.index].environment, cs[|cs| - 1])
    ensures Holds(table, cs, Shared(added.table, before.refs + [added.index]), compat)
  {
    GrowsTwice(table, before.table, added.table, cs, compat);
    var refs := before.refs + [added.index];
    forall k | 0 <= k < |cs| ensures refs[k] < |added.table| && Equal(added.table[refs[k]].environment, cs[k]) {
      if k < |cs| - 1 { assert cs[..|cs| - 1][k] == cs[k] && refs[k] == before.refs[k]; }
    }
  }

  lemma GrowsTwice(table: Table, mid: Table, after: Table, cs: seq<Compiled>, compat: bool)
    requires cs != [] && Grows(table, mid, cs[..|cs| - 1], compat) && Grows(mid, after, [cs[|cs| - 1]], compat)
    ensures Grows(table, after, cs, compat)
    ensures forall i | 0 <= i < |mid| :: after[i] == mid[i]
  {
    var init, last := cs[..|cs| - 1], cs[|cs| - 1];
    assert forall i | 0 <= i < |mid| :: after[i] == after[..|mid|][i] == mid[i];
    assert after[..|table|] == after[..|mid|][..|table|];
    forall i | |table| <= i < |after| ensures Among(after[i].environment, cs) {
      if i < |mid| {
        var k :| 0 <= k < |init| && (mid[i].environment == init[k] || Within(mid[i].environment, init[k]));
        assert cs[k] == init[k];
      } else {
        AmongOne(after[i].environment, last);
        assert cs[|cs| - 1] == last;
      }
    }
  }

  lemma {:induction false} SharesOne(c: Compiled, table: Table, compat: bool)
    requires Right(table, compat) && NoTwins(table)
    ensures ShareOne(c, table, compat).Some? <==> Generate(c, compat).Some?
    ensures var s := ShareOne(c, table, compat);
      s.Some? ==>
        && Grows(table, s.value.table, [c], compat)
        && s.value.index < |s.value.table| && Equal(s.value.table[s.value.index].environment, c)
    decreases c, 1
  {
    MatchIs(table, c, 0);
    match Match(table, c, 0) {
      case None => Shares(c, table, compat);
      case Some(i) =>
        EntryCompiles(table, i, compat);
        EqualCompileAlike(table[i].environment, c, compat);
    }
  }

  lemma {:induction false} Shares(c: Compiled, table: Table, compat: bool)
    requires Right(table, compat) && NoTwins(table)
    requires forall i | 0 <= i < |table| :: !Equal(table[i].environment, c)
    ensures Share(c, table, compat).Some? <==> Generate(c, compat).Some?
    ensures var s := Share(c, table, compat);
      s.Some? ==>
        && Grows(table, s.value.table, [c], compat)
        && s.value.index == |s.value.table| - 1 && s.value.table[s.value.index].environment == c
        && Equal(c, c)
    decreases c, 0
  {
    EqualSelf(c);
    SharesAll(c.children, table, compat);
    var below := ShareAll(c.children, table, compat);
    if below.Some? && !Fails(c, compat) {
      Entered(c, table, below.value, compat);
    }
  }

  /** The new entry is right, and looks like none of those before it. */
  lemma Entered(c: Compiled, table: Table, below: Shared, compat: bool)
    requires !Fails(c, compat) && Holds(table, c.children, below, compat)
    requires forall i | 0 <= i < |table| :: !Equal(table[i].environment, c)
    ensures Grows(table, below.table + [TableEntry(c, BodyOf(c, compat), below.refs)], [c], compat)
  {
    var entry, mid := TableEntry(c, BodyOf(c, compat), below.refs), below.table;
    var after := mid + [entry];
    forall i | 0 <= i < |after| ensures EntryRight(after, i, compat) {
      if i < |mid| { assert EntryRight(mid, i, compat); }
    }
    forall i | 0 <= i < |mid| ensures !Equal(mid[i].environment, c) {
      if i < |table| {
        assert mid[i] == mid[..|table|][i] == table[i];
      } else {
        ChildIsSmaller(mid[i].environment, c);
      }
    }
    assert after[..|table|] == mid[..|table|];
    forall i | |table| <= i < |after| ensures Among(after[i].environment, [c]) {
      if i < |mid| {
        assert Among(mid[i].environment, c.children) && Within(mid[i].environment, c);
      }
      AmongOne(after[i].environment, c);
    }
  }

  lemma ChildIsSmaller(a: Compiled, c: Compiled)
    requires Among(a, c.children)
    ensures Within(a, c) && !Equal(a, c)
  {
    assert Within(a, c);
    WithinIsSmaller(a, c);
    if Equal(a, c) { EqualSize(a, c); }
  }

  // ---------- the table of a template

  /** The table of a whole template, the template itself entered last. */
  ghost predicate TableOf(table: Table, c: Compiled, compat: bool) {
    && Right(table, compat) && RefsBelow(table) && NoTwins(table)
    && table != [] && table[|table| - 1].environment == c
    && forall i | 0 <= i < |table| - 1 :: Within(table[i].environment, c)
  }

  /** The second pass over a whole template makes such a table, exactly where
      every program of the template can be compiled on its own. */
  lemma SharedTable(c: Compiled, compat: bool)
    ensures Share(c, [], compat).Some? <==> Generate(c, compat).Some?
    ensures Share(c, [], compat).Some? ==> TableOf(Share(c, [], compat).value.table, c, compat)
  {
    Shares(c, [], compat);
    var s := Share(c, [], compat);
    if s.Some? {
      var table := s.value.table;
      RightIsBelow(table, compat);
      forall i | 0 <= i < |table| - 1 ensures Within(table[i].environment, c) {
        AmongOne(table[i].environment, c);
        EqualSelf(c);
        assert !Equal(table[i].environment, table[|table| - 1].environment);
      }
    }
  }
}
