/** The second pass, as the object that carries it out: one method for each
    operation on the two stacks, and one call for each opcode. */
module HandlebarsJavaScript {
  import opened Handlebars
  import opened Prelude
  import B = HandlebarsBodies
  import M = HandlebarsMachine

  lemma {:induction false} ReplaceAllInline(m: M.Machine, parts: seq<string>, falsy: bool)
    requires m.inlineStack != []
    ensures M.ReplaceAll(m, parts, falsy).Some? && M.ReplaceAll(m, parts, falsy).value.inlineStack != []
  {
    if parts != [] { ReplaceAllInline(m, parts[..|parts| - 1], falsy); }
  }

  class JavaScriptCompiler {
    const env: M.Environment
    var inlineStack: seq<Entry>
    var compileStack: seq<Entry>
    var stackSlot: nat
    var stackVars: nat
    var hash: Option<seq<(string, Code)>>
    var hashes: seq<seq<(string, Code)>>
    var lastContext: nat
    var lastHelper: string
    var registers: set<string>
    var pending: Option<string>
    var source: seq<M.Line>

    ghost function State(): M.Machine
      reads this
    {
      M.Machine(inlineStack, compileStack, stackSlot, stackVars, hash, hashes, lastContext, lastHelper, registers,
                pending, source)
    }

    constructor (env: M.Environment)
      ensures this.env == env && State() == M.Initial
    {
      this.env := env;
      inlineStack, compileStack, stackSlot, stackVars := [], [], 0, 0;
      hash, hashes, lastContext, lastHelper := None, [], 0, "";
      registers, pending, source := {}, None, [];
    }

    // ---------- the stacks

    method Push(e: Entry)
      modifies `inlineStack
      ensures State() == M.Push(old(State()), e)
    {
      inlineStack := inlineStack + [e];
    }

    method IncrStack()
      modifies `stackSlot, `stackVars
      ensures State() == M.IncrStack(old(State()))
    {
      stackSlot := stackSlot + 1;
      if stackSlot > stackVars { stackVars := stackVars + 1; }
    }

    method FlushPending()
      modifies `source, `pending
      ensures State() == M.FlushPending(old(State()))
    {
      if pending.Some? {
        source := source + [M.BufferText(pending.value)];
        pending := None;
      }
    }

    method PushSource(line: M.Line)
      modifies `source, `pending
      ensures State() == M.PushSource(old(State()), line)
    {
      FlushPending();
      source := source + [line];
    }

    method PushStack(code: Code)
      modifies this
      ensures State() == M.Spill(old(State()), Plain(code))
    {
      IncrStack();
      PushSource(M.AssignLine(stackSlot, code));
      compileStack := compileStack + [Plain(StackVar(stackSlot))];
    }

    method FlushInline()
      modifies this
      ensures State() == M.FlushInline(old(State()))
    {
      var entries := inlineStack;
      inlineStack := [];
      ghost var m := State();
      var i := 0;
      while i < |entries|
        invariant 0 <= i <= |entries|
        invariant State() == M.SpillAll(m, entries[..i])
      {
        assert entries[..i + 1][..i] == entries[..i];
        if entries[i].Wrapped? {
          compileStack := compileStack + [entries[i]];
        } else {
          PushStack(entries[i].code);
        }
        i := i + 1;
      }
      assert entries[..i] == entries;
    }

    /** `popStack`: no result for "Invalid stack pop". */
    method PopStack() returns (code: Option<Code>)
      modifies `inlineStack, `compileStack, `stackSlot
      ensures code.Some? <==> M.Pop(old(State())).Some?
      ensures code.Some? ==> M.Pop(old(State())).value == (code.value, State())
    {
      if inlineStack != [] {
        code := Some(inlineStack[|inlineStack| - 1].code);
        inlineStack := inlineStack[..|inlineStack| - 1];
        return;
      }
      code := Some(Undefined);
      if compileStack != [] {
        var top := compileStack[|compileStack| - 1];
        compileStack := compileStack[..|compileStack| - 1];
        code := Some(top.code);
        if top.Wrapped? { return; }
      }
      if stackSlot == 0 { return None; }
      stackSlot := stackSlot - 1;
    }

    method TopStack() returns (code: Code)
      ensures code == M.TopStack(State())
    {
      var stack := if inlineStack != [] then inlineStack else compileStack;
      code := if stack == [] then Undefined else stack[|stack| - 1].code;
    }

    /** `replaceStack` with a member access; fails with "replaceStack on non-inline". */
    method ReplaceStack(name: string, falsy: bool) returns (ok: bool)
      modifies `inlineStack, `stackSlot, `stackVars
      ensures ok <==> M.ReplaceStack(old(State()), name, falsy).Some?
      ensures ok ==> State() == M.ReplaceStack(old(State()), name, falsy).value
    {
      if inlineStack == [] { return false; }
      ok := true;
      var top := inlineStack[|inlineStack| - 1];
      inlineStack := inlineStack[..|inlineStack| - 1];
      if top.Wrapped? {
        Push(Plain(Access(top.code, top.code, name, falsy)));
      } else {
        var createdStack := stackSlot == 0;
        if createdStack { IncrStack(); }
        var prefix, subject := Assign(stackSlot, top.code), StackVar(stackSlot);
        if createdStack { stackSlot := stackSlot - 1; }
        Push(Plain(Access(prefix, subject, name, falsy)));
      }
    }

    /** The member accesses of a path, on top of what has just been pushed. */
    method Lookups(parts: seq<string>, falsy: bool)
      requires inlineStack != []
      modifies `inlineStack, `stackSlot, `stackVars
      ensures M.ReplaceAll(old(State()), parts, falsy) == Some(State())
    {
      ghost var m := State();
      var d := 0;
      while d < |parts|
        invariant 0 <= d <= |parts|
        invariant M.ReplaceAll(m, parts[..d], falsy) == Some(State())
      {
        ReplaceAllInline(m, parts[..d], falsy);
        assert parts[..d + 1][..d] == parts[..d];
        var ok := ReplaceStack(parts[d], falsy);
        assert ok;
        d := d + 1;
      }
      assert parts[..d] == parts;
    }

    // ---------- calls

    method PopArgs(count: nat) returns (r: Option<seq<Code>>)
      modifies `inlineStack, `compileStack, `stackSlot
      ensures r.Some? <==> M.PopArgs(old(State()), count).Some?
      ensures r.Some? ==> M.PopArgs(old(State()), count).value == (r.value, State())
    {
      var args: seq<Code> := [];
      var k := count;
      ghost var all := M.PopArgs(State(), count);
      assert all.Some? ==> all.value.0 + args == all.value.0;
      while k > 0
        invariant 0 <= k <= count
        invariant M.PopArgs(old(State()), count).Some? <==> M.PopArgs(State(), k).Some?
        invariant M.PopArgs(State(), k).Some? ==>
          M.PopArgs(old(State()), count).value
          == (M.PopArgs(State(), k).value.0 + args, M.PopArgs(State(), k).value.1)
        decreases k
      {
        var code := PopStack();
        if code.None? { return None; }
        k := k - 1;
        ghost var rest := M.PopArgs(State(), k);
        assert rest.Some? ==> (rest.value.0 + [code.value]) + args == rest.value.0 + ([code.value] + args);
        args := [code.value] + args;
      }
      assert [] + args == args;
      r := Some(args);
    }

    method SetupOptions(name: string, count: nat) returns (r: Option<(seq<Code>, CallOptions)>)
      modifies `inlineStack, `compileStack, `stackSlot
      ensures r.Some? <==> M.SetupOptions(old(State()), name, count).Some?
      ensures r.Some? ==> M.SetupOptions(old(State()), name, count).value == (r.value.0, r.value.1, State())
    {
      var hash := PopStack();
      if hash.None? { return None; }
      var inverse := PopStack();
      if inverse.None? { return None; }
      var fn := PopStack();
      if fn.None? { return None; }
      var args := PopArgs(count);
      if args.None? { return None; }
      r := Some((args.value, CallOptions(name, hash.value, fn.value, inverse.value)));
    }

    method UseRegister(name: string)
      modifies `registers
      ensures State() == M.UseRegister(old(State()), name)
    {
      registers := registers + {name};
    }

    method InvokeHelper(count: nat, name: string, simple: bool) returns (ok: bool)
      modifies `inlineStack, `compileStack, `stackSlot
      ensures ok <==> M.Exec(Opcode.InvokeHelper(count, name, simple), old(State()), env).Some?
      ensures ok ==> M.Exec(Opcode.InvokeHelper(count, name, simple), old(State()), env) == Some(State())
    {
      var found := PopStack();
      if found.None? { return false; }
      var helper := SetupOptions(name, count);
      if helper.None? { return false; }
      Push(Plain(HelperCall(name, simple, found.value, helper.value.0, helper.value.1)));
      ok := true;
    }

    method InvokeKnownHelper(count: nat, name: string) returns (ok: bool)
      modifies `inlineStack, `compileStack, `stackSlot
      ensures ok <==> M.Exec(Opcode.InvokeKnownHelper(count, name), old(State()), env).Some?
      ensures ok ==> M.Exec(Opcode.InvokeKnownHelper(count, name), old(State()), env) == Some(State())
    {
      var helper := SetupOptions(name, count);
      if helper.None? { return false; }
      Push(Plain(KnownHelperCall(name, helper.value.0, helper.value.1)));
      ok := true;
    }

    method PushAmbiguous(name: string, isBlock: bool, found: Code, options: CallOptions)
      modifies this
      ensures State() == M.PushAmbiguous(old(State()), name, isBlock, found, options)
    {
      if isBlock { UseRegister("options"); }
      lastHelper := name;
      Push(Plain(AmbiguousCall(name, isBlock, found, options)));
    }

    method InvokeAmbiguous(name: string, isBlock: bool) returns (ok: bool)
      modifies this
      ensures ok <==> M.Exec(Opcode.InvokeAmbiguous(name, isBlock), old(State()), env).Some?
      ensures ok ==> M.Exec(Opcode.InvokeAmbiguous(name, isBlock), old(State()), env) == Some(State())
    {
      UseRegister("helper");
      var found := PopStack();
      if found.None? { return false; }
      Push(Wrapped(EmptyObject));
      var helper := SetupOptions(name, 0);
      if helper.None? { return false; }
      PushAmbiguous(name, isBlock, found.value, helper.value.1);
      ok := true;
    }

    method InvokePartial(name: string, indent: string) returns (ok: bool)
      modifies `inlineStack, `compileStack, `stackSlot
      ensures ok <==> M.Exec(Opcode.InvokePartial(name, indent), old(State()), env).Some?
      ensures ok ==> M.Exec(Opcode.InvokePartial(name, indent), old(State()), env) == Some(State())
    {
      var context := PopStack();
      if context.None? { return false; }
      var hash := PopStack();
      if hash.None? { return false; }
      Push(Plain(PartialCall(name, indent, context.value, hash.value)));
      ok := true;
    }

    method BlockValue(original: Option<string>) returns (ok: bool)
      modifies `inlineStack, `compileStack, `stackSlot
      ensures ok <==> M.Exec(Opcode.BlockValue(original), old(State()), env).Some?
      ensures ok ==> M.Exec(Opcode.BlockValue(original), old(State()), env) == Some(State())
    {
      if original.None? { return false; }
      var params := SetupOptions(original.value, 0);
      if params.None? { return false; }
      var found := PopStack();
      if found.None? { return false; }
      Push(Plain(BlockHelperMissing(found.value, params.value.1)));
      ok := true;
    }

    method AmbiguousBlockValue() returns (ok: bool)
      modifies this
      ensures ok <==> M.Exec(Opcode.AmbiguousBlockValue, old(State()), env).Some?
      ensures ok ==> M.Exec(Opcode.AmbiguousBlockValue, old(State()), env) == Some(State())
    {
      var params := SetupOptions("", 0);
      if params.None? { return false; }
      UseRegister("options");
      FlushInline();
      var current := TopStack();
      PushSource(M.UnlessHelper(lastHelper, current, params.value.1));
      ok := true;
    }

    method Append() returns (ok: bool)
      modifies this
      ensures ok <==> M.Exec(Opcode.Append, old(State()), env).Some?
      ensures ok ==> M.Exec(Opcode.Append, old(State()), env) == Some(State())
    {
      FlushInline();
      var local := PopStack();
      if local.None? { return false; }
      PushSource(M.IfNotNull(local.value));
      if env.isSimple { PushSource(M.ElseEmpty); }
      ok := true;
    }

    // ---------- single opcodes

    method LookupOnContext(parts: seq<string>, falsy: bool, scoped: bool)
      modifies `inlineStack, `stackSlot, `stackVars
      ensures M.Exec(Opcode.LookupOnContext(parts, falsy, scoped), old(State()), env) == Some(State())
    {
      if scoped || !env.compat || lastContext != 0 || parts == [] {
        Push(Wrapped(ContextName(lastContext)));
        Lookups(parts, falsy);
      } else {
        Push(Plain(Depthed(parts[0])));
        Lookups(parts[1..], falsy);
      }
    }

    method ResolvePossibleLambda() returns (ok: bool)
      modifies `inlineStack, `compileStack, `stackSlot
      ensures ok <==> M.Exec(Opcode.ResolvePossibleLambda, old(State()), env).Some?
      ensures ok ==> M.Exec(Opcode.ResolvePossibleLambda, old(State()), env) == Some(State())
    {
      var callee := PopStack();
      ok := callee.Some?;
      if ok { Push(Plain(Lambda(callee.value))); }
    }

    method PushHash()
      modifies `hash, `hashes
      ensures M.Exec(Opcode.PushHash, old(State()), env) == Some(State())
    {
      if hash.Some? { hashes := hashes + [hash.value]; }
      hash := Some([]);
    }

    method AssignToHash(key: string) returns (ok: bool)
      modifies `inlineStack, `compileStack, `stackSlot, `hash
      ensures ok <==> M.Exec(Opcode.AssignToHash(key), old(State()), env).Some?
      ensures ok ==> M.Exec(Opcode.AssignToHash(key), old(State()), env) == Some(State())
    {
      var value := PopStack();
      ok := value.Some? && hash.Some?;
      if ok { hash := Some(hash.value + [(key, value.value)]); }
    }

    method PopHash() returns (ok: bool)
      modifies `inlineStack, `hash, `hashes
      ensures ok <==> M.Exec(Opcode.PopHash, old(State()), env).Some?
      ensures ok ==> M.Exec(Opcode.PopHash, old(State()), env) == Some(State())
    {
      ok := hash.Some?;
      if !ok { return; }
      var values := hash.value;
      hash := None;
      if hashes != [] {
        hash := Some(hashes[|hashes| - 1]);
        hashes := hashes[..|hashes| - 1];
      }
      Push(Plain(HashObject(values)));
    }

    method AppendEscaped() returns (ok: bool)
      modifies this
      ensures ok <==> M.Exec(Opcode.AppendEscaped, old(State()), env).Some?
      ensures ok ==> M.Exec(Opcode.AppendEscaped, old(State()), env) == Some(State())
    {
      var code := PopStack();
      ok := code.Some?;
      if ok { PushSource(M.BufferEscaped(code.value)); }
    }

    method AppendContent(text: string)
      modifies `pending
      ensures M.Exec(Opcode.AppendContent(text), old(State()), env) == Some(State())
    {
      pending := Some(if pending.Some? then pending.value + text else text);
    }

    /** One opcode; fails where the original throws. */
    method Execute(op: Opcode) returns (ok: bool)
      modifies this
      ensures ok <==> M.Exec(op, old(State()), env).Some?
      ensures ok ==> M.Exec(op, old(State()), env) == Some(State())
    {
      ok := true;
      match op {
        case GetContext(depth) => lastContext := depth;
        case PushContext => Push(Wrapped(ContextName(lastContext)));
        case LookupOnContext(parts, falsy, scoped) => LookupOnContext(parts, falsy, scoped);
        case LookupData(depth, parts) =>
          Push(Wrapped(DataName(depth)));
          Lookups(parts, true);
        case ResolvePossibleLambda => ok := ResolvePossibleLambda();
        case EmptyHash => Push(Wrapped(EmptyObject));
        case PushHash => PushHash();
        case AssignToHash(key) => ok := AssignToHash(key);
        case PopHash => ok := PopHash();
        case PushString(text) => Push(Wrapped(Quoted(text)));
        case PushLiteral(text) => Push(Wrapped(Literal(text)));
        case PushUndefined => Push(Plain(Undefined));
        case PushProgram(child) => Push(Wrapped(if child.Some? then ProgramRef(child.value) else Null));
        case InvokeHelper(count, name, simple) => ok := InvokeHelper(count, name, simple);
        case InvokeKnownHelper(count, name) => ok := InvokeKnownHelper(count, name);
        case InvokeAmbiguous(name, isBlock) => ok := InvokeAmbiguous(name, isBlock);
        case InvokePartial(name, indent) => ok := InvokePartial(name, indent);
        case BlockValue(original) => ok := BlockValue(original);
        case AmbiguousBlockValue => ok := AmbiguousBlockValue();
        case Append => ok := Append();
        case AppendEscaped => ok := AppendEscaped();
        case AppendContent(text) => AppendContent(text);
      }
    }

    /** The opcodes of one program, in order. */
    method ExecuteAll(opcodes: seq<Opcode>) returns (ok: bool)
      modifies this
      ensures ok <==> M.Run(opcodes, old(State()), env).Some?
      ensures ok ==> M.Run(opcodes, old(State()), env) == Some(State())
    {
      var i := 0;
      while i < |opcodes|
        invariant 0 <= i <= |opcodes|
        invariant M.Run(opcodes[i..], State(), env) == M.Run(opcodes, old(State()), env)
      {
        assert opcodes[i..][0] == opcodes[i] && opcodes[i..][1..] == opcodes[i + 1..];
        ok := Execute(opcodes[i]);
        if !ok { return; }
        i := i + 1;
      }
      ok := true;
    }

    /** `mergeSource`: joins adjacent contents, and declares a buffer only where
        something else stands among them. */
    method MergeSource() returns (body: B.Body)
      ensures body == B.Merge(source, env.isSimple)
    {
      var waiting: seq<B.Content>, first: Option<seq<B.Content>>, statements: seq<B.Stmt> := [], None, [];
      var unbuffered := true;
      var i := 0;
      while i < |source|
        invariant 0 <= i <= |source|
        invariant B.MergeFrom(B.Unmerged, source, env.isSimple)
               == B.MergeFrom(B.Merging(waiting, first, statements, unbuffered), source[i..], env.isSimple)
      {
        var line := source[i];
        assert source[i..][0] == line && source[i..][1..] == source[i + 1..];
        if !env.isSimple && B.IsContent(line) {
          waiting := waiting + [B.ContentOf(line)];
        } else {
          if waiting != [] {
            if first.None? && statements == [] {
              first := Some(waiting);
            } else {
              statements := statements + [B.AddToBuffer(waiting)];
            }
            waiting := [];
          }
          statements := statements + [B.Statement(line, env.isSimple)];
          if !env.isSimple { unbuffered := false; }
        }
        i := i + 1;
      }
      if unbuffered {
        if waiting != [] || (first.None? && statements == []) { statements := statements + [B.Return(waiting)]; }
        body := B.Body(None, statements);
      } else {
        body := B.Body(Some(if first.Some? then first.value else []), statements + [B.ReturnBuffer(waiting)]);
      }
    }
  }
}
