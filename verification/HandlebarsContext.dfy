/** The second pass as it runs: a compiler of its own for each program, and one
    context, with the table of programs, for the whole template. */
module HandlebarsContext {
  import opened Handlebars
  import opened HandlebarsExact
  import opened HandlebarsMachine
  import opened HandlebarsSharing
  import opened HandlebarsTemplates
  import opened Prelude
  import HandlebarsCompiler
  import HandlebarsJavaScript

  class Context {
    const compat: bool
    var programs: Table

    constructor (compat: bool)
      ensures this.compat == compat && programs == []
    {
      this.compat, programs := compat, [];
    }

    /** `matchExistingProgram`. */
    method MatchExistingProgram(c: Compiled) returns (found: Option<nat>)
      ensures found == Match(programs, c, 0)
    {
      var i := 0;
      while i < |programs|
        invariant 0 <= i <= |programs|
        invariant Match(programs, c, 0) == Match(programs, c, i)
      {
        if Equal(programs[i].environment, c) { return Some(i); }
        i := i + 1;
      }
      found := None;
    }

    /** `compileChildren`; not ok where a child throws. */
    method CompileChildren(cs: seq<Compiled>) returns (ok: bool, refs: seq<nat>)
      modifies this
      ensures ok <==> ShareAll(cs, old(programs), compat).Some?
      ensures ok ==> ShareAll(cs, old(programs), compat) == Some(Shared(programs, refs))
      decreases cs, 2
    {
      refs := [];
      var i := 0;
      while i < |cs|
        invariant 0 <= i <= |cs|
        invariant ShareAll(cs[..i], old(programs), compat) == Some(Shared(programs, refs))
      {
        NextChild(cs, i, old(programs), compat);
        var child := cs[i];
        var index: nat;
        var found := MatchExistingProgram(child);
        match found {
          case Some(j) => index := j;
          case None =>
            ok, index := CompileProgram(child);
            if !ok {
              ShareStops(cs, i, old(programs), compat);
              return;
            }
        }
        refs := refs + [index];
        i := i + 1;
      }
      assert cs[..i] == cs;
      ok := true;
    }

    /** `compile` of one program, whose result is entered in the table; that of
        the template itself, which no program calls, comes last. */
    method CompileProgram(c: Compiled) returns (ok: bool, index: nat)
      modifies this
      ensures ok <==> Share(c, old(programs), compat).Some?
      ensures ok ==> Share(c, old(programs), compat) == Some(Added(programs, index))
      decreases c, 0
    {
      var refs;
      ok, refs := CompileChildren(c.children);
      index := |programs|;
      if !ok { return; }
      var compiler := new HandlebarsJavaScript.JavaScriptCompiler(Environment(compat, c.isSimple));
      ok := compiler.ExecuteAll(c.opcodes);
      if !ok { return; }
      compiler.FlushPending();
      if compiler.stackSlot != 0 || compiler.inlineStack != [] || compiler.compileStack != [] { return false, index; }
      var body := compiler.MergeSource();
      programs := programs + [TableEntry(c, body, refs)];
    }
  }

  lemma NextChild(cs: seq<Compiled>, i: nat, table: Table, compat: bool)
    requires i < |cs|
    ensures cs[..i + 1][..i] == cs[..i] && cs[..i + 1][i] == cs[i]
  {
  }

  /** Where one child throws, so does the whole. */
  lemma {:induction false} ShareStops(cs: seq<Compiled>, i: nat, table: Table, compat: bool)
    requires i < |cs| && ShareAll(cs[..i + 1], table, compat).None?
    ensures ShareAll(cs, table, compat).None?
    decreases |cs|
  {
    if i + 1 < |cs| {
      assert cs[..|cs| - 1][..i + 1] == cs[..i + 1];
      ShareStops(cs[..|cs| - 1], i, table, compat);
    } else {
      assert cs[..i + 1] == cs;
    }
  }

  /** `compile`: the first pass, then the second.  It fails exactly where the
      template is at fault.  The functions called by the table it leaves are
      those of the source read off the template if and only if no two programs
      within it look alike, only one of them simple, and write a value unescaped. */
  method CompileTemplate(p: Program, o: Options) returns (programs: Option<Table>)
    ensures programs.None? <==> ProgramThrows(p, o)
    ensures programs.Some? ==>
      && TableOf(programs.value, CompiledProgram(p, o), o.compat)
      && (Unfold(programs.value, |programs.value| - 1) == Functions(ProgramSource(p, o))
          <==> Unmixed(CompiledProgram(p, o)))
  {
    var compiler := new HandlebarsCompiler.Compiler(o);
    var ok := compiler.Compile(p);
    if !ok {
      RejectedThrows(p, o);
      return None;
    }
    var c := Compiled(compiler.opcodes, compiler.isSimple, compiler.children);
    CompilesExactly(p, o);
    SharedTable(c, o.compat);
    var context := new Context(o.compat);
    var index;
    ok, index := context.CompileProgram(c);
    if !ok { return None; }
    SharingIsExactIff(context.programs, p, o);
    programs := Some(context.programs);
  }
}
