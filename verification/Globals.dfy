// What analyze does to the symbol table before it turns to the body: libraries and global variables.
module Globals {
  import opened Words
  import opened Symbols
  import opened Declarations
  import opened SymbolTable
  import opened Frames
  import opened MainProgram

  // Everything before the body: libraries, then globals.
  method SetUp(st: Stab, p: Prog) returns (ok: bool, off: int)
    requires st.Valid() && MainFrame(st.View(), []) && CanPrint(st.View(), false)
    modifies st.Repr
    ensures fresh(st.Repr - old(st.Repr))
    ensures ok <==> (forall i :: 0 <= i < |p.imports| ==> Library(p.imports[i])) && Fresh([], p.Variables())
    ensures ok ==> st.Valid() && MainFrame(st.View(), p.Variables()) && CanPrint(st.View(), "output" in p.imports)
    ensures ok ==> off == Int32(8 * |p.Variables()|)
  {
    off := 0;
    ok := DoImports(st, p.imports);
    if ok {
      ok, off := DeclareGlobals(st, p.decls, "output" in p.imports);
    }
  }

  // do_imports
  method DoImports(st: Stab, imports: seq<string>) returns (ok: bool)
    requires st.Valid() && MainFrame(st.View(), []) && CanPrint(st.View(), false)
    modifies st.Repr
    ensures fresh(st.Repr - old(st.Repr))
    ensures ok <==> forall i :: 0 <= i < |imports| ==> Library(imports[i])
    ensures ok ==> st.Valid() && MainFrame(st.View(), []) && CanPrint(st.View(), "output" in imports)
  {
    hide MainFrame, CanPrint;
    for i := 0 to |imports|
      invariant st.Valid() && fresh(st.Repr - old(st.Repr)) && MainFrame(st.View(), [])
      invariant forall j :: 0 <= j < i ==> Library(imports[j])
      invariant CanPrint(st.View(), "output" in imports[..i])
    {
      if !Library(imports[i]) { return false; }
      RegisterLibrary(st, imports[i], "output" in imports[..i]);
      assert imports[..i + 1] == imports[..i] + [imports[i]];
    }
    assert imports[..|imports|] == imports;
    ok := true;
  }

  // register_input and register_output
  method RegisterLibrary(st: Stab, name: string, ghost yes: bool)
    requires st.Valid() && MainFrame(st.View(), []) && CanPrint(st.View(), yes) && Library(name)
    modifies st.Repr
    ensures st.Valid() && fresh(st.Repr - old(st.Repr)) && old(st.Repr) <= st.Repr
    ensures MainFrame(st.View(), []) && CanPrint(st.View(), yes || name == "output")
  {
    ImportHolds(st.View(), name, yes);
    if name == "input" {
      RegisterTwo(st, "readln", MAGIC_READLN, "read", MAGIC_READ);
    } else {
      RegisterTwo(st, "writeln", MAGIC_WRITELN, "write", MAGIC_WRITE);
    }
  }

  method RegisterTwo(st: Stab, name: string, which: int, name2: string, which2: int)
    requires st.Valid() && MainFrame(st.View(), [])
    modifies st.Repr
    ensures st.Valid() && fresh(st.Repr - old(st.Repr)) && old(st.Repr) <= st.Repr
    ensures st.View() == AddMagic(AddMagic(old(st.View()), name, which), name2, which2)
  {
    Register(st, name, which);
    Register(st, name2, which2);
  }

  method Register(st: Stab, name: string, which: int)
    requires st.Valid() && MainFrame(st.View(), [])
    modifies st.Repr
    ensures st.Valid() && fresh(st.Repr - old(st.Repr)) && old(st.Repr) <= st.Repr
    ensures MainFrame(st.View(), []) && st.View() == AddMagic(old(st.View()), name, which)
  {
    MagicHolds(st.View(), name, which);
    st.AddMagicFunction(name, which);
  }

  // The global variables, all of them integers.
  method DeclareGlobals(st: Stab, decls: seq<seq<string>>, ghost output: bool) returns (ok: bool, off: int)
    requires st.Valid() && MainFrame(st.View(), []) && CanPrint(st.View(), output)
    modifies st.Repr
    ensures fresh(st.Repr - old(st.Repr))
    ensures ok <==> Fresh([], Flatten(decls))
    ensures ok ==> st.Valid() && MainFrame(st.View(), Flatten(decls)) && CanPrint(st.View(), output)
    ensures ok ==> off == Int32(8 * |Flatten(decls)|)
  {
    hide MainFrame, CanPrint, Int32;
    off := 0;
    Int32Exactly(0);
    assert decls[..0] == [] && Fresh([], Flatten(decls[..0]));
    hide Fresh;
    for i := 0 to |decls|
      invariant st.Valid() && fresh(st.Repr - old(st.Repr)) && CanPrint(st.View(), output)
      invariant Fresh([], Flatten(decls[..i]))
      invariant MainFrame(st.View(), Flatten(decls[..i])) && off == Int32(8 * |Flatten(decls[..i])|)
    {
      assert decls[..i + 1][..i] == decls[..i];
      FreshAppend(Flatten(decls[..i]), decls[i]);
      ok, off := DeclareOne(st, Flatten(decls[..i]), decls[i], off, output);
      if !ok {
        FreshPrefix(decls, i + 1);
        return;
      }
    }
    assert decls[..|decls|] == decls;
    ok := true;
  }

  method DeclareOne(st: Stab, ghost before: seq<string>, more: seq<string>, off: int, ghost output: bool)
    returns (ok: bool, next: int)
    requires st.Valid() && MainFrame(st.View(), before) && CanPrint(st.View(), output) && off == Int32(8 * |before|)
    modifies st.Repr
    ensures st.Valid() && fresh(st.Repr - old(st.Repr)) && old(st.Repr) <= st.Repr
    ensures ok <==> Fresh(before, more)
    ensures ok ==> MainFrame(st.View(), before + more) && CanPrint(st.View(), output) && next == Int32(8 * |before + more|)
  {
    DeclareHolds(st.View(), before, more, output);
    ok, next := st.AddDeclarations(Decls(more, AstType.Plain(Integer)), off, true);
  }
}
