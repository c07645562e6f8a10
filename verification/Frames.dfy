// The frame of main: where the declared variables live.
module Frames {
  import opened Basics
  import opened Words
  import opened Scoping
  import opened Symbols
  import opened Declarations
  import opened Code
  import opened Program

  // The offsets of the variables of the innermost scope.
  function LayoutOf(t: Tab): Layout
    requires TabOk(t) && t.Chain() != []
  {
    var m := t.Chain()[|t.Chain()| - 1].vars;
    map x | x in m :: OffsetOf(t, m[x])
  }

  function OffsetOf(t: Tab, id: nat): int {
    if id < |t.vars| then t.vars[id].offset else -1
  }

  // A table whose only scope holds these integer variables in this order.
  ghost predicate MainFrame(t: Tab, names: seq<string>) {
    && TabOk(t) && |t.Chain()| == 1
    && |t.vars| == |names|
    && t.Chain()[0].vars.Keys == (set x | x in names)
    && forall i :: 0 <= i < |names| ==>
         t.Chain()[0].vars[names[i]] == i && t.vars[i].ty == INTEGER_TYPE_IDX && t.vars[i].offset == Int32(8 * i)
  }

  // Declaring one more variable.
  lemma HoldsOneMore(t: Tab, names: seq<string>, x: string)
    requires MainFrame(t, names) && x !in names
    ensures MainFrame(AddVar(t, x, INTEGER_TYPE_IDX, Some(Int32(8 * |names|)), true).0, names + [x])
    ensures AddVar(t, x, INTEGER_TYPE_IDX, Some(Int32(8 * |names|)), true).2 == Some(Int32(8 * (|names| + 1)))
  {
    assert t.types[SimpleIdx(Integer)] == Primitive(Integer);
    Int32Add(8 * |names|, 8);
    AddVarOnlyVars(t, x, INTEGER_TYPE_IDX, Some(Int32(8 * |names|)), true);
    var u := AddVar(t, x, INTEGER_TYPE_IDX, Some(Int32(8 * |names|)), true).0;
    NoteOk(t, u, Bind(Vars, x, |t.vars|));
    var m, n := t.Chain()[0].vars, u.Chain()[0].vars;
    assert n == m[x := |t.vars|];
    assert (set y | y in names + [x]) == (set y | y in names) + {x};
  }

  // Declarations into the scope of main are accepted exactly when all names are distinct, and then the
  // variables lie at 0, 8, 16, ... in the order of declaration, up to the wrap-around at 32 bits.
  lemma {:induction false} NamesHold(t: Tab, before: seq<string>, names: seq<string>)
    requires MainFrame(t, before)
    ensures AddNames(t, names, INTEGER_TYPE_IDX, Int32(8 * |before|), true).Some? <==> Fresh(before, names)
    ensures AddNames(t, names, INTEGER_TYPE_IDX, Int32(8 * |before|), true).Some? ==>
            var p := AddNames(t, names, INTEGER_TYPE_IDX, Int32(8 * |before|), true).value;
            MainFrame(p.0, before + names) && p.1 == Int32(8 * |before + names|)
  {
    hide Int32;
    if names == [] {
      assert before + names == before;
    } else {
      var rest, x := names[..|names| - 1], names[|names| - 1];
      NamesHold(t, before, rest);
      assert before + names == (before + rest) + [x];
      FreshMore(before, names);
      hide Fresh;
      if Fresh(before, rest) {
        var u := AddNames(t, rest, INTEGER_TYPE_IDX, Int32(8 * |before|), true).value.0;
        LocalIsDeclared(u, before + rest, x);
        hide MainFrame;
        if x !in before + rest { HoldsOneMore(u, before + rest, x); }
      }
    }
  }

  predicate Fresh(before: seq<string>, names: seq<string>) {
    && (forall i :: 0 <= i < |names| ==> names[i] !in before)
    && forall i, j :: 0 <= i < j < |names| ==> names[i] != names[j]
  }

  lemma FreshMore(before: seq<string>, names: seq<string>)
    requires names != []
    ensures var rest, x := names[..|names| - 1], names[|names| - 1];
            Fresh(before, names) <==> Fresh(before, rest) && x !in before + rest
  {
    assert names == names[..|names| - 1] + [names[|names| - 1]];
  }

  lemma LocalIsDeclared(t: Tab, names: seq<string>, x: string)
    requires MainFrame(t, names)
    ensures Local(t.Chain(), Vars, x) <==> x in names
  {
  }

  // Where such a table puts the variables.
  lemma HoldsLayout(t: Tab, names: seq<string>)
    requires MainFrame(t, names)
    ensures LayoutOf(t).Keys == (set x | x in names)
    ensures forall i :: 0 <= i < |names| ==> LayoutOf(t)[names[i]] == Int32(8 * i)
  {
  }

  // An int can hold the size of a frame of n words.
  predicate FitsInt(n: nat) {
    8 * n < TWO_31
  }

  // A word for each name, as an int counts them: no two variables share a word exactly when an int can hold
  // the size of the frame.  Below that the offsets are 0, 8, 16, ..., above it the last ones are negative.
  lemma WordFrame(lay: Layout, names: seq<string>)
    requires lay.Keys == (set x | x in names) && Fresh([], names)
    requires forall i :: 0 <= i < |names| ==> lay[names[i]] == Int32(8 * i)
    ensures FrameOk(lay, Int32(8 * |names|)) <==> FitsInt(|names|)
  {
    var n := |names|;
    Int32Exactly(8 * n);
    if FitsInt(n) {
      forall i | 0 <= i < n ensures lay[names[i]] == 8 * i { Int32Exactly(8 * i); }
      forall x, y | x in lay && y in lay && x != y ensures lay[x] != lay[y] {
        var i :| 0 <= i < n && names[i] == x;
        var j :| 0 <= j < n && names[j] == y;
      }
      forall x | x in lay ensures 0 <= lay[x] && lay[x] % 8 == 0 {
        var i :| 0 <= i < n && names[i] == x;
      }
    } else if 8 * n > TWO_31 {
      var i := TWO_31 / 8;
      assert names[i] in lay && lay[names[i]] == Int32(TWO_31) < 0;
    }
  }

  // No two variables of such a table share a word, exactly when an int can hold the size of the frame.
  lemma HoldsFrame(t: Tab, names: seq<string>)
    requires MainFrame(t, names)
    ensures FrameOk(LayoutOf(t), Int32(8 * |names|)) <==> FitsInt(|names|)
  {
    HoldsLayout(t, names);
    assert Fresh([], names);
    WordFrame(LayoutOf(t), names);
  }

  // ---- imports ----

  predicate Library(name: string) {
    name == "input" || name == "output"
  }

  function Import(t: Tab, name: string): Tab {
    if name == "input" then AddMagic(AddMagic(t, "readln", MAGIC_READLN), "read", MAGIC_READ)
    else AddMagic(AddMagic(t, "writeln", MAGIC_WRITELN), "write", MAGIC_WRITE)
  }

  // The name denotes the library routine with this magic number if yes, and nothing if not.
  ghost predicate Denotes(t: Tab, name: string, which: int, yes: bool) {
    var id := Resolve(t.Chain(), Funcs, name);
    if yes then id.Some? && id.value < |t.types| && t.types[id.value].magic == which else id.None?
  }

  // Whether write and writeln can be called.
  ghost predicate CanPrint(t: Tab, yes: bool) {
    Denotes(t, "write", MAGIC_WRITE, yes) && Denotes(t, "writeln", MAGIC_WRITELN, yes)
  }

  lemma MagicHolds(t: Tab, name: string, which: int)
    requires MainFrame(t, [])
    ensures MainFrame(AddMagic(t, name, which), [])
    ensures Denotes(AddMagic(t, name, which), name, which, true)
    ensures forall x, w, yes :: x != name && Denotes(t, x, w, yes) ==> Denotes(AddMagic(t, name, which), x, w, yes)
  {
    AddMagicOk(t, name, which);
    var c, d := t.Chain(), AddMagic(t, name, which).Chain();
    assert d[..0] == [] && c[..0] == [];
  }

  lemma ImportHolds(t: Tab, name: string, yes: bool)
    requires MainFrame(t, []) && CanPrint(t, yes) && Library(name)
    ensures MainFrame(Import(t, name), []) && CanPrint(Import(t, name), yes || name == "output")
  {
    if name == "input" {
      MagicHolds(t, "readln", MAGIC_READLN);
      MagicHolds(AddMagic(t, "readln", MAGIC_READLN), "read", MAGIC_READ);
    } else {
      MagicHolds(t, "writeln", MAGIC_WRITELN);
      MagicHolds(AddMagic(t, "writeln", MAGIC_WRITELN), "write", MAGIC_WRITE);
    }
  }

  // One declaration of integers in main.
  lemma DeclareHolds(t: Tab, before: seq<string>, more: seq<string>, yes: bool)
    requires MainFrame(t, before) && CanPrint(t, yes)
    ensures AddDecls(t, Decls(more, AstType.Plain(Integer)), Int32(8 * |before|), true).Some? <==> Fresh(before, more)
    ensures AddDecls(t, Decls(more, AstType.Plain(Integer)), Int32(8 * |before|), true).Some? ==>
            var p := AddDecls(t, Decls(more, AstType.Plain(Integer)), Int32(8 * |before|), true).value;
            MainFrame(p.0, before + more) && CanPrint(p.0, yes) && p.1 == Int32(8 * |before + more|)
  {
    var d := Decls(more, AstType.Plain(Integer));
    NamesHold(t, before, more);
    if AddDecls(t, d, Int32(8 * |before|), true).Some? {
      AddDeclsOk(t, d, Int32(8 * |before|), true);
      var u := AddDecls(t, d, Int32(8 * |before|), true).value.0;
      assert Resolve(u.Chain(), Funcs, "write") == Resolve(t.Chain(), Funcs, "write");
      assert Resolve(u.Chain(), Funcs, "writeln") == Resolve(t.Chain(), Funcs, "writeln");
    }
  }

  // The table on entry to the global scope.
  lemma GlobalScope(t: Tab)
    requires IsInitial(t)
    ensures MainFrame(Note(t, Enter), []) && CanPrint(Note(t, Enter), false)
  {
    InitialOk(t);
    NoteOk(t, Note(t, Enter), Enter);
    var c := Note(t, Enter).Chain();
    assert c == [EmptyScope] && c[..0] == [];
  }
}
