// Lexical scoping, twice: as a stack of maps, and directly on the history of declarations.
module Scoping {
  import opened Basics

  // The three namespaces of a scope.
  datatype Space = Vars | Funcs | Types

  datatype Scope = Scope(vars: map<string, nat>, funcs: map<string, nat>, types: map<string, nat>) {
    function Of(sp: Space): map<string, nat> {
      match sp case Vars => vars case Funcs => funcs case Types => types
    }

    function With(sp: Space, x: string, id: nat): Scope {
      match sp
      case Vars => this.(vars := vars[x := id])
      case Funcs => this.(funcs := funcs[x := id])
      case Types => this.(types := types[x := id])
    }
  }

  const EmptyScope := Scope(map[], map[], map[])

  // Outermost scope first.
  type Chain = seq<Scope>

  datatype Event = Enter | Leave | Bind(sp: Space, name: string, id: nat)

  // ---- the stack of maps ----

  function Happen(c: Chain, e: Event): Chain {
    match e
    case Enter => c + [EmptyScope]
    case Leave => if c == [] then c else c[..|c| - 1]
    case Bind(sp, x, id) => if c == [] then c else c[|c| - 1 := c[|c| - 1].With(sp, x, id)]
  }

  function After(h: seq<Event>): Chain {
    if h == [] then [] else Happen(After(h[..|h| - 1]), h[|h| - 1])
  }

  // Innermost binding first.
  function Resolve(c: Chain, sp: Space, x: string): Option<nat> {
    if c == [] then None
    else if x in c[|c| - 1].Of(sp) then Some(c[|c| - 1].Of(sp)[x])
    else Resolve(c[..|c| - 1], sp, x)
  }

  predicate Local(c: Chain, sp: Space, x: string) {
    c != [] && x in c[|c| - 1].Of(sp)
  }

  // ---- the history ----

  // Leave and Bind happen inside a scope.
  predicate WellFormed(h: seq<Event>) {
    h == [] ||
    (WellFormed(h[..|h| - 1]) && (h[|h| - 1].Enter? || After(h[..|h| - 1]) != []))
  }

  // Search the history backwards, skipping what lies in scopes that have been left: `left` counts the
  // scopes whose Leave has been passed and whose Enter has not.
  function LastLive(h: seq<Event>, sp: Space, x: string, left: nat): Option<nat> {
    if h == [] then None
    else
      var rest := h[..|h| - 1];
      match h[|h| - 1]
      case Leave => LastLive(rest, sp, x, left + 1)
      case Enter => LastLive(rest, sp, x, if left == 0 then 0 else left - 1)
      case Bind(sp', y, id) =>
        if left == 0 && sp' == sp && y == x then Some(id) else LastLive(rest, sp, x, left)
  }

  // The stack resolves every name to its last live declaration.
  lemma {:induction false} ResolveIsLastLive(h: seq<Event>, sp: Space, x: string, left: nat)
    requires WellFormed(h) && left <= |After(h)|
    ensures LastLive(h, sp, x, left) == Resolve(After(h)[..|After(h)| - left], sp, x)
  {
    if h != [] {
      var rest, e := h[..|h| - 1], h[|h| - 1];
      ResolveIsLastLive(rest, sp, x, Before(e, left));
      ResolveAfter(After(rest), e, sp, x, left);
    }
  }

  // Where to look in the chain before e for what lies `left` scopes from the end after e.
  function Before(e: Event, left: nat): nat {
    match e
    case Enter => if left == 0 then 0 else left - 1
    case Leave => left + 1
    case Bind(_, _, _) => left
  }

  // What one event changes in what is seen `left` scopes from the end.
  lemma ResolveAfter(c: Chain, e: Event, sp: Space, x: string, left: nat)
    requires e.Enter? || c != []
    requires left <= |Happen(c, e)|
    ensures Before(e, left) <= |c|
    ensures Resolve(Happen(c, e)[..|Happen(c, e)| - left], sp, x) ==
            if e.Bind? && left == 0 && e.sp == sp && e.name == x then Some(e.id)
            else Resolve(c[..|c| - Before(e, left)], sp, x)
  {
    match e
    case Enter => ResolveAfterEnter(c, sp, x, left);
    case Leave => assert c[..|c| - 1][..|c| - 1 - left] == c[..|c| - (left + 1)];
    case Bind(sp', y, id) => ResolveAfterBind(c, sp', y, id, sp, x, left);
  }

  // A new scope hides nothing.
  lemma ResolveAfterEnter(c: Chain, sp: Space, x: string, left: nat)
    requires left <= |c| + 1
    ensures var d := Happen(c, Enter);
            |d| == |c| + 1 &&
            Resolve(d[..|d| - left], sp, x) == Resolve(c[..|c| - if left == 0 then 0 else left - 1], sp, x)
  {
    var d := Happen(c, Enter);
    if left == 0 {
      assert d[..|d| - 0] == d && d[..|d| - 1] == c && c[..|c| - 0] == c;
    } else {
      assert d[..|d| - left] == c[..|c| - (left - 1)];
    }
  }

  // A binding is seen at once, and only in its own scope, namespace and name.
  lemma ResolveAfterBind(c: Chain, sp': Space, y: string, id: nat, sp: Space, x: string, left: nat)
    requires c != [] && left <= |c|
    ensures var d := Happen(c, Bind(sp', y, id));
            |d| == |c| && Resolve(d[..|d| - left], sp, x) ==
                          if left == 0 && sp' == sp && y == x then Some(id) else Resolve(c[..|c| - left], sp, x)
  {
    var d := Happen(c, Bind(sp', y, id));
    if left == 0 {
      assert d[..|d| - 0] == d && c[..|c| - 0] == c && d[..|d| - 1] == c[..|c| - 1];
    } else {
      assert d[..|d| - left] == c[..|c| - left];
    }
  }

  // ---- what a nested block leaves behind ----

  // The depth of h relative to its start, if it never leaves more scopes than it entered.
  function Depth(h: seq<Event>): Option<nat> {
    if h == [] then Some(0)
    else
      var d := Depth(h[..|h| - 1]);
      match h[|h| - 1]
      case Enter => if d.None? then None else Some(d.value + 1)
      case Leave => if d.None? || d.value == 0 then None else Some(d.value - 1)
      case Bind(_, _, _) => d
  }

  predicate Nested(h: seq<Event>) {
    Depth(h) == Some(0)
  }

  // Inside a block only the block's own scopes change.
  lemma {:induction false} BlockKeepsOuter(before: seq<Event>, h: seq<Event>)
    requires Depth(h).Some?
    ensures var c, d := After(before), After(before + [Enter] + h);
            |d| == |c| + 1 + Depth(h).value && d[..|c|] == c
  {
    var p := before + [Enter];
    if h == [] {
      assert p + h == p && p[..|p| - 1] == before;
      var c := After(before);
      assert (c + [EmptyScope])[..|c|] == c;
    } else {
      var rest := h[..|h| - 1];
      BlockKeepsOuter(before, rest);
      assert (p + h)[..|p + h| - 1] == p + rest && (p + h)[|p + h| - 1] == h[|h| - 1];
    }
  }

  // Entering a scope, any well-nested activity, and leaving restores the chain, and so every resolution.
  lemma RoundTrip(before: seq<Event>, h: seq<Event>)
    requires Nested(h)
    ensures After(before + [Enter] + h + [Leave]) == After(before)
  {
    BlockKeepsOuter(before, h);
    var q := before + [Enter] + h;
    assert (q + [Leave])[..|q + [Leave]| - 1] == q;
  }

  lemma WellFormedAppend(h: seq<Event>, e: Event)
    requires WellFormed(h) && (e.Enter? || After(h) != [])
    ensures WellFormed(h + [e]) && After(h + [e]) == Happen(After(h), e)
  {
    assert (h + [e])[..|h + [e]| - 1] == h;
  }
}
