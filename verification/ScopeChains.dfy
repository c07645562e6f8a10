// The chain of scopes on the heap: hash tables on a doubly linked list, as a refinement of a stack of maps.
module ScopeChains {
  import opened Basics
  import opened Lists
  import opened Hashing
  import opened Tables
  import opened Scoping

  const BUCKETS: nat := 256

  class StabScope {
    const vars: HashTable<string, nat>
    const funcs: HashTable<string, nat>
    const types: HashTable<string, nat>
    ghost var Repr: set<object>

    ghost predicate Valid()
      reads this, Repr
      ensures Valid() ==> this in Repr
    {
      && this in Repr
      && vars in Repr && vars.Repr <= Repr && this !in vars.Repr && vars.Valid()
      && funcs in Repr && funcs.Repr <= Repr && this !in funcs.Repr && funcs.Valid()
      && types in Repr && types.Repr <= Repr && this !in types.Repr && types.Valid()
      && vars.Repr !! funcs.Repr && vars.Repr !! types.Repr && funcs.Repr !! types.Repr
    }

    function Table(sp: Space): HashTable<string, nat> {
      match sp case Vars => vars case Funcs => funcs case Types => types
    }

    ghost function View(): Scope
      reads this, Repr
      requires Valid()
    {
      Scope(vars.M, funcs.M, types.M)
    }

    twostate lemma Same()
      requires old(Valid()) && forall o :: o in old(Repr) ==> unchanged(o)
      ensures Valid() && View() == old(View()) && Repr == old(Repr)
    {
    }

    // stab_scope_new
    constructor ()
      ensures Valid() && fresh(Repr) && View() == EmptyScope
    {
      var v := new HashTable<string, nat>(BUCKETS, HashString);
      var f := new HashTable<string, nat>(BUCKETS, HashString);
      var t := new HashTable<string, nat>(BUCKETS, HashString);
      vars := v;
      funcs := f;
      types := t;
      Repr := {this} + v.Repr + f.Repr + t.Repr;
    }

    method Lookup(sp: Space, x: string) returns (id: Option<nat>)
      requires Valid()
      ensures id == if x in View().Of(sp) then Some(View().Of(sp)[x]) else None
    {
      id := Table(sp).Lookup(x);
    }

    method Insert(sp: Space, x: string, id: nat)
      requires Valid()
      modifies Repr
      ensures Valid() && fresh(Repr - old(Repr)) && old(Repr) <= Repr
      ensures View() == old(View()).With(sp, x, id)
    {
      Table(sp).Insert(x, id);
      Repr := Repr + Table(sp).Repr;
    }
  }

  ghost predicate PairwiseDisjoint(rs: seq<set<object>>) {
    forall i, j :: 0 <= i < j < |rs| ==> rs[i] !! rs[j]
  }

  class ScopeChain {
    const chain: List<StabScope>
    ghost var scopes: Chain            // what the scopes contain
    ghost var own: set<object>         // the memory of the list itself
    ghost var parts: seq<set<object>>  // the memory of each scope
    ghost var Repr: set<object>

    ghost predicate Valid()
      reads this, Repr
      ensures Valid() ==> this in Repr
    {
      && this in Repr && this !in own && own <= Repr
      && Linked()
      && |scopes| == |parts| == |chain.contents|
      && PairwiseDisjoint(parts)
      && (forall i :: 0 <= i < |parts| ==> ScopeOk(i))
    }

    ghost predicate Linked()
      reads `own, own
    {
      chain in own && (forall n :: n in chain.nodes ==> n in own) && chain.Valid()
    }

    // Scope i owns part i and has the bindings of the abstract chain.
    ghost predicate ScopeOk(i: int)
      requires own <= Repr && Linked() && 0 <= i < |chain.contents| && |scopes| == |parts| == |chain.contents|
      reads this, Repr
    {
      var sc := chain.contents[i];
      && parts[i] <= Repr && parts[i] !! own && this !in parts[i]
      && sc in parts[i] && sc.Repr == parts[i] && sc.Valid() && sc.View() == scopes[i]
    }

    // Scopes outside the touched memory are as before.
    twostate lemma KeepScopes(k: int, new touched: set<object>)
      requires old(Valid()) && own <= Repr && Linked() && |scopes| == |parts| == |chain.contents|
      requires 0 <= k <= |old(parts)| && k <= |parts|
      requires old(Repr) <= Repr && forall o :: o in own ==> o in old(own) || fresh(o)
      requires forall o :: o in old(Repr) && o != this && o !in touched ==> unchanged(o)
      requires forall i :: 0 <= i < k ==>
                 && chain.contents[i] == old(chain.contents)[i]
                 && parts[i] == old(parts)[i] && scopes[i] == old(scopes)[i]
                 && parts[i] !! touched
      ensures forall i :: 0 <= i < k ==> ScopeOk(i)
    {
      forall i | 0 <= i < k ensures ScopeOk(i) {
        assert old(ScopeOk(i));
        assert forall o :: o in old(parts[i]) ==> unchanged(o);
      }
    }

    constructor ()
      ensures Valid() && fresh(Repr) && scopes == []
    {
      var c := new List<StabScope>.Empty();
      chain := c;
      scopes := [];
      parts := [];
      own := {c, c.inner};
      Repr := {this, c, c.inner};
      new;
      assert Linked();
    }

    // stab_enter
    method Push()
      requires Valid()
      modifies this, own
      ensures Valid() && fresh(Repr - old(Repr)) && old(Repr) <= Repr
      ensures scopes == Happen(old(scopes), Enter)
    {
      hide PairwiseDisjoint, ScopeOk;
      var sc := new StabScope();
      Link(sc);
      scopes := scopes + [EmptyScope];
      parts := parts + [sc.Repr];
      Repr := Repr + own + sc.Repr;
      Pushed(sc);
    }

    // list_add on the chain
    method Link(sc: StabScope)
      requires Linked() && this !in own
      modifies `own, own
      ensures Linked() && chain.contents == old(chain.contents) + [sc]
      ensures own == old(own) + {chain.last} && (chain.last in old(own) || fresh(chain.last))
    {
      chain.Add(sc);
      own := own + {chain.last};
    }

    twostate lemma Pushed(new sc: StabScope)
      requires old(Valid()) && this !in own && own <= Repr && Linked()
      requires scopes == old(scopes) + [EmptyScope] && chain.contents == old(chain.contents) + [sc]
      requires parts == old(parts) + [sc.Repr]
      requires fresh(sc.Repr) && sc.Valid() && sc.View() == EmptyScope
      requires old(Repr) <= Repr && sc.Repr <= Repr && sc.Repr !! own
      requires forall o :: o in own ==> o in old(own) || fresh(o)
      requires forall o :: o in old(Repr) && o != this && o !in old(own) ==> unchanged(o)
      ensures Valid()
    {
      var n := |old(parts)|;
      forall i | 0 <= i < n ensures parts[i] !! old(own) && parts[i] !! sc.Repr { assert old(ScopeOk(i)); }
      KeepScopes(n, old(own));
      assert ScopeOk(n);
    }

    // stab_leave, which never removes the outermost scope.
    method Pop()
      requires Valid() && |scopes| >= 2
      modifies this, own
      ensures Valid() && Repr == old(Repr)
      ensures scopes == Happen(old(scopes), Leave)
    {
      var sc := chain.Pop();
      scopes := scopes[..|scopes| - 1];
      parts := parts[..|parts| - 1];
      Popped();
    }

    twostate lemma Popped()
      requires old(Valid()) && own == old(own) && Repr == old(Repr) && Linked()
      requires |old(scopes)| >= 2 && scopes == old(scopes)[..|old(scopes)| - 1]
      requires chain.contents == old(chain.contents)[..|scopes|] && parts == old(parts)[..|scopes|]
      requires forall o :: o in old(Repr) && o != this && o !in old(own) ==> unchanged(o)
      ensures Valid()
    {
      forall i | 0 <= i < |parts| ensures parts[i] !! old(own) { assert old(ScopeOk(i)); }
      KeepScopes(|parts|, old(own));
    }

    // The walk from the last scope backwards; None is RESOLVE_FAILURE.
    method Find(sp: Space, x: string) returns (id: Option<nat>)
      requires Valid()
      ensures id == Resolve(scopes, sp, x)
    {
      hide PairwiseDisjoint;
      var temp: Node?<StabScope> := chain.last;
      ghost var k := |chain.nodes|;
      assert scopes[..|scopes|] == scopes;
      while temp != null
        invariant 0 <= k <= |chain.nodes|
        invariant temp == if k > 0 then chain.nodes[k - 1] else null
        invariant Resolve(scopes, sp, x) == Resolve(scopes[..if |scopes| == 0 then 0 else k], sp, x)
        decreases k
      {
        if temp.elt.Some? {
          assert ScopeOk(k - 1);
          id := temp.elt.value.Lookup(sp, x);
          if id.Some? {
            return;
          }
          assert scopes[..k][..k - 1] == scopes[..k - 1];
        }
        assert chain.LinkedAt(k - 1);
        temp := temp.prev;
        k := k - 1;
      }
      return None;
    }

    // A lookup in the innermost scope alone.
    method FindLocal(sp: Space, x: string) returns (found: bool)
      requires Valid() && scopes != []
      ensures found == Local(scopes, sp, x)
    {
      var sc := chain.Last();
      assert ScopeOk(|scopes| - 1);
      var id := sc.value.Lookup(sp, x);
      found := id.Some?;
    }

    // hash_insert into a table of the innermost scope.
    method Bind(sp: Space, x: string, id: nat)
      requires Valid() && scopes != []
      modifies this, Repr - own
      ensures Valid() && fresh(Repr - old(Repr)) && old(Repr) <= Repr
      ensures scopes == Happen(old(scopes), Event.Bind(sp, x, id))
    {
      var sc := chain.Last();
      assert ScopeOk(|scopes| - 1);
      hide Linked, ScopeOk, PairwiseDisjoint;
      InsertInto(sc.value, sp, x, id);
      Record(sc.value);
      Bound(sc.value);
    }

    // The innermost scope has changed.
    ghost method Record(sc: StabScope)
      requires |scopes| == |parts| > 0 && Linked() && this !in own && sc.Valid() && this !in sc.Repr
      modifies `scopes, `parts, `Repr
      ensures scopes == old(scopes)[|old(scopes)| - 1 := old(sc.View())] && parts == old(parts)[|old(parts)| - 1 := sc.Repr]
      ensures Repr == old(Repr) + sc.Repr
      ensures Linked() && sc.Valid() && sc.Repr == old(sc.Repr) && sc.View() == old(sc.View())
    {
      scopes := scopes[|scopes| - 1 := sc.View()];
      parts := parts[|parts| - 1 := sc.Repr];
      Repr := Repr + sc.Repr;
      sc.Same();
    }

    method InsertInto(sc: StabScope, sp: Space, x: string, id: nat)
      requires sc.Valid() && Linked() && this !in own && sc.Repr !! own && this !in sc.Repr
      modifies sc.Repr
      ensures sc.Valid() && fresh(sc.Repr - old(sc.Repr)) && old(sc.Repr) <= sc.Repr && this !in sc.Repr
      ensures sc.View() == old(sc.View()).With(sp, x, id)
      ensures Linked() && sc.Repr !! own && chain.contents == old(chain.contents)
    {
      sc.Insert(sp, x, id);
    }

    twostate lemma Bound(new sc: StabScope)
      requires old(Valid()) && old(scopes) != [] && sc == old(chain.contents)[|old(scopes)| - 1]
      requires chain.contents == old(chain.contents) && own == old(own) && own <= Repr && Linked()
      requires sc.Valid() && fresh(sc.Repr - old(sc.Repr)) && Repr == old(Repr) + sc.Repr
      requires scopes == old(scopes)[|old(scopes)| - 1 := sc.View()]
      requires parts == old(parts)[|old(scopes)| - 1 := sc.Repr]
      requires forall o :: o in old(Repr) && o != this && o !in old(sc.Repr) ==> unchanged(o)
      ensures Valid()
    {
      var n := |scopes| - 1;
      assert old(ScopeOk(n));
      forall i | 0 <= i < n ensures parts[i] !! old(sc.Repr) && parts[i] !! sc.Repr { assert old(ScopeOk(i)); }
      KeepScopes(n, old(sc.Repr));
      assert ScopeOk(n);
    }
  }
}
