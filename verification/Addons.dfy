/** Which addons to install (addons.py): a depth-first walk over dependencies that shares one set of
    visited names. */
module Addons {
  datatype Addon = Addon(name: string, dependencies: seq<string>)

  datatype Answer = Found(addon: Addon) | NotFound

  datatype Outcome = Listed(addons: seq<Addon>) | Missing(name: string)

  // Entries before this one have other names.
  ghost predicate FirstNamed(table: seq<Addon>, addon: Addon, name: string) {
    exists i :: 0 <= i < |table| && table[i] == addon && addon.name == name
                && forall j :: 0 <= j < i ==> table[j].name != name
  }

  ghost predicate NoneNamed(table: seq<Addon>, name: string) { forall a :: a in table ==> a.name != name }

  // The first addon of that name.
  function Named(table: seq<Addon>, name: string): (r: Answer)
    ensures r.Found? ==> FirstNamed(table, r.addon, name)
    ensures r.NotFound? <==> NoneNamed(table, name)
  {
    if table == [] then NotFound
    else if table[0].name == name then Found(table[0])
    else Named(table[1..], name)
  }

  // get_addons; where the program ends, `NotFound`.
  method GetAddons(table: seq<Addon>, name: string) returns (r: Answer)
    ensures r == Named(table, name)
    ensures r.Found? ==> FirstNamed(table, r.addon, name)
    ensures r.NotFound? <==> NoneNamed(table, name)
  {
    hide FirstNamed, NoneNamed;
    var i := 0;
    while i < |table|
      invariant i <= |table| && Named(table, name) == Named(table[i..], name)
    {
      if table[i].name == name { return Found(table[i]); }
      i := i + 1;
    }
    r := NotFound;
  }

  function Deps(table: seq<Addon>, name: string): seq<string> {
    match Named(table, name) case Found(a) => a.dependencies case NotFound => []
  }

  ghost predicate Path(table: seq<Addon>, p: seq<string>) {
    p != [] && forall i :: 0 <= i < |p| - 1 ==> p[i + 1] in Deps(table, p[i])
  }

  ghost predicate PathFromTo(table: seq<Addon>, p: seq<string>, a: string, b: string) {
    Path(table, p) && p[0] == a && p[|p| - 1] == b
  }

  ghost predicate Reaches(table: seq<Addon>, a: string, b: string) { exists p :: PathFromTo(table, p, a, b) }

  lemma ReachesSelf(table: seq<Addon>, a: string)
    ensures Reaches(table, a, a)
  {
    assert PathFromTo(table, [a], a, a);
  }

  // A dependency of a reaches whatever it reaches from a too.
  lemma ReachesOn(table: seq<Addon>, a: string, d: string, b: string)
    requires d in Deps(table, a) && Reaches(table, d, b)
    ensures Reaches(table, a, b)
  {
    var p :| PathFromTo(table, p, d, b);
    var q := [a] + p;
    assert PathFromTo(table, q, a, b);
  }

  // A set that holds a and the dependencies of its members holds all that a reaches.
  lemma {:induction false} ClosedHoldsAll(table: seq<Addon>, s: set<string>, p: seq<string>, i: nat)
    requires Path(table, p) && p[0] in s && i < |p| && forall n, d :: n in s && d in Deps(table, n) ==> d in s
    ensures p[i] in s
  {
    if i == 0 {
    } else {
      ClosedHoldsAll(table, s, p, i - 1);
    }
  }

  function Names(addons: seq<Addon>): set<string> { set a | a in addons :: a.name }

  lemma NamesJoin(a: seq<Addon>, b: seq<Addon>)
    ensures Names(a + b) == Names(a) + Names(b)
  {
  }

  // No name twice.
  ghost predicate Once(addons: seq<Addon>) {
    forall i, j :: 0 <= i < j < |addons| ==> addons[i].name != addons[j].name
  }

  lemma NameAt(addons: seq<Addon>, i: nat)
    requires i < |addons|
    ensures addons[i].name in Names(addons)
  {
  }

  lemma OnceJoin(a: seq<Addon>, b: seq<Addon>)
    requires Once(a) && Once(b) && Names(a) !! Names(b)
    ensures Once(a + b)
  {
    forall i, j | 0 <= i < j < |a + b| ensures (a + b)[i].name != (a + b)[j].name {
      if i < |a| { NameAt(a, i); }
      if j >= |a| { NameAt(b, j - |a|); }
    }
  }

  // The dependency d of the i-th addon stands before it, was visited before, or needs that addon itself.
  ghost predicate InOrder(table: seq<Addon>, before: set<string>, addons: seq<Addon>, i: nat, d: string)
    requires i < |addons|
  {
    d in Names(addons[..i]) || d in before || Reaches(table, d, addons[i].name)
  }

  // What a list is that was made starting from `before`.
  ghost predicate Walked(table: seq<Addon>, root: string, before: set<string>, addons: seq<Addon>, after: set<string>) {
    && Once(addons) && after == before + Names(addons) && before !! Names(addons)
    && (forall i :: 0 <= i < |addons| ==> Named(table, addons[i].name) == Found(addons[i]))
    && (forall n :: n in Names(addons) ==> Reaches(table, root, n))
    && (forall n, d :: n in Names(addons) && d in Deps(table, n) ==> d in after)
  }

  ghost predicate Sorted(table: seq<Addon>, before: set<string>, addons: seq<Addon>) {
    forall i, d :: 0 <= i < |addons| && d in addons[i].dependencies ==> InOrder(table, before, addons, i, d)
  }

  lemma WalkStart(table: seq<Addon>, root: string, v: set<string>)
    ensures Walked(table, root, v, [], v) && Sorted(table, v, [])
  {
  }

  // One more dependency b of root has been walked.
  lemma WalkJoin(table: seq<Addon>, root: string, b: string, v: set<string>, a: seq<Addon>, v1: set<string>,
                 r: seq<Addon>, v2: set<string>)
    requires Walked(table, root, v, a, v1) && Walked(table, b, v1, r, v2) && b in Deps(table, root)
    ensures Walked(table, root, v, a + r, v2)
  {
    hide Reaches, Named;
    OnceJoin(a, r);
    forall n | n in Names(r) ensures Reaches(table, root, n) { ReachesOn(table, root, b, n); }
  }

  lemma SortedJoin(table: seq<Addon>, root: string, b: string, v0: set<string>, a: seq<Addon>, v1: set<string>,
                   r: seq<Addon>, v2: set<string>)
    requires Walked(table, root, v0 + {root}, a, v1) && Walked(table, b, v1, r, v2) && b in Deps(table, root)
    requires Sorted(table, v0, a) && Sorted(table, v1, r)
    ensures Sorted(table, v0, a + r)
  {
    hide Reaches, Named, Names;
    forall i, d | 0 <= i < |a + r| && d in (a + r)[i].dependencies ensures InOrder(table, v0, a + r, i, d) {
      if i < |a| {
        assert (a + r)[..i] == a[..i];
      } else {
        var k := i - |a|;
        assert InOrder(table, v1, r, k, d);
        assert (a + r)[..i] == a + r[..k];
        NamesJoin(a, r[..k]);
        NameAt(r, k);
        ReachesOn(table, root, b, r[k].name);
      }
    }
  }

  // The addon itself comes last.
  lemma WalkEnd(table: seq<Addon>, addon: Addon, v0: set<string>, a: seq<Addon>, v1: set<string>)
    requires Walked(table, addon.name, v0 + {addon.name}, a, v1) && Sorted(table, v0, a) && addon.name !in v0
    requires Named(table, addon.name) == Found(addon) && forall d :: d in addon.dependencies ==> d in v1
    ensures Walked(table, addon.name, v0, a + [addon], v1) && Sorted(table, v0, a + [addon])
  {
    hide Reaches, Names;
    NamesJoin(a, [addon]);
    OneNamed(addon);
    OnceJoin(a, [addon]);
    ReachesSelf(table, addon.name);
    forall i, d | 0 <= i < |a + [addon]| && d in (a + [addon])[i].dependencies
      ensures InOrder(table, v0, a + [addon], i, d) {
      assert (a + [addon])[..i] == a[..i];
      if i < |a| { assert InOrder(table, v0, a, i, d); } else { assert a[..i] == a; }
    }
  }

  lemma OneNamed(addon: Addon)
    ensures Names([addon]) == {addon.name}
  {
  }

  // Some addon within reach asks for a name that is not there.
  ghost predicate Dangling(table: seq<Addon>, root: string, name: string) {
    NoneNamed(table, name) && exists a :: Reaches(table, root, a) && name in Deps(table, a)
  }

  lemma DanglingOn(table: seq<Addon>, root: string, b: string, name: string)
    requires b in Deps(table, root) && Dangling(table, b, name)
    ensures Dangling(table, root, name)
  {
    var a :| Reaches(table, b, a) && name in Deps(table, a);
    ReachesOn(table, root, b, a);
  }

  class Visitor {
    var visited: set<string>

    constructor ()
      ensures visited == {}
    {
      visited := {};
    }

    method DependenciesRec(table: seq<Addon>, addon: Addon) returns (r: Outcome)
      requires Named(table, addon.name) == Found(addon)
      modifies this
      ensures r.Listed? ==>
              Walked(table, addon.name, old(visited), r.addons, visited) && Sorted(table, old(visited), r.addons)
      ensures r.Listed? ==> addon.name in visited
      ensures r.Missing? ==> Dangling(table, addon.name, r.name)
      decreases Names(table) - visited
    {
      hide Reaches, Walked, Sorted, Dangling;
      if addon.name in visited {
        WalkStart(table, addon.name, visited);
        return Listed([]);
      }
      visited := visited + {addon.name};
      var dependencies := [];
      WalkStart(table, addon.name, visited);
      NothingSorted(table, old(visited));
      var k := 0;
      while k < |addon.dependencies|
        invariant k <= |addon.dependencies| && old(visited) + {addon.name} <= visited
        invariant Walked(table, addon.name, old(visited) + {addon.name}, dependencies, visited)
        invariant Sorted(table, old(visited), dependencies)
        invariant forall i :: 0 <= i < k ==> addon.dependencies[i] in visited
      {
        var dep := addon.dependencies[k];
        var found := GetAddons(table, dep);
        if found.NotFound? {
          ReachesSelf(table, addon.name);
          DanglingHere(table, addon.name, dep);
          return Missing(dep);
        }
        ghost var v1 := visited;
        var more := DependenciesRec(table, found.addon);
        if more.Missing? {
          DanglingOn(table, addon.name, dep, more.name);
          return more;
        }
        WalkGrows(table, dep, v1, more.addons, visited);
        WalkJoin(table, addon.name, dep, old(visited) + {addon.name}, dependencies, v1, more.addons, visited);
        SortedJoin(table, addon.name, dep, old(visited), dependencies, v1, more.addons, visited);
        dependencies := dependencies + more.addons;
        k := k + 1;
      }
      WalkEnd(table, addon, old(visited), dependencies, visited);
      return Listed(dependencies + [addon]);
    }
  }

  lemma NothingSorted(table: seq<Addon>, v: set<string>)
    ensures Sorted(table, v, [])
  {
  }

  lemma DanglingHere(table: seq<Addon>, root: string, name: string)
    requires Named(table, name) == NotFound && name in Deps(table, root)
    ensures Dangling(table, root, name)
  {
    ReachesSelf(table, root);
  }

  lemma WalkGrows(table: seq<Addon>, b: string, v: set<string>, r: seq<Addon>, v2: set<string>)
    requires Walked(table, b, v, r, v2)
    ensures v <= v2
  {
  }

  // ----------------------------------------------------------------- the whole walk

  ghost predicate Acyclic(table: seq<Addon>) {
    forall a, d :: d in Deps(table, a) ==> !Reaches(table, d, a)
  }

  // dependencies_rec with no visited set: exactly what the addon reaches, each once; without
  // cycles every dependency stands before the addon that needs it. It fails exactly when some
  // addon within reach needs one that is not there.
  method Dependencies(table: seq<Addon>, addon: Addon) returns (r: Outcome)
    requires Named(table, addon.name) == Found(addon)
    ensures r.Listed? ==> Once(r.addons) && forall n :: n in Names(r.addons) <==> Reaches(table, addon.name, n)
    ensures r.Listed? ==> forall i, d :: 0 <= i < |r.addons| && d in r.addons[i].dependencies ==>
                                           d in Names(r.addons[..i]) || Reaches(table, d, r.addons[i].name)
    ensures r.Listed? && Acyclic(table) ==>
              forall i, d :: 0 <= i < |r.addons| && d in r.addons[i].dependencies ==> d in Names(r.addons[..i])
    ensures r.Missing? <==> exists n :: Dangling(table, addon.name, n)
    ensures r.Missing? ==> Dangling(table, addon.name, r.name)
    ensures r.Listed? ==> forall i :: 0 <= i < |r.addons| ==> FirstNamed(table, r.addons[i], r.addons[i].name)
  {
    hide Reaches, Dangling, Walked, Sorted, FirstNamed;
    var visitor := new Visitor();
    r := visitor.DependenciesRec(table, addon);
    if r.Listed? {
      WholeWalk(table, addon.name, r.addons, visitor.visited);
      WholeOrder(table, addon.name, r.addons, visitor.visited);
    }
  }

  lemma WholeWalk(table: seq<Addon>, root: string, r: seq<Addon>, v: set<string>)
    requires Walked(table, root, {}, r, v) && root in v
    ensures Once(r) && forall n :: n in Names(r) <==> Reaches(table, root, n)
    ensures forall n :: !Dangling(table, root, n)
    ensures forall i :: 0 <= i < |r| ==> FirstNamed(table, r[i], r[i].name)
  {
    forall n | Reaches(table, root, n) ensures n in Names(r) {
      var p :| PathFromTo(table, p, root, n);
      ClosedHoldsAll(table, v, p, |p| - 1);
    }
    forall a, n | Reaches(table, root, a) && n in Deps(table, a) ensures Named(table, n).Found? {
      AllNamed(table, r, n);
    }
    forall n ensures !Dangling(table, root, n) { assert NoneNamed(table, n) <==> Named(table, n).NotFound?; }
  }

  lemma AllNamed(table: seq<Addon>, r: seq<Addon>, n: string)
    requires n in Names(r) && forall i :: 0 <= i < |r| ==> Named(table, r[i].name) == Found(r[i])
    ensures Named(table, n).Found?
  {
  }

  lemma WholeOrder(table: seq<Addon>, root: string, r: seq<Addon>, v: set<string>)
    requires Walked(table, root, {}, r, v) && Sorted(table, {}, r)
    ensures forall i, d :: 0 <= i < |r| && d in r[i].dependencies ==> d in Names(r[..i]) || Reaches(table, d, r[i].name)
    ensures Acyclic(table) ==> forall i, d :: 0 <= i < |r| && d in r[i].dependencies ==> d in Names(r[..i])
  {
  }
}
