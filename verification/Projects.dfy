/** A project and everything it depends on: the depth-first closure that compiling starts from, and the fixpoint the
    drawing uses. */
module Projects {
  datatype Project = Project(id: int, name: string)

  /** source depends on target. */
  datatype Dependency = Dependency(source: int, target: int)

  /** A walk along dependencies. */
  predicate IsWalk(deps: seq<Dependency>, w: seq<int>) {
    w != [] && forall i :: 0 <= i < |w| - 1 ==> Dependency(w[i], w[i + 1]) in deps
  }

  ghost predicate Reaches(deps: seq<Dependency>, a: int, b: int) {
    exists w :: IsWalk(deps, w) && w[0] == a && w[|w| - 1] == b
  }

  /** No dependency leads out of the set, except from where it need not be followed yet. */
  predicate ClosedBut(deps: seq<Dependency>, ids: set<int>, open: set<int>) {
    forall i :: 0 <= i < |deps| && deps[i].source in ids && deps[i].source !in open ==> deps[i].target in ids
  }

  function Mentioned(deps: seq<Dependency>, root: int): set<int> {
    {root} + set i | 0 <= i < |deps| :: deps[i].target
  }

  lemma ReachesItself(deps: seq<Dependency>, a: int)
    ensures Reaches(deps, a, a)
  {
    assert IsWalk(deps, [a]) && [a][0] == a && [a][|[a]| - 1] == a;
  }

  lemma ReachesNext(deps: seq<Dependency>, a: int, d: Dependency)
    requires Reaches(deps, a, d.source) && d in deps
    ensures Reaches(deps, a, d.target)
  {
    var w :| IsWalk(deps, w) && w[0] == a && w[|w| - 1] == d.source;
    var longer := w + [d.target];
    forall i | 0 <= i < |longer| - 1 ensures Dependency(longer[i], longer[i + 1]) in deps {
      if i == |w| - 1 {
        assert Dependency(longer[i], longer[i + 1]) == d;
      }
    }
    assert IsWalk(deps, longer) && longer[0] == a && longer[|longer| - 1] == d.target;
  }

  /** A walk does not leave a closed set. */
  lemma {:induction false} WalkStays(deps: seq<Dependency>, ids: set<int>, w: seq<int>)
    requires ClosedBut(deps, ids, {}) && IsWalk(deps, w) && w[0] in ids
    ensures w[|w| - 1] in ids
  {
    if |w| > 1 {
      var i :| 0 <= i < |deps| && deps[i] == Dependency(w[0], w[1]);
      assert deps[i].target in ids;
      forall k | 0 <= k < |w[1..]| - 1 ensures Dependency(w[1..][k], w[1..][k + 1]) in deps {
        assert Dependency(w[k + 1], w[k + 2]) in deps;
      }
      WalkStays(deps, ids, w[1..]);
    }
  }

  /** A closed set that holds root, and holds nothing root does not reach, is exactly what root reaches. */
  lemma ClosureIsReached(deps: seq<Dependency>, root: int, ids: set<int>)
    requires ClosedBut(deps, ids, {}) && root in ids && forall v :: v in ids ==> Reaches(deps, root, v)
    ensures forall v :: v in ids <==> Reaches(deps, root, v)
  {
    forall v | Reaches(deps, root, v) ensures v in ids {
      var w :| IsWalk(deps, w) && w[0] == root && w[|w| - 1] == v;
      WalkStays(deps, ids, w);
    }
  }

  class Collector {
    var visited: set<int>
    const root: int
    const deps: seq<Dependency>

    constructor (root: int, deps: seq<Dependency>)
      ensures visited == {} && this.root == root && this.deps == deps
    {
      visited, this.root, this.deps := {}, root, deps;
    }

    /** Marks id and, depth first, all it depends on. What was marked before keeps what it still owes. */
    method Collect(id: int)
      requires id in Mentioned(deps, root) && Reaches(deps, root, id)
      requires forall v :: v in visited ==> Reaches(deps, root, v)
      modifies this
      ensures old(visited) + {id} <= visited
      ensures forall v :: v in visited ==> Reaches(deps, root, v)
      ensures ClosedBut(deps, visited, old(visited))
      decreases Mentioned(deps, root) - visited
    {
      if id in visited {
        return;
      }
      visited := visited + {id};
      for i := 0 to |deps|
        invariant old(visited) + {id} <= visited
        invariant forall v :: v in visited ==> Reaches(deps, root, v)
        invariant ClosedBut(deps, visited, old(visited) + {id})
        invariant forall k :: 0 <= k < i && deps[k].source == id ==> deps[k].target in visited
      {
        if deps[i].source == id {
          ReachesNext(deps, root, deps[i]);
          Collect(deps[i].target);
        }
      }
    }
  }

  lemma HasMember(ids: set<int>)
    ensures ids == {} || exists id :: id in ids
  {
    if forall id :: id !in ids {
      assert ids == {};
    }
  }

  /** The projects of a set, in any order; one the store does not have is left out. */
  method Load(store: map<int, Project>, ids: set<int>) returns (result: seq<Project>)
    requires forall id :: id in store ==> store[id].id == id
    ensures forall i, j :: 0 <= i < j < |result| ==> result[i].id != result[j].id
    ensures forall p :: p in result <==> p.id in ids && p.id in store && store[p.id] == p
  {
    result := [];
    var left := ids;
    while left != {}
      invariant left <= ids
      invariant forall i, j :: 0 <= i < j < |result| ==> result[i].id != result[j].id
      invariant forall p :: p in result <==> p.id in ids && p.id !in left && p.id in store && store[p.id] == p
    {
      HasMember(left);
      var id :| id in left;
      left := left - {id};
      if id in store {
        result := result + [store[id]];
      }
    }
  }

  /** A project and all it depends on, directly or not: each of them that the store has, once. */
  method ResolveProjectSet(store: map<int, Project>, root: int, deps: seq<Dependency>) returns (result: seq<Project>)
    requires forall id :: id in store ==> store[id].id == id
    ensures forall i, j :: 0 <= i < j < |result| ==> result[i].id != result[j].id
    ensures forall p :: p in result <==> Reaches(deps, root, p.id) && p.id in store && store[p.id] == p
  {
    var c := new Collector(root, deps);
    ReachesItself(deps, root);
    c.Collect(root);
    ClosureIsReached(deps, root, c.visited);
    result := Load(store, c.visited);
  }

  /** The projects, and the dependencies, that root reaches, in their order. */
  ghost function ReachedProjects(deps: seq<Dependency>, root: int, projects: seq<Project>): seq<Project> {
    if projects == [] then []
    else
      var p := projects[|projects| - 1];
      ReachedProjects(deps, root, projects[..|projects| - 1]) + if Reaches(deps, root, p.id) then [p] else []
  }

  ghost function ReachedDependencies(deps: seq<Dependency>, root: int, some: seq<Dependency>): seq<Dependency> {
    if some == [] then []
    else
      var d := some[|some| - 1];
      ReachedDependencies(deps, root, some[..|some| - 1])
      + if Reaches(deps, root, d.source) && Reaches(deps, root, d.target) then [d] else []
  }

  /** The fixpoint: it grows while some dependency leads out of it. */
  method Reachable(root: int, deps: seq<Dependency>) returns (seen: set<int>)
    ensures forall v :: v in seen <==> Reaches(deps, root, v)
  {
    seen := {root};
    ReachesItself(deps, root);
    var changed := true;
    while changed
      invariant root in seen && seen <= Mentioned(deps, root) && forall v :: v in seen ==> Reaches(deps, root, v)
      invariant !changed ==> ClosedBut(deps, seen, {})
      decreases Mentioned(deps, root) - seen, changed
    {
      changed := false;
      ghost var before := seen;
      for i := 0 to |deps|
        invariant before <= seen <= Mentioned(deps, root) && forall v :: v in seen ==> Reaches(deps, root, v)
        invariant changed <==> seen != before
        invariant !changed ==> forall k :: 0 <= k < i && deps[k].source in seen ==> deps[k].target in seen
      {
        var d := deps[i];
        if d.source in seen && d.target !in seen {
          ReachesNext(deps, root, d);
          seen, changed := seen + {d.target}, true;
        }
      }
    }
    ClosureIsReached(deps, root, seen);
  }

  /** The projects that root reaches, by a fixpoint, and the dependencies among them, in their order. */
  method FilterSubgraph(root: int, projects: seq<Project>, deps: seq<Dependency>)
    returns (ps: seq<Project>, ds: seq<Dependency>)
    ensures ps == ReachedProjects(deps, root, projects) && ds == ReachedDependencies(deps, root, deps)
  {
    hide Reaches;
    var reachable := Reachable(root, deps);
    ps := [];
    for i := 0 to |projects|
      invariant ps == ReachedProjects(deps, root, projects[..i])
    {
      assert projects[..i + 1][..i] == projects[..i];
      if projects[i].id in reachable {
        ps := ps + [projects[i]];
      }
    }
    assert projects[..|projects|] == projects;
    ds := [];
    for i := 0 to |deps|
      invariant ds == ReachedDependencies(deps, root, deps[..i])
    {
      assert deps[..i + 1][..i] == deps[..i];
      if deps[i].source in reachable && deps[i].target in reachable {
        ds := ds + [deps[i]];
      }
    }
    assert deps[..|deps|] == deps;
  }
}
