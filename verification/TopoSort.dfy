/** Kahn's algorithm: dependencies before dependents, or the projects that wait for a cycle. */
module TopoSort {
  import opened Wrappers
  import opened Projects

  function Ids(ps: seq<Project>): set<int> {
    set i | 0 <= i < |ps| :: ps[i].id
  }

  predicate DistinctIds(ps: seq<Project>) {
    forall i, j :: 0 <= i < j < |ps| ==> ps[i].id != ps[j].id
  }

  /** A dependency on or of a project outside the set is ignored. */
  predicate Inside(d: Dependency, ids: set<int>) {
    d.source in ids && d.target in ids
  }

  /** Each project comes after all that it depends on in the set. */
  predicate Ordered(sorted: seq<Project>, deps: seq<Dependency>, ids: set<int>) {
    forall i, k :: 0 <= i < |sorted| && 0 <= k < |deps| && Inside(deps[k], ids) && deps[k].source == sorted[i].id ==>
      deps[k].target in Ids(sorted[..i])
  }

  /** Along dependencies inside the set, a walk from v comes back to where it was. */
  ghost predicate MeetsCycle(deps: seq<Dependency>, ids: set<int>, v: int) {
    exists w :: IsWalk(deps, w) && w[0] == v && (forall i :: 0 <= i < |w| ==> w[i] in ids) && Repeats(w)
  }

  predicate Repeats(w: seq<int>) {
    exists i, j :: 0 <= i < j < |w| && w[i] == w[j]
  }

  // ----- what a project waits for -----

  /** How many dependencies of v, counted with repetition, are not done. */
  function Waiting(deps: seq<Dependency>, ids: set<int>, done: set<int>, v: int): nat {
    if deps == [] then 0
    else
      var d := deps[|deps| - 1];
      Waiting(deps[..|deps| - 1], ids, done, v) + if Inside(d, ids) && d.source == v && d.target !in done then 1 else 0
  }

  /** The dependents of t, with repetition, in order. */
  function DependentsOf(deps: seq<Dependency>, ids: set<int>, t: int): seq<int> {
    if deps == [] then []
    else
      var d := deps[|deps| - 1];
      DependentsOf(deps[..|deps| - 1], ids, t) + if Inside(d, ids) && d.target == t then [d.source] else []
  }

  lemma {:induction false} WaitingForNone(deps: seq<Dependency>, ids: set<int>, done: set<int>, v: int)
    ensures Waiting(deps, ids, done, v) == 0 <==>
            forall k :: 0 <= k < |deps| && Inside(deps[k], ids) && deps[k].source == v ==> deps[k].target in done
  {
    if deps != [] {
      var front := deps[..|deps| - 1];
      WaitingForNone(front, ids, done, v);
      assert forall k :: 0 <= k < |front| ==> front[k] == deps[k];
    }
  }

  /** When t is done, each project waits for one less as often as it depends on t. */
  lemma {:induction false} WaitingLess(deps: seq<Dependency>, ids: set<int>, done: set<int>, t: int, v: int)
    requires t !in done
    ensures Waiting(deps, ids, done, v) == Waiting(deps, ids, done + {t}, v) + multiset(DependentsOf(deps, ids, t))[v]
  {
    if deps != [] {
      WaitingLess(deps[..|deps| - 1], ids, done, t, v);
    }
  }

  lemma {:induction false} DependentsInside(deps: seq<Dependency>, ids: set<int>, t: int)
    ensures forall j :: 0 <= j < |DependentsOf(deps, ids, t)| ==> DependentsOf(deps, ids, t)[j] in ids
  {
    if deps != [] {
      DependentsInside(deps[..|deps| - 1], ids, t);
    }
  }

  // ----- the algorithm -----

  predicate DistinctInts(s: seq<int>) {
    forall i, j :: 0 <= i < j < |s| ==> s[i] != s[j]
  }

  lemma NoDependencies(ids: set<int>)
    ensures forall v :: Waiting([], ids, {}, v) == 0 && DependentsOf([], ids, v) == []
  {}

  lemma OneDependency(deps: seq<Dependency>, ids: set<int>, i: nat)
    requires i < |deps|
    ensures forall v :: Waiting(deps[..i + 1], ids, {}, v)
                        == Waiting(deps[..i], ids, {}, v) + if Inside(deps[i], ids) && deps[i].source == v then 1 else 0
    ensures forall t :: DependentsOf(deps[..i + 1], ids, t)
                        == DependentsOf(deps[..i], ids, t) + if Inside(deps[i], ids) && deps[i].target == t
                            then [deps[i].source] else []
  {
    assert deps[..i + 1][..i] == deps[..i];
  }

  method Degrees(ids: set<int>, deps: seq<Dependency>) returns (inDegree: map<int, int>, adjacency: map<int, seq<int>>)
    ensures inDegree.Keys == ids && forall v :: v in ids ==> inDegree[v] == Waiting(deps, ids, {}, v)
    ensures forall t :: (if t in adjacency then adjacency[t] else []) == DependentsOf(deps, ids, t)
  {
    inDegree := map v | v in ids :: 0;
    adjacency := map[];
    NoDependencies(ids);
    hide Waiting, DependentsOf;
    for i := 0 to |deps|
      invariant inDegree.Keys == ids && forall v :: v in ids ==> inDegree[v] == Waiting(deps[..i], ids, {}, v)
      invariant forall t :: (if t in adjacency then adjacency[t] else []) == DependentsOf(deps[..i], ids, t)
    {
      var dep := deps[i];
      OneDependency(deps, ids, i);
      if dep.source in inDegree && dep.target in ids {
        inDegree := inDegree[dep.source := inDegree[dep.source] + 1];
        var dependents := if dep.target in adjacency then adjacency[dep.target] else [];
        adjacency := adjacency[dep.target := dependents + [dep.source]];
      }
    }
    assert deps[..|deps|] == deps;
  }

  /** A project is done: each of its dependents waits for one less, and is queued when it waits for none. */
  method Release(dependents: seq<int>, inDegree0: map<int, int>, queue0: seq<int>)
    returns (inDegree: map<int, int>, queue: seq<int>)
    requires forall j :: 0 <= j < |dependents| ==> dependents[j] in inDegree0
    requires forall v :: v in inDegree0 ==> inDegree0[v] >= multiset(dependents)[v]
    ensures inDegree.Keys == inDegree0.Keys
    ensures forall v :: v in inDegree ==> inDegree[v] == inDegree0[v] - multiset(dependents)[v]
    ensures queue0 <= queue && DistinctInts(queue[|queue0|..])
    ensures forall v :: v in queue[|queue0|..] <==> v in inDegree && inDegree[v] == 0 && inDegree0[v] > 0
  {
    inDegree, queue := inDegree0, queue0;
    ghost var released: seq<int> := [];
    for j := 0 to |dependents|
      invariant inDegree.Keys == inDegree0.Keys
      invariant forall v :: v in inDegree ==> inDegree[v] == inDegree0[v] - multiset(dependents[..j])[v]
      invariant queue == queue0 + released && DistinctInts(released)
      invariant forall v :: v in released <==> v in inDegree && inDegree[v] == 0 && inDegree0[v] > 0
    {
      var d := dependents[j];
      CountOneMore(dependents, j);
      inDegree := inDegree[d := inDegree[d] - 1];
      if inDegree[d] == 0 {
        queue := queue + [d];
        released := released + [d];
      }
    }
    assert dependents[..|dependents|] == dependents && queue[|queue0|..] == released;
  }

  lemma CountOneMore(s: seq<int>, j: nat)
    requires j < |s|
    ensures forall v :: multiset(s[..j + 1])[v] == multiset(s[..j])[v] + if v == s[j] then 1 else 0
    ensures multiset(s[..j])[s[j]] < multiset(s)[s[j]]
  {
    assert s[..j + 1] == s[..j] + [s[j]];
    assert s == s[..j] + [s[j]] + s[j + 1..];
  }

  /** Between two rounds. */
  ghost predicate Round(ids: set<int>, deps: seq<Dependency>, inDegree: map<int, int>, queue: seq<int>,
                        sorted: seq<Project>)
  {
    && inDegree.Keys == ids
    && (forall v :: v in ids ==> inDegree[v] == Waiting(deps, ids, Ids(sorted), v))
    && DistinctIds(sorted) && DistinctInts(queue)
    && (forall v :: v in queue ==> v !in Ids(sorted))
    && (forall v :: v in queue || v in Ids(sorted) <==> v in ids && inDegree[v] == 0)
    && Ordered(sorted, deps, ids)
  }

  lemma RoundStarts(ids: set<int>, deps: seq<Dependency>, inDegree: map<int, int>, queue: seq<int>)
    requires inDegree.Keys == ids && forall v :: v in ids ==> inDegree[v] == Waiting(deps, ids, {}, v)
    requires DistinctInts(queue) && forall v :: v in queue <==> v in ids && inDegree[v] == 0
    ensures Round(ids, deps, inDegree, queue, [])
  {
    assert Ids([]) == {};
  }

  /** What releasing the first of the queue needs. */
  lemma CanRelease(ids: set<int>, deps: seq<Dependency>, inDegree: map<int, int>, queue: seq<int>, sorted: seq<Project>)
    requires Round(ids, deps, inDegree, queue, sorted) && queue != []
    ensures var dependents := DependentsOf(deps, ids, queue[0]);
            && (forall j :: 0 <= j < |dependents| ==> dependents[j] in inDegree)
            && (forall v :: v in inDegree ==> inDegree[v] >= multiset(dependents)[v])
  {
    DependentsInside(deps, ids, queue[0]);
    forall v | v in inDegree ensures inDegree[v] >= multiset(DependentsOf(deps, ids, queue[0]))[v] {
      WaitingLess(deps, ids, Ids(sorted), queue[0], v);
    }
  }

  lemma IdsSnoc(sorted: seq<Project>, p: Project)
    ensures Ids(sorted + [p]) == Ids(sorted) + {p.id}
  {
    var longer := sorted + [p];
    assert longer[|sorted|] == p;
    assert forall i :: 0 <= i < |sorted| ==> longer[i] == sorted[i];
  }

  lemma OrderedSnoc(sorted: seq<Project>, p: Project, deps: seq<Dependency>, ids: set<int>)
    requires Ordered(sorted, deps, ids) && Waiting(deps, ids, Ids(sorted), p.id) == 0
    ensures Ordered(sorted + [p], deps, ids)
  {
    WaitingForNone(deps, ids, Ids(sorted), p.id);
    hide Waiting;
    assert (sorted + [p])[..|sorted|] == sorted;
    forall i | 0 <= i < |sorted| ensures (sorted + [p])[..i] == sorted[..i] {}
  }

  lemma RoundKept(ids: set<int>, deps: seq<Dependency>, inDegree: map<int, int>, queue: seq<int>,
                  sorted: seq<Project>, p: Project, degrees: map<int, int>, longer: seq<int>)
    requires Round(ids, deps, inDegree, queue, sorted) && queue != [] && p.id == queue[0]
    requires degrees.Keys == ids
    requires forall v :: v in ids ==> degrees[v] == inDegree[v] - multiset(DependentsOf(deps, ids, queue[0]))[v]
    requires queue[1..] <= longer && DistinctInts(longer[|queue| - 1..])
    requires forall v :: v in longer[|queue| - 1..] <==> v in ids && degrees[v] == 0 && inDegree[v] > 0
    ensures Round(ids, deps, degrees, longer, sorted + [p])
  {
    IdsSnoc(sorted, p);
    assert queue[0] in queue;
    OrderedSnoc(sorted, p, deps, ids);
    forall v | v in ids ensures degrees[v] == Waiting(deps, ids, Ids(sorted + [p]), v) {
      WaitingLess(deps, ids, Ids(sorted), queue[0], v);
    }
    hide Waiting, DependentsOf, Ordered;
    assert longer == queue[1..] + longer[|queue| - 1..];
    QueueKept(ids, inDegree, queue, Ids(sorted), degrees, longer[|queue| - 1..]);
  }

  /** The queue afterwards: what was behind the first, then what it released. */
  lemma QueueKept(ids: set<int>, inDegree: map<int, int>, queue: seq<int>, done: set<int>, degrees: map<int, int>,
                  released: seq<int>)
    requires queue != [] && inDegree.Keys == ids && degrees.Keys == ids && DistinctInts(queue) && DistinctInts(released)
    requires forall v :: v in queue ==> v !in done
    requires forall v :: v in queue || v in done <==> v in ids && inDegree[v] == 0
    requires forall v :: v in ids ==> 0 <= degrees[v] <= inDegree[v]
    requires forall v :: v in released <==> v in ids && degrees[v] == 0 && inDegree[v] > 0
    ensures var after := queue[1..] + released;
            && DistinctInts(after)
            && (forall v :: v in after ==> v !in done + {queue[0]})
            && (forall v :: v in after || v in done + {queue[0]} <==> v in ids && degrees[v] == 0)
  {
    var after := queue[1..] + released;
    assert queue[0] in queue;
    assert forall v :: v in queue <==> v == queue[0] || v in queue[1..];
    assert forall v :: v in after <==> v in queue[1..] || v in released;
    forall i, j | 0 <= i < j < |after| ensures after[i] != after[j] {
      if i < |queue| - 1 <= j {
        assert queue[i + 1] in queue && after[j] in released;
      }
    }
  }

  // ----- cycles -----

  /** From a sorted project, every walk inside the set goes strictly backwards. */
  lemma {:induction false} WalksBack(sorted: seq<Project>, deps: seq<Dependency>, ids: set<int>, w: seq<int>, i: nat,
                                     k: nat)
    requires Ordered(sorted, deps, ids) && IsWalk(deps, w) && forall n :: 0 <= n < |w| ==> w[n] in ids
    requires i < |sorted| && sorted[i].id == w[0] && 0 < k < |w|
    ensures w[k] in Ids(sorted[..i])
    decreases k
  {
    assert Dependency(w[0], w[0 + 1]) in deps;
    var d :| 0 <= d < |deps| && deps[d] == Dependency(w[0], w[1]);
    assert w[1] in Ids(sorted[..i]);
    if k > 1 {
      var j :| 0 <= j < i && sorted[..i][j].id == w[1];
      Tail(deps, w);
      WalksBack(sorted, deps, ids, w[1..], j, k - 1);
      assert w[1..][k - 1] == w[k] && sorted[..j] == sorted[..i][..j];
    }
  }

  lemma Tail(deps: seq<Dependency>, w: seq<int>)
    requires IsWalk(deps, w) && |w| > 1
    ensures IsWalk(deps, w[1..])
  {
    forall k | 0 <= k < |w[1..]| - 1 ensures Dependency(w[1..][k], w[1..][k + 1]) in deps {
      assert Dependency(w[k + 1], w[k + 2]) in deps;
    }
  }

  lemma {:induction false} SortedMeetsNone(sorted: seq<Project>, deps: seq<Dependency>, ids: set<int>, w: seq<int>,
                                           a: nat, b: nat)
    requires Ordered(sorted, deps, ids) && DistinctIds(sorted)
    requires IsWalk(deps, w) && (forall n :: 0 <= n < |w| ==> w[n] in ids) && w[0] in Ids(sorted)
    requires a < b < |w|
    ensures w[a] != w[b]
    decreases a
  {
    var i :| 0 <= i < |sorted| && sorted[i].id == w[0];
    if a == 0 {
      WalksBack(sorted, deps, ids, w, i, b);
    } else {
      WalksBack(sorted, deps, ids, w, i, 1);
      Tail(deps, w);
      SortedMeetsNone(sorted, deps, ids, w[1..], a - 1, b - 1);
    }
  }

  predicate WaitsAmong(deps: seq<Dependency>, stuck: set<int>, v: int) {
    exists k :: 0 <= k < |deps| && deps[k].source == v && deps[k].target in stuck
  }

  /** Each of the stuck waits for one of the stuck. */
  predicate AllWait(deps: seq<Dependency>, stuck: set<int>) {
    forall v {:trigger WaitsAmong(deps, stuck, v)} :: v in stuck ==> WaitsAmong(deps, stuck, v)
  }

  lemma {:induction false} WalkAmong(deps: seq<Dependency>, stuck: set<int>, v: int, n: nat) returns (w: seq<int>)
    requires AllWait(deps, stuck) && v in stuck
    ensures |w| == n + 1 && w[0] == v && IsWalk(deps, w) && forall i :: 0 <= i < |w| ==> w[i] in stuck
    decreases n
  {
    if n == 0 {
      w := [v];
    } else {
      assert WaitsAmong(deps, stuck, v);
      var k :| 0 <= k < |deps| && deps[k].source == v && deps[k].target in stuck;
      var rest := WalkAmong(deps, stuck, deps[k].target, n - 1);
      w := [v] + rest;
      forall i | 0 <= i < |w| - 1 ensures Dependency(w[i], w[i + 1]) in deps {
        if i == 0 {
          assert deps[k] == Dependency(w[0], w[1]);
        } else {
          assert Dependency(rest[i - 1], rest[i]) in deps;
        }
      }
    }
  }

  /** More places than there are ids. */
  lemma {:induction false} MustRepeat(w: seq<int>, ids: set<int>)
    requires |w| > |ids| && forall i :: 0 <= i < |w| ==> w[i] in ids
    ensures Repeats(w)
  {
    var last, front := w[|w| - 1], w[..|w| - 1];
    if last in front {
      var i :| 0 <= i < |front| && front[i] == last;
      assert w[i] == w[|w| - 1];
    } else {
      assert forall i :: 0 <= i < |front| ==> front[i] in ids - {last};
      assert last in ids;
      MustRepeat(front, ids - {last});
      var i, j :| 0 <= i < j < |front| && front[i] == front[j];
      assert w[i] == w[j];
    }
  }

  lemma StuckMeetsCycle(deps: seq<Dependency>, ids: set<int>, stuck: set<int>, v: int)
    requires AllWait(deps, stuck) && v in stuck && stuck <= ids
    ensures MeetsCycle(deps, ids, v)
  {
    var w := WalkAmong(deps, stuck, v, |stuck|);
    MustRepeat(w, stuck);
  }

  /** At the end, what is not sorted is exactly what meets a cycle. */
  lemma UnsortedMeetsCycle(ids: set<int>, deps: seq<Dependency>, inDegree: map<int, int>, sorted: seq<Project>, v: int)
    requires Round(ids, deps, inDegree, [], sorted) && v in ids
    ensures inDegree[v] > 0 <==> v !in Ids(sorted)
    ensures v !in Ids(sorted) <==> MeetsCycle(deps, ids, v)
  {
    var stuck := ids - Ids(sorted);
    forall u | u in stuck ensures WaitsAmong(deps, stuck, u) {
      WaitingForNone(deps, ids, Ids(sorted), u);
      assert inDegree[u] != 0;
    }
    hide Waiting, Ordered;
    if v in stuck {
      StuckMeetsCycle(deps, ids, stuck, v);
    } else if MeetsCycle(deps, ids, v) {
      var w :| IsWalk(deps, w) && w[0] == v && (forall i :: 0 <= i < |w| ==> w[i] in ids) && Repeats(w);
      var a, b :| 0 <= a < b < |w| && w[a] == w[b];
      SortedMeetsNone(sorted, deps, ids, w, a, b);
      assert false;
    }
  }

  lemma {:induction false} AsManyIds(ps: seq<Project>)
    requires DistinctIds(ps)
    ensures |Ids(ps)| == |ps|
  {
    if ps != [] {
      var front, p := ps[..|ps| - 1], ps[|ps| - 1];
      AsManyIds(front);
      IdsSnoc(front, p);
      assert ps == front + [p];
      assert p.id !in Ids(front);
    }
  }

  lemma {:induction false} SubsetOfSize(a: set<int>, b: set<int>)
    requires a <= b && |a| == |b|
    ensures a == b
  {
    forall v | v in b ensures v in a {
      if v !in a {
        assert a <= b - {v};
        Smaller(a, b - {v});
        assert false;
      }
    }
  }

  lemma {:induction false} Smaller(a: set<int>, b: set<int>)
    requires a <= b
    ensures |a| <= |b|
  {
    HasMember(a);
    if a != {} {
      var v :| v in a;
      Smaller(a - {v}, b - {v});
    }
  }

  method Index(projects: seq<Project>) returns (byID: map<int, Project>)
    requires DistinctIds(projects)
    ensures byID.Keys == Ids(projects) && forall id :: id in byID ==> byID[id] in projects && byID[id].id == id
  {
    byID := map[];
    for i := 0 to |projects|
      invariant byID.Keys == Ids(projects[..i]) && forall id :: id in byID ==> byID[id] in projects && byID[id].id == id
    {
      IdsSnoc(projects[..i], projects[i]);
      assert projects[..i + 1] == projects[..i] + [projects[i]];
      byID := byID[projects[i].id := projects[i]];
    }
    assert projects[..|projects|] == projects;
  }

  /** The projects that wait for nothing, in their order. */
  method Seed(projects: seq<Project>, inDegree: map<int, int>) returns (queue: seq<int>)
    requires DistinctIds(projects) && inDegree.Keys == Ids(projects)
    ensures DistinctInts(queue) && forall v :: v in queue <==> v in Ids(projects) && inDegree[v] == 0
  {
    queue := [];
    for i := 0 to |projects|
      invariant DistinctInts(queue) && forall v :: v in queue <==> v in Ids(projects[..i]) && inDegree[v] == 0
    {
      IdsSnoc(projects[..i], projects[i]);
      assert projects[..i + 1] == projects[..i] + [projects[i]];
      assert projects[i].id !in Ids(projects[..i]);
      if inDegree[projects[i].id] == 0 {
        queue := queue + [projects[i].id];
      }
    }
    assert projects[..|projects|] == projects;
  }

  lemma SameProjects(sorted: seq<Project>, projects: seq<Project>)
    requires DistinctIds(projects) && Ids(sorted) == Ids(projects) && forall p :: p in sorted ==> p in projects
    ensures forall p :: p in sorted <==> p in projects
  {
    forall p | p in projects ensures p in sorted {
      var k :| 0 <= k < |projects| && projects[k] == p;
      assert p.id in Ids(projects);
      var i :| 0 <= i < |sorted| && sorted[i].id == p.id;
      assert sorted[i] in projects;
      var j :| 0 <= j < |projects| && projects[j] == sorted[i];
    }
  }

  /** One round: the first of the queue is sorted, and its dependents wait for one less. */
  method Step(ghost ids: set<int>, deps: seq<Dependency>, byID: map<int, Project>, adjacency: map<int, seq<int>>,
              inDegree: map<int, int>, queue: seq<int>, sorted: seq<Project>)
    returns (degrees: map<int, int>, longer: seq<int>, more: seq<Project>)
    requires Round(ids, deps, inDegree, queue, sorted) && queue != [] && byID.Keys == ids
    requires forall id :: id in ids ==> byID[id].id == id
    requires forall t :: (if t in adjacency then adjacency[t] else []) == DependentsOf(deps, ids, t)
    ensures queue[0] in ids && Round(ids, deps, degrees, longer, more) && more == sorted + [byID[queue[0]]]
    ensures queue[0] in Ids(more) && queue[0] !in Ids(sorted) && Ids(sorted) <= Ids(more) <= ids
  {
    hide Ordered, DependentsOf, Waiting;
    var id := queue[0];
    assert id in queue;
    CanRelease(ids, deps, inDegree, queue, sorted);
    IdsSnoc(sorted, byID[id]);
    degrees, longer := Release(if id in adjacency then adjacency[id] else [], inDegree, queue[1..]);
    RoundKept(ids, deps, inDegree, queue, sorted, byID[id], degrees, longer);
    more := sorted + [byID[id]];
  }

  lemma Counted(ids: set<int>, projects: seq<Project>, deps: seq<Dependency>, inDegree: map<int, int>,
                sorted: seq<Project>)
    requires DistinctIds(projects) && ids == Ids(projects) && Round(ids, deps, inDegree, [], sorted)
    ensures |sorted| == |projects| <==> Ids(sorted) == ids
    ensures Ids(sorted) == ids <==> ids - Ids(sorted) == {}
    ensures (set v | v in inDegree && inDegree[v] > 0) == ids - Ids(sorted)
  {
    AsManyIds(sorted);
    AsManyIds(projects);
    forall v | v in ids ensures inDegree[v] > 0 <==> v !in Ids(sorted) {
      UnsortedMeetsCycle(ids, deps, inDegree, sorted, v);
    }
    assert DistinctIds(sorted) && Ids(sorted) <= ids && inDegree.Keys == ids;
    hide Round, MeetsCycle, Ids, DistinctIds;
    if |sorted| == |projects| {
      SubsetOfSize(Ids(sorted), ids);
    }
    SubsetLeaves(Ids(sorted), ids);
  }

  lemma SubsetLeaves(a: set<int>, b: set<int>)
    requires a <= b
    ensures a == b <==> b - a == {}
  {
    if b - a == {} {
      forall v | v in b ensures v in a {
        assert v !in b - a;
      }
    }
  }

  /** As many were sorted as there are, or the error names what was not. */
  method Finish(projects: seq<Project>, deps: seq<Dependency>, inDegree: map<int, int>, sorted: seq<Project>)
    returns (r: Result<seq<Project>, set<int>>)
    requires DistinctIds(projects) && Round(Ids(projects), deps, inDegree, [], sorted)
    ensures r.Ok? ==> r.value == sorted && Ids(sorted) == Ids(projects)
    ensures r.Err? ==> r.error != {} && r.error == Ids(projects) - Ids(sorted)
    ensures forall v :: v in Ids(projects) ==> (v !in Ids(sorted) <==> MeetsCycle(deps, Ids(projects), v))
  {
    hide Round, MeetsCycle, Ids, DistinctIds;
    forall v | v in Ids(projects) ensures v !in Ids(sorted) <==> MeetsCycle(deps, Ids(projects), v) {
      UnsortedMeetsCycle(Ids(projects), deps, inDegree, sorted, v);
    }
    Counted(Ids(projects), projects, deps, inDegree, sorted);
    if |sorted| == |projects| {
      r := Ok(sorted);
    } else {
      r := Err(set v | v in inDegree && inDegree[v] > 0);
    }
  }

  /** The projects, each once, dependencies before dependents. Where that cannot be, the error names exactly the
      projects that meet a cycle. */
  method TopoSort(projects: seq<Project>, deps: seq<Dependency>) returns (r: Result<seq<Project>, set<int>>)
    requires DistinctIds(projects)
    ensures r.Ok? ==> DistinctIds(r.value) && Ordered(r.value, deps, Ids(projects)) && forall p :: p in r.value <==>
        p in projects
    ensures r.Err? ==> r.error != {} && forall v :: v in r.error <==>
        v in Ids(projects) && MeetsCycle(deps, Ids(projects), v)
    ensures r.Ok? <==> forall v :: v in Ids(projects) ==> !MeetsCycle(deps, Ids(projects), v)
  {
    hide MeetsCycle, DependentsOf, Waiting, Ordered, Ids;
    ghost var ids := Ids(projects);
    var byID := Index(projects);
    var inDegree, adjacency := Degrees(byID.Keys, deps);
    var queue := Seed(projects, inDegree);
    var sorted: seq<Project> := [];
    RoundStarts(ids, deps, inDegree, queue);
    while |queue| > 0
      invariant Round(ids, deps, inDegree, queue, sorted) && forall p :: p in sorted ==> p in projects
      decreases ids - Ids(sorted)
    {
      inDegree, queue, sorted := Step(ids, deps, byID, adjacency, inDegree, queue, sorted);
    }
    r := Finish(projects, deps, inDegree, sorted);
    if r.Ok? {
      SameProjects(sorted, projects);
    } else {
      HasMember(r.error);
    }
  }

  // ----- compiling: the closure, then the sort -----

  /** From root, along dependencies, a walk comes back to where it was. */
  ghost predicate ReachesCycle(deps: seq<Dependency>, root: int) {
    exists w :: IsWalk(deps, w) && w[0] == root && Repeats(w)
  }

  lemma WalkReaches(deps: seq<Dependency>, w: seq<int>, i: nat)
    requires IsWalk(deps, w) && i < |w|
    ensures Reaches(deps, w[0], w[i])
  {
    var part := w[..i + 1];
    forall k | 0 <= k < |part| - 1 ensures Dependency(part[k], part[k + 1]) in deps {
      assert Dependency(w[k], w[k + 1]) in deps;
    }
    assert IsWalk(deps, part) && part[0] == w[0] && part[|part| - 1] == w[i];
  }

  lemma WalksJoin(deps: seq<Dependency>, a: seq<int>, b: seq<int>)
    requires IsWalk(deps, a) && IsWalk(deps, b) && a[|a| - 1] == b[0]
    ensures IsWalk(deps, a + b[1..]) && (Repeats(b) ==> Repeats(a + b[1..]))
  {
    var w := a + b[1..];
    forall k | 0 <= k < |w| - 1 ensures Dependency(w[k], w[k + 1]) in deps {
      if k < |a| - 1 {
        assert Dependency(a[k], a[k + 1]) in deps;
      } else {
        assert w[k] == b[k - |a| + 1] && w[k + 1] == b[k - |a| + 2];
        assert Dependency(b[k - |a| + 1], b[k - |a| + 1 + 1]) in deps;
      }
    }
    if Repeats(b) {
      var i, j :| 0 <= i < j < |b| && b[i] == b[j];
      assert w[|a| - 1 + i] == b[i] && w[|a| - 1 + j] == b[j];
    }
  }

  /** A project that the store has and root reaches. */
  ghost predicate Stored(store: map<int, Project>, deps: seq<Dependency>, root: int, v: int) {
    v in store && Reaches(deps, root, v)
  }

  /** Along dependencies between such projects, a walk comes back to where it was. */
  ghost predicate StoredCycle(store: map<int, Project>, deps: seq<Dependency>, root: int) {
    exists w :: IsWalk(deps, w) && AllStored(store, deps, root, w) && Repeats(w)
  }

  ghost predicate AllStored(store: map<int, Project>, deps: seq<Dependency>, root: int, w: seq<int>) {
    forall i :: 0 <= i < |w| ==> Stored(store, deps, root, w[i])
  }

  lemma CycleIsStored(store: map<int, Project>, deps: seq<Dependency>, root: int, ids: set<int>)
    requires forall v :: v in ids <==> Stored(store, deps, root, v)
    ensures (exists v :: v in ids && MeetsCycle(deps, ids, v)) <==> StoredCycle(store, deps, root)
  {
    hide Stored, Repeats;
    if v :| v in ids && MeetsCycle(deps, ids, v) {
      var w :| IsWalk(deps, w) && w[0] == v && (forall i :: 0 <= i < |w| ==> w[i] in ids) && Repeats(w);
      forall i | 0 <= i < |w| ensures Stored(store, deps, root, w[i]) {
        assert w[i] in ids;
      }
      assert AllStored(store, deps, root, w);
    }
    if StoredCycle(store, deps, root) {
      var w :| IsWalk(deps, w) && AllStored(store, deps, root, w) && Repeats(w);
      forall i | 0 <= i < |w| ensures w[i] in ids {
        assert Stored(store, deps, root, w[i]);
      }
      assert w[0] in ids && MeetsCycle(deps, ids, w[0]);
    }
  }

  /** Where the store has everything that is depended on, that is a cycle that root reaches. */
  lemma StoredCycleIsReached(store: map<int, Project>, deps: seq<Dependency>, root: int)
    requires forall v :: Reaches(deps, root, v) ==> v in store
    ensures StoredCycle(store, deps, root) <==> ReachesCycle(deps, root)
  {
    if StoredCycle(store, deps, root) {
      var w :| IsWalk(deps, w) && AllStored(store, deps, root, w) && Repeats(w);
      assert Stored(store, deps, root, w[0]);
      var a :| IsWalk(deps, a) && a[0] == root && a[|a| - 1] == w[0];
      WalksJoin(deps, a, w);
      assert (a + w[1..])[0] == root;
    }
    if ReachesCycle(deps, root) {
      var w :| IsWalk(deps, w) && w[0] == root && Repeats(w);
      forall i | 0 <= i < |w| ensures Stored(store, deps, root, w[i]) {
        WalkReaches(deps, w, i);
      }
      assert AllStored(store, deps, root, w);
    }
  }

  /** A project and all it depends on that the store has, each once, every dependency before its dependents; refused
      exactly when they hold a cycle, which is any that the project reaches when the store lacks none of them. */
  method CompileOrder(store: map<int, Project>, root: int, deps: seq<Dependency>)
    returns (r: Result<seq<Project>, set<int>>)
    requires forall id :: id in store ==> store[id].id == id
    ensures r.Err? <==> StoredCycle(store, deps, root)
    ensures (forall v :: Reaches(deps, root, v) ==> v in store) ==> (r.Err? <==> ReachesCycle(deps, root))
    ensures r.Ok? ==> DistinctIds(r.value) && forall v :: v in Ids(r.value) <==> v in store && Reaches(deps, root, v)
    ensures r.Ok? ==>
        forall i, k ::
        0 <= i < |r.value| && 0 <= k < |deps| && deps[k].source == r.value[i].id && deps[k].target in store ==>
                                       deps[k].target in Ids(r.value[..i])
  {
    var all := ResolveProjectSet(store, root, deps);
    forall v ensures v in Ids(all) <==> v in store && Reaches(deps, root, v) {
      if v in Ids(all) {
        var i :| 0 <= i < |all| && all[i].id == v;
        assert all[i] in all;
      }
      if v in store && Reaches(deps, root, v) {
        assert store[v] in all;
      }
    }
    assert forall v :: v in Ids(all) <==> Stored(store, deps, root, v);
    CycleIsStored(store, deps, root, Ids(all));
    if forall v :: Reaches(deps, root, v) ==> v in store {
      StoredCycleIsReached(store, deps, root);
    }
    hide Reaches, StoredCycle, ReachesCycle, MeetsCycle;
    r := TopoSort(all, deps);
    if r.Ok? {
      InSameOrder(r.value, all);
      ReachedIsClosed(store, deps, root, r.value);
    } else {
      HasMember(r.error);
    }
  }

  lemma InSameOrder(sorted: seq<Project>, all: seq<Project>)
    requires forall p :: p in sorted <==> p in all
    ensures Ids(sorted) == Ids(all)
  {
    forall i | 0 <= i < |sorted| ensures sorted[i].id in Ids(all) {
      assert sorted[i] in all;
    }
    forall i | 0 <= i < |all| ensures all[i].id in Ids(sorted) {
      assert all[i] in sorted;
    }
  }

  lemma ReachedIsClosed(store: map<int, Project>, deps: seq<Dependency>, root: int, sorted: seq<Project>)
    requires (forall v :: v in Ids(sorted) <==> v in store && Reaches(deps, root, v)) &&
        Ordered(sorted, deps, Ids(sorted))
    ensures forall i, k ::
        0 <= i < |sorted| && 0 <= k < |deps| && deps[k].source == sorted[i].id && deps[k].target in store ==>
                             deps[k].target in Ids(sorted[..i])
  {
    hide Reaches;
    forall i, k | 0 <= i < |sorted| && 0 <= k < |deps| && deps[k].source == sorted[i].id && deps[k].target in store
      ensures deps[k].target in Ids(sorted[..i])
    {
      assert sorted[i].id in Ids(sorted);
      ReachesNext(deps, root, deps[k]);
      assert Inside(deps[k], Ids(sorted));
    }
  }
}
