/**
 Regenerating the org chart: a recursive walk from the root worker that fills a dictionary
 of entries in place.

 The workers table is a sequence of rows with distinct ids; nothing is assumed about the
 manager links. They may dangle or form cycles away from the root.
 */
module OrgChart {
  import opened Wrappers
  import opened Basics

  datatype Worker = Worker(id: WorkerId, name: string, role: string, status: string, manager: Option<WorkerId>)

  ghost predicate DistinctIds(table: seq<Worker>) {
    forall i, j :: 0 <= i < j < |table| ==> table[i].id != table[j].id
  }

  /** The direct reports of a worker, in table order. */
  function Reports(table: seq<Worker>, id: WorkerId): seq<Worker> {
    if table == [] then []
    else (if table[0].manager == Some(id) then [table[0]] else []) + Reports(table[1..], id)
  }

  function Ids(ws: seq<Worker>): (ids: seq<WorkerId>)
    ensures |ids| == |ws| && forall i :: 0 <= i < |ws| ==> ids[i] == ws[i].id
  {
    seq(|ws|, i requires 0 <= i < |ws| => ws[i].id)
  }

  datatype Entry = Entry(name: string, role: string, lifecycle: string, manager: Option<WorkerId>,
                         reports: seq<WorkerId>)

  function EntryOf(table: seq<Worker>, w: Worker): Entry {
    Entry(w.name, w.role, w.status, w.manager, Ids(Reports(table, w.id)))
  }

  /** The first worker without a manager, preferring one that is not terminated. */
  function FirstRoot(table: seq<Worker>, live: bool): Option<Worker> {
    if table == [] then None
    else if table[0].manager.None? && (live ==> table[0].status != "terminated") then Some(table[0])
    else FirstRoot(table[1..], live)
  }

  function RootWorker(table: seq<Worker>): Option<Worker> {
    if FirstRoot(table, true).Some? then FirstRoot(table, true) else FirstRoot(table, false)
  }

  /** A worker without a manager that is not terminated. */
  predicate LiveRoot(w: Worker) {
    w.manager.None? && w.status != "terminated"
  }

  // Chains of managers

  /** From a worker without a manager down to the last of the path, each managed by the one before. */
  ghost predicate ManagerPath(table: seq<Worker>, path: seq<Worker>) {
    && path != []
    && (forall k :: 0 <= k < |path| ==> path[k] in table)
    && path[0].manager.None?
    && forall k :: 0 < k < |path| ==> path[k].manager == Some(path[k - 1].id)
  }

  lemma SameIdSameWorker(table: seq<Worker>, a: Worker, b: Worker)
    requires DistinctIds(table) && a in table && b in table && a.id == b.id
    ensures a == b
  {
  }

  /** A worker has at most one chain of managers. */
  lemma {:induction false} PathIsUnique(table: seq<Worker>, p: seq<Worker>, q: seq<Worker>)
    requires DistinctIds(table) && ManagerPath(table, p) && ManagerPath(table, q)
    requires p[|p| - 1] == q[|q| - 1]
    ensures p == q
    decreases |p|
  {
    assert |p| == 1 <==> |q| == 1;
    if |p| == 1 {
      assert p == [p[0]] && q == [q[0]];
    } else {
      SameIdSameWorker(table, p[|p| - 2], q[|q| - 2]);
      PathIsUnique(table, p[..|p| - 1], q[..|q| - 1]);
      assert p == p[..|p| - 1] + [p[|p| - 1]];
      assert q == q[..|q| - 1] + [q[|q| - 1]];
    }
  }

  lemma PathHasNoRepeats(table: seq<Worker>, path: seq<Worker>)
    requires DistinctIds(table) && ManagerPath(table, path)
    ensures forall i, j :: 0 <= i < j < |path| ==> path[i] != path[j]
  {
    forall i, j | 0 <= i < j < |path|
      ensures path[i] != path[j]
    {
      if path[i] == path[j] {
        PathIsUnique(table, path[..i + 1], path[..j + 1]);
        assert false;
      }
    }
  }

  lemma {:induction false} DistinctAreCounted<T>(s: seq<T>)
    requires forall i, j :: 0 <= i < j < |s| ==> s[i] != s[j]
    ensures |set x | x in s| == |s|
  {
    if s != [] {
      DistinctAreCounted(s[1..]);
      assert (set x | x in s) == {s[0]} + (set x | x in s[1..]);
    }
  }

  lemma {:induction false} ElementsAreFew<T>(s: seq<T>)
    ensures |set x | x in s| <= |s|
  {
    if s != [] {
      ElementsAreFew(s[1..]);
      assert (set x | x in s) == {s[0]} + (set x | x in s[1..]);
    }
  }

  lemma SubsetIsSmaller<T>(a: set<T>, b: set<T>)
    requires a <= b
    ensures |a| <= |b|
  {
    assert b == a + (b - a);
  }

  /** What makes the recursion end: no chain is longer than the table. */
  lemma PathFits(table: seq<Worker>, path: seq<Worker>)
    requires DistinctIds(table) && ManagerPath(table, path)
    ensures |path| <= |table|
  {
    PathHasNoRepeats(table, path);
    DistinctAreCounted(path);
    ElementsAreFew(table);
    SubsetIsSmaller(set x | x in path, set x | x in table);
  }

  lemma {:induction false} ReportsAre(table: seq<Worker>, id: WorkerId)
    ensures forall w :: w in Reports(table, id) <==> w in table && w.manager == Some(id)
  {
    if table != [] {
      ReportsAre(table[1..], id);
    }
  }

  lemma {:induction false} ReportsAreDistinct(table: seq<Worker>, id: WorkerId)
    requires DistinctIds(table)
    ensures DistinctIds(Reports(table, id))
  {
    if table != [] {
      ReportsAreDistinct(table[1..], id);
      ReportsAre(table[1..], id);
    }
  }

  // The walk, as a sequence of visits

  /** Workers that may extend a path by one step. */
  ghost predicate Extend(table: seq<Worker>, path: seq<Worker>, workers: seq<Worker>)
    requires path != []
  {
    forall w :: w in workers ==> w in table && w.manager == Some(path[|path| - 1].id)
  }

  ghost function Visits(table: seq<Worker>, path: seq<Worker>): seq<Worker>
    requires DistinctIds(table) && ManagerPath(table, path)
    decreases |table| - |path|, 1, 0
  {
    PathFits(table, path);
    var w := path[|path| - 1];
    ReportsAre(table, w.id);
    [w] + VisitsBelow(table, path, Reports(table, w.id))
  }

  ghost function VisitsBelow(table: seq<Worker>, path: seq<Worker>, workers: seq<Worker>): seq<Worker>
    requires DistinctIds(table) && ManagerPath(table, path) && Extend(table, path, workers)
    decreases |table| - |path|, 0, |workers|
  {
    PathFits(table, path);
    if workers == [] then []
    else Visits(table, path + [workers[0]]) + VisitsBelow(table, path, workers[1..])
  }

  /** Adding the entries of a sequence of workers, in order. */
  ghost function Fill(table: seq<Worker>, chart: map<WorkerId, Entry>, workers: seq<Worker>): map<WorkerId, Entry> {
    if workers == [] then chart
    else
      var last := workers[|workers| - 1];
      Fill(table, chart, workers[..|workers| - 1])[last.id := EntryOf(table, last)]
  }

  lemma {:induction false} FillConcat(table: seq<Worker>, chart: map<WorkerId, Entry>, a: seq<Worker>, b: seq<Worker>)
    ensures Fill(table, chart, a + b) == Fill(table, Fill(table, chart, a), b)
    decreases |b|
  {
    if b == [] {
      assert a + b == a;
    } else {
      assert (a + b)[..|a + b| - 1] == a + b[..|b| - 1];
      FillConcat(table, chart, a, b[..|b| - 1]);
    }
  }

  class Chart {
    var workers: map<WorkerId, Entry>
    ghost var visited: seq<Worker>

    constructor ()
      ensures workers == map[] && visited == []
    {
      workers := map[];
      visited := [];
    }
  }

  lemma FillOne(table: seq<Worker>, chart: map<WorkerId, Entry>, w: Worker)
    ensures Fill(table, chart, [w]) == chart[w.id := EntryOf(table, w)]
  {
    assert [w][..0] == [];
  }

  /** The shape of the walk below a worker. */
  datatype Tree = Node(worker: Worker, children: seq<Tree>)

  ghost function Roots(trees: seq<Tree>): (ws: seq<Worker>)
    ensures |ws| == |trees| && forall i :: 0 <= i < |trees| ==> ws[i] == trees[i].worker
  {
    seq(|trees|, i requires 0 <= i < |trees| => trees[i].worker)
  }

  ghost predicate Follows(table: seq<Worker>, t: Tree)
    decreases t
  {
    Roots(t.children) == Reports(table, t.worker.id) && forall c :: c in t.children ==> Follows(table, c)
  }

  ghost function Preorder(t: Tree): seq<Worker>
    decreases t
  {
    [t.worker] + PreorderAll(t.children)
  }

  ghost function PreorderAll(ts: seq<Tree>): seq<Worker>
    decreases ts
  {
    if ts == [] then [] else Preorder(ts[0]) + PreorderAll(ts[1..])
  }

  /** The tree of a walk exists because no chain of managers is longer than the table. */
  ghost function Grow(table: seq<Worker>, path: seq<Worker>): (t: Tree)
    requires DistinctIds(table) && ManagerPath(table, path)
    ensures t.worker == path[|path| - 1] && Follows(table, t) && Preorder(t) == Visits(table, path)
    decreases |table| - |path|, 1, 0
  {
    PathFits(table, path);
    var w := path[|path| - 1];
    ReportsAre(table, w.id);
    Node(w, GrowAll(table, path, Reports(table, w.id)))
  }

  ghost function GrowAll(table: seq<Worker>, path: seq<Worker>, workers: seq<Worker>): (ts: seq<Tree>)
    requires DistinctIds(table) && ManagerPath(table, path) && Extend(table, path, workers)
    ensures Roots(ts) == workers && (forall t :: t in ts ==> Follows(table, t))
    ensures PreorderAll(ts) == VisitsBelow(table, path, workers)
    decreases |table| - |path|, 0, |workers|
  {
    PathFits(table, path);
    if workers == [] then []
    else
      var first, rest := Grow(table, path + [workers[0]]), GrowAll(table, path, workers[1..]);
      assert ([first] + rest)[1..] == rest;
      [first] + rest
  }

  lemma ChildFollows(table: seq<Worker>, t: Tree, i: nat)
    requires Follows(table, t) && i < |Reports(table, t.worker.id)|
    ensures |t.children| == |Reports(table, t.worker.id)|
    ensures Follows(table, t.children[i]) && t.children[i].worker == Reports(table, t.worker.id)[i]
  {
  }

  lemma PreorderStep(ts: seq<Tree>, i: nat)
    requires i < |ts|
    ensures PreorderAll(ts[i..]) == Preorder(ts[i]) + PreorderAll(ts[i + 1..])
  {
    assert ts[i..][0] == ts[i] && ts[i..][1..] == ts[i + 1..];
  }

  lemma Reassociate(a: seq<Worker>, b: seq<Worker>, c: seq<Worker>)
    ensures (a + b) + c == a + (b + c)
  {
  }

  method BuildWorkerEntry(table: seq<Worker>, w: Worker, chart: Chart, ghost t: Tree)
    requires Follows(table, t) && t.worker == w
    modifies chart
    ensures chart.visited == old(chart.visited) + Preorder(t)
    ensures chart.workers == Fill(table, old(chart.workers), Preorder(t))
    decreases t
  {
    var reports := Reports(table, w.id);
    chart.workers := chart.workers[w.id := Entry(w.name, w.role, w.status, w.manager, Ids(reports))];
    chart.visited := chart.visited + [w];
    FillOne(table, old(chart.workers), w);
    FillConcat(table, old(chart.workers), [w], PreorderAll(t.children));
    assert t.children[0..] == t.children;
    ghost var below := PreorderAll(t.children);
    ghost var visits, entries := chart.visited + below, Fill(table, chart.workers, below);
    Reassociate(old(chart.visited), [w], PreorderAll(t.children));
    assert |t.children| == |reports|;
    for i := 0 to |reports|
      invariant chart.visited + PreorderAll(t.children[i..]) == visits
      invariant Fill(table, chart.workers, PreorderAll(t.children[i..])) == entries
    {
      ghost var child, rest := t.children[i], t.children[i + 1..];
      ChildFollows(table, t, i);
      PreorderStep(t.children, i);
      Reassociate(chart.visited, Preorder(child), PreorderAll(rest));
      FillConcat(table, chart.workers, Preorder(child), PreorderAll(rest));
      BuildWorkerEntry(table, reports[i], chart, child);
    }
  }

  lemma {:induction false} FirstRootIs(table: seq<Worker>, live: bool)
    ensures match FirstRoot(table, live)
            case Some(w) => w in table && w.manager.None? && (live ==> w.status != "terminated")
            case None => forall w :: w in table ==> w.manager.Some? || (live && w.status == "terminated")
  {
    if table != [] {
      FirstRootIs(table[1..], live);
    }
  }

  /** The root is a live one if there is any, and it is the first of its kind in the table. */
  lemma RootIsLive(table: seq<Worker>)
    requires RootWorker(table).Some?
    ensures LiveRoot(RootWorker(table).value) <==> exists w :: w in table && LiveRoot(w)
  {
    FirstRootIs(table, true);
    FirstRootIs(table, false);
  }

  lemma {:induction false} FirstRootIsFirst(table: seq<Worker>, live: bool) returns (k: nat)
    requires FirstRoot(table, live).Some?
    ensures k < |table| && table[k] == FirstRoot(table, live).value
    ensures forall i :: 0 <= i < k ==> table[i].manager.Some? || (live && table[i].status == "terminated")
  {
    if table[0].manager.None? && (live ==> table[0].status != "terminated") {
      k := 0;
    } else {
      var i := FirstRootIsFirst(table[1..], live);
      k := i + 1;
    }
  }

  datatype OrgChartFile = OrgChartFile(root: WorkerId, workers: map<WorkerId, Entry>)
  datatype ChartError = NoRootWorker

  method UpdateOrgChart(table: seq<Worker>) returns (r: Result<OrgChartFile, ChartError>)
    requires DistinctIds(table)
    ensures r.Err? <==> forall w :: w in table ==> w.manager.Some?
    ensures r.Ok? ==>
              && RootWorker(table).Some?
              && r.value.root == RootWorker(table).value.id
              && (LiveRoot(RootWorker(table).value) <==> exists w :: w in table && LiveRoot(w))
              && ManagerPath(table, [RootWorker(table).value])
              && r.value.workers == Fill(table, map[], Visits(table, [RootWorker(table).value]))
  {
    FirstRootIs(table, true);
    FirstRootIs(table, false);
    var root := RootWorker(table);
    if root.None? {
      return Err(NoRootWorker);
    }
    RootIsLive(table);
    var chart := new Chart();
    BuildWorkerEntry(table, root.value, chart, Grow(table, [root.value]));
    r := Ok(OrgChartFile(root.value.id, chart.workers));
  }

  // What the walk reaches

  /** `x` is `below` the end of `path`: its own chain of managers extends it. */
  ghost predicate Below(table: seq<Worker>, path: seq<Worker>, x: Worker) {
    exists chain :: ManagerPath(table, chain) && path <= chain && chain[|chain| - 1] == x
  }

  lemma {:induction false} VisitedIsBelow(table: seq<Worker>, path: seq<Worker>, x: Worker)
    requires DistinctIds(table) && ManagerPath(table, path)
    requires x in Visits(table, path)
    ensures Below(table, path, x)
    decreases |table| - |path|, 1, 0
  {
    PathFits(table, path);
    var w := path[|path| - 1];
    ReportsAre(table, w.id);
    if x != w {
      assert x in VisitsBelow(table, path, Reports(table, w.id));
      var r := VisitedBelowIsBelow(table, path, Reports(table, w.id), x);
    }
  }

  lemma {:induction false} VisitedBelowIsBelow(table: seq<Worker>, path: seq<Worker>, workers: seq<Worker>, x: Worker)
    returns (r: Worker)
    requires DistinctIds(table) && ManagerPath(table, path) && Extend(table, path, workers)
    requires x in VisitsBelow(table, path, workers)
    ensures r in workers && ManagerPath(table, path + [r]) && Below(table, path + [r], x)
    ensures Below(table, path, x)
    decreases |table| - |path|, 0, |workers|
  {
    PathFits(table, path);
    if x in Visits(table, path + [workers[0]]) {
      r := workers[0];
      VisitedIsBelow(table, path + [r], x);
      assert path <= path + [r];
    } else {
      r := VisitedBelowIsBelow(table, path, workers[1..], x);
    }
  }

  lemma {:induction false} BelowIsVisited(table: seq<Worker>, path: seq<Worker>, chain: seq<Worker>)
    requires DistinctIds(table) && ManagerPath(table, path) && ManagerPath(table, chain) && path <= chain
    ensures chain[|chain| - 1] in Visits(table, path)
    decreases |chain| - |path|
  {
    if |path| < |chain| {
      var r, x := chain[|path|], chain[|chain| - 1];
      var w := path[|path| - 1];
      ReportsAre(table, w.id);
      assert chain[|path| - 1] == w;
      assert path + [r] <= chain;
      BelowIsVisited(table, path + [r], chain);
      VisitOfReport(table, path, Reports(table, w.id), r, x);
    } else {
      assert path == chain;
    }
  }

  lemma {:induction false} VisitOfReport(table: seq<Worker>, path: seq<Worker>, workers: seq<Worker>, r: Worker,
                                         x: Worker)
    requires DistinctIds(table) && ManagerPath(table, path) && Extend(table, path, workers)
    requires r in workers && ManagerPath(table, path + [r]) && x in Visits(table, path + [r])
    ensures x in VisitsBelow(table, path, workers)
    decreases |workers|
  {
    if r != workers[0] {
      VisitOfReport(table, path, workers[1..], r, x);
    }
  }

  ghost predicate NoRepeats(ws: seq<Worker>) {
    forall i, j :: 0 <= i < j < |ws| ==> ws[i] != ws[j]
  }

  lemma ConcatNoRepeats(a: seq<Worker>, b: seq<Worker>)
    requires NoRepeats(a) && NoRepeats(b) && forall x :: x in a ==> x !in b
    ensures NoRepeats(a + b)
  {
    forall i, j | 0 <= i < j < |a + b|
      ensures (a + b)[i] != (a + b)[j]
    {
      if i < |a| <= j {
        assert a[i] in a && b[j - |a|] in b;
      }
    }
  }

  /** No worker is visited twice. */
  lemma {:induction false} VisitsOnce(table: seq<Worker>, path: seq<Worker>)
    requires DistinctIds(table) && ManagerPath(table, path)
    ensures NoRepeats(Visits(table, path))
    decreases |table| - |path|, 1, 0
  {
    PathFits(table, path);
    var w := path[|path| - 1];
    var reports := Reports(table, w.id);
    ReportsAre(table, w.id);
    ReportsAreDistinct(table, w.id);
    VisitsBelowOnce(table, path, reports);
    if w in VisitsBelow(table, path, reports) {
      var r := VisitedBelowIsBelow(table, path, reports, w);
      var chain :| ManagerPath(table, chain) && path + [r] <= chain && chain[|chain| - 1] == w;
      PathIsUnique(table, path, chain);
      assert false;
    }
    ConcatNoRepeats([w], VisitsBelow(table, path, reports));
  }

  lemma SubtreesAreDisjoint(table: seq<Worker>, path: seq<Worker>, workers: seq<Worker>, x: Worker)
    requires DistinctIds(table) && ManagerPath(table, path) && Extend(table, path, workers) && DistinctIds(workers)
    requires workers != [] && x in VisitsBelow(table, path, workers[1..])
    ensures ManagerPath(table, path + [workers[0]]) && x !in Visits(table, path + [workers[0]])
  {
    if x in Visits(table, path + [workers[0]]) {
      VisitedIsBelow(table, path + [workers[0]], x);
      var c :| ManagerPath(table, c) && path + [workers[0]] <= c && c[|c| - 1] == x;
      var r := VisitedBelowIsBelow(table, path, workers[1..], x);
      var d :| ManagerPath(table, d) && path + [r] <= d && d[|d| - 1] == x;
      PathIsUnique(table, c, d);
      assert false;
    }
  }

  lemma {:induction false} VisitsBelowOnce(table: seq<Worker>, path: seq<Worker>, workers: seq<Worker>)
    requires DistinctIds(table) && ManagerPath(table, path) && Extend(table, path, workers) && DistinctIds(workers)
    ensures NoRepeats(VisitsBelow(table, path, workers))
    decreases |table| - |path|, 0, |workers|
  {
    PathFits(table, path);
    if workers != [] {
      var first, rest := Visits(table, path + [workers[0]]), VisitsBelow(table, path, workers[1..]);
      VisitsOnce(table, path + [workers[0]]);
      VisitsBelowOnce(table, path, workers[1..]);
      forall x | x in first
        ensures x !in rest
      {
        if x in rest {
          SubtreesAreDisjoint(table, path, workers, x);
          assert false;
        }
      }
      ConcatNoRepeats(first, rest);
    }
  }

  lemma {:induction false} FillHolds(table: seq<Worker>, workers: seq<Worker>)
    requires DistinctIds(table) && forall w :: w in workers ==> w in table
    ensures forall id :: id in Fill(table, map[], workers) <==> exists w :: w in workers && w.id == id
    ensures forall w :: w in workers ==> w.id in Fill(table, map[], workers) &&
                                         Fill(table, map[], workers)[w.id] == EntryOf(table, w)
  {
    if workers != [] {
      var earlier, last := workers[..|workers| - 1], workers[|workers| - 1];
      assert workers == earlier + [last];
      FillHolds(table, earlier);
      forall w | w in workers
        ensures w.id in Fill(table, map[], workers) && Fill(table, map[], workers)[w.id] == EntryOf(table, w)
      {
        if w.id == last.id {
          SameIdSameWorker(table, w, last);
        }
      }
    }
  }

  lemma VisitedIsInTable(table: seq<Worker>, path: seq<Worker>, x: Worker)
    requires DistinctIds(table) && ManagerPath(table, path) && x in Visits(table, path)
    ensures x in table
  {
    VisitedIsBelow(table, path, x);
    var chain :| ManagerPath(table, chain) && path <= chain && chain[|chain| - 1] == x;
  }

  lemma ReportIdsAre(table: seq<Worker>, a: Worker, b: Worker)
    requires DistinctIds(table) && b in table
    ensures b.id in Ids(Reports(table, a.id)) <==> b.manager == Some(a.id)
  {
    var reports := Reports(table, a.id);
    ReportsAre(table, a.id);
    if b.manager == Some(a.id) {
      var i :| 0 <= i < |reports| && reports[i] == b;
      assert Ids(reports)[i] == b.id;
    }
  }

  lemma ReportIsVisited(table: seq<Worker>, root: Worker, a: Worker, b: Worker)
    requires DistinctIds(table) && ManagerPath(table, [root]) && b in table
    requires a in Visits(table, [root]) && b.manager == Some(a.id)
    ensures b in Visits(table, [root])
  {
    VisitedIsBelow(table, [root], a);
    var chain :| ManagerPath(table, chain) && [root] <= chain && chain[|chain| - 1] == a;
    var longer := chain + [b];
    assert longer[|longer| - 1] == b && [root] <= longer;
    BelowIsVisited(table, [root], longer);
  }

  lemma ReportsInChart(table: seq<Worker>, root: Worker, a: Worker, b: Worker)
    requires DistinctIds(table) && ManagerPath(table, [root]) && a in table && b in table
    requires a.id in Fill(table, map[], Visits(table, [root]))
    ensures var chart := Fill(table, map[], Visits(table, [root]));
            (b.id in chart[a.id].reports <==> b.manager == Some(a.id)) && (b.manager == Some(a.id) ==> b.id in chart)
  {
    var visits := Visits(table, [root]);
    forall x | x in visits
      ensures x in table
    {
      VisitedIsInTable(table, [root], x);
    }
    FillHolds(table, visits);
    var w :| w in visits && w.id == a.id;
    SameIdSameWorker(table, a, w);
    ReportIdsAre(table, a, b);
    if b.manager == Some(a.id) {
      ReportIsVisited(table, root, a, b);
    }
  }

  /**
   The chart is exact. It visits no worker twice; it has an entry for exactly the workers
   whose chain of managers starts at the root; and `b` is among `a`'s reports exactly when
   `b`'s manager is `a`, in which case `b` has an entry too.
   */
  lemma ChartIsExact(table: seq<Worker>, root: Worker)
    requires DistinctIds(table) && ManagerPath(table, [root])
    ensures NoRepeats(Visits(table, [root]))
    ensures var chart := Fill(table, map[], Visits(table, [root]));
            && (forall id :: id in chart <==> exists x :: x in table && x.id == id && Below(table, [root], x))
            && (forall a :: a in table && a.id in chart ==>
                  && chart[a.id].name == a.name && chart[a.id].role == a.role
                  && chart[a.id].lifecycle == a.status && chart[a.id].manager == a.manager)
            && (forall a, b :: a in table && b in table && a.id in chart ==>
                  (b.id in chart[a.id].reports <==> b.manager == Some(a.id)) &&
                  (b.manager == Some(a.id) ==> b.id in chart))
  {
    var visits := Visits(table, [root]);
    var chart := Fill(table, map[], visits);
    VisitsOnce(table, [root]);
    forall x | x in visits
      ensures x in table && Below(table, [root], x)
    {
      VisitedIsInTable(table, [root], x);
      VisitedIsBelow(table, [root], x);
    }
    forall x | x in table && Below(table, [root], x)
      ensures x in visits
    {
      var chain :| ManagerPath(table, chain) && [root] <= chain && chain[|chain| - 1] == x;
      BelowIsVisited(table, [root], chain);
    }
    FillHolds(table, visits);
    forall a | a in table && a.id in chart
      ensures chart[a.id] == EntryOf(table, a)
    {
      var w :| w in visits && w.id == a.id;
      SameIdSameWorker(table, a, w);
    }
    forall a, b | a in table && b in table && a.id in chart
      ensures (b.id in chart[a.id].reports <==> b.manager == Some(a.id)) && (b.manager == Some(a.id) ==> b.id in chart)
    {
      ReportsInChart(table, root, a, b);
    }
  }

  lemma {:induction false} ReportsInOrder(table: seq<Worker>, id: WorkerId, i: nat, j: nat) returns (p: nat, q: nat)
    requires i < j < |Reports(table, id)|
    ensures p < q < |table| && table[p] == Reports(table, id)[i] && table[q] == Reports(table, id)[j]
  {
    var rest := Reports(table[1..], id);
    if table[0].manager != Some(id) {
      p, q := ReportsInOrder(table[1..], id, i, j);
      p, q := p + 1, q + 1;
    } else if i > 0 {
      p, q := ReportsInOrder(table[1..], id, i - 1, j - 1);
      p, q := p + 1, q + 1;
    } else {
      assert rest[j - 1] in rest;
      ReportsAre(table[1..], id);
      var k :| 0 <= k < |table[1..]| && table[1..][k] == rest[j - 1];
      p, q := 0, k + 1;
    }
  }

  /** An entry lists its reports in the order of the table. */
  lemma EntryInOrder(table: seq<Worker>, a: Worker, i: nat, j: nat)
    requires i < j < |EntryOf(table, a).reports|
    ensures exists p, q :: 0 <= p < q < |table| && table[p].id == EntryOf(table, a).reports[i] &&
                           table[q].id == EntryOf(table, a).reports[j]
  {
    var p, q := ReportsInOrder(table, a.id, i, j);
    assert table[p].id == EntryOf(table, a).reports[i] && table[q].id == EntryOf(table, a).reports[j];
  }
}
