/** The shape of the built-in lifecycle tables: three types whose states stand in a row, and the rest. */
module BuiltInTables {
  import opened Wrappers
  import opened Lifecycle
  import opened BeadGuard

  /**
   A table whose states stand in a row: from each but the last a bead moves to a neighbour,
   or out to one of two more terminal states, the second of them perhaps only from the first half.
   */
  function RowTable(s: seq<State>, out: State, out2: State, wide: bool): Config
    requires |s| == 5
  {
    var late := if wide then [out, out2] else [out];
    Config(s, [s[4], out, out2], s[0],
           map[s[0] := [s[1], out, out2],
               s[1] := [s[2], s[0], out, out2],
               s[2] := [s[3], s[1]] + late,
               s[3] := [s[4], s[2]] + late,
               s[4] := [], out := [], out2 := []])
  }

  const TASK_STATES: seq<State> := ["investigation", "planning", "implementation", "review", "done"]
  const BUG_STATES: seq<State> := ["triage", "investigation", "fixing", "review", "done"]
  const FEATURE_STATES: seq<State> := ["discovery", "design", "implementation", "review", "done"]

  lemma TaskIsRow()
    ensures BuiltIn("task") == RowTable(TASK_STATES, "rejected", "abandoned", true)
  {
    var c := BuiltIn("task");
    assert c.transitions["implementation"] == ["review", "planning"] + ["rejected", "abandoned"];
    assert c.transitions["review"] == ["done", "implementation"] + ["rejected", "abandoned"];
  }

  lemma FeatureIsRow()
    ensures BuiltIn("feature") == RowTable(FEATURE_STATES, "rejected", "deferred", true)
  {
    var c := BuiltIn("feature");
    assert c.transitions["implementation"] == ["review", "design"] + ["rejected", "deferred"];
    assert c.transitions["review"] == ["done", "implementation"] + ["rejected", "deferred"];
  }

  lemma BugIsRow()
    ensures BuiltIn("bug") == RowTable(BUG_STATES, "wontfix", "duplicate", false)
  {
    var c := BuiltIn("bug");
    assert c.transitions["fixing"] == ["review", "investigation"] + ["wontfix"];
    assert c.transitions["review"] == ["done", "fixing"] + ["wontfix"];
  }

  ghost predicate Distinct(s: seq<State>) {
    forall i, j :: 0 <= i < j < |s| ==> s[i] != s[j]
  }

  lemma TaskIsDistinct()
    ensures Distinct(TASK_STATES + ["rejected", "abandoned"])
  {
  }

  lemma FeatureIsDistinct()
    ensures Distinct(FEATURE_STATES + ["rejected", "deferred"])
  {
  }

  lemma BugIsDistinct()
    ensures Distinct(BUG_STATES + ["wontfix", "duplicate"])
  {
  }

  /** A move along the row, or out of it. */
  ghost predicate RowMove(s: seq<State>, out: State, out2: State, wide: bool, from: State, to: State)
    requires |s| == 5
  {
    exists k :: 0 <= k < 4 && from == s[k] &&
                (to == s[k + 1] || (k > 0 && to == s[k - 1]) || to == out || (to == out2 && (wide || k < 2)))
  }

  lemma RowMovesExactly(s: seq<State>, out: State, out2: State, wide: bool, from: State, to: State)
    requires |s| == 5 && Distinct(s + [out, out2])
    ensures to in Allowed(RowTable(s, out, out2, wide), from) <==> RowMove(s, out, out2, wide, from, to)
  {
    var all := s + [out, out2];
    assert all[0] == s[0] && all[1] == s[1] && all[2] == s[2] && all[3] == s[3] && all[4] == s[4];
    assert all[5] == out && all[6] == out2;
  }

  lemma RowIsPath(s: seq<State>, out: State, out2: State, wide: bool)
    requires |s| == 5 && Distinct(s + [out, out2])
    ensures TablePath(RowTable(s, out, out2, wide), s)
  {
    var c := RowTable(s, out, out2, wide);
    forall k: nat | k + 1 < |s|
      ensures MovesAt(c, s, k)
    {
      RowMovesExactly(s, out, out2, wide, s[k], s[k + 1]);
    }
  }

  // The built-in tables, move by move

  lemma TaskMovesExactly(from: State, to: State)
    ensures to in Allowed(BuiltIn("task"), from) <==> RowMove(TASK_STATES, "rejected", "abandoned", true, from, to)
  {
    TaskIsRow();
    TaskIsDistinct();
    RowMovesExactly(TASK_STATES, "rejected", "abandoned", true, from, to);
  }

  lemma FeatureMovesExactly(from: State, to: State)
    ensures to in Allowed(BuiltIn("feature"), from) <==>
            RowMove(FEATURE_STATES, "rejected", "deferred", true, from, to)
  {
    FeatureIsRow();
    FeatureIsDistinct();
    RowMovesExactly(FEATURE_STATES, "rejected", "deferred", true, from, to);
  }

  lemma BugMovesExactly(from: State, to: State)
    ensures to in Allowed(BuiltIn("bug"), from) <==> RowMove(BUG_STATES, "wontfix", "duplicate", false, from, to)
  {
    BugIsRow();
    BugIsDistinct();
    RowMovesExactly(BUG_STATES, "wontfix", "duplicate", false, from, to);
  }

  lemma OtherMovesExactly(t: BeadType, from: State, to: State)
    requires t !in {"task", "bug", "feature"}
    ensures to in Allowed(BuiltIn(t), from) <==>
            from in {"open", "in_progress"} && to != from && to in {"open", "in_progress", "done", "closed"}
  {
  }

  // The way to done

  lemma OtherIsPath(t: BeadType)
    requires t !in {"task", "bug", "feature"}
    ensures TablePath(BuiltIn(t), BuiltIn(t).states)
  {
    var c := BuiltIn(t);
    assert MovesAt(c, c.states, 0) && MovesAt(c, c.states, 1);
  }

  /** The states of a type, in the order listed, are a path from its initial state to "done". */
  lemma StatesArePath(t: BeadType)
    ensures var c := BuiltIn(t);
            && TablePath(c, c.states) && c.initial == c.states[0]
            && c.states[|c.states| - 1] == "done" && "done" in c.terminal
  {
    if t == "task" {
      TaskIsRow();
      TaskIsDistinct();
      RowIsPath(TASK_STATES, "rejected", "abandoned", true);
    } else if t == "bug" {
      BugIsRow();
      BugIsDistinct();
      RowIsPath(BUG_STATES, "wontfix", "duplicate", false);
    } else if t == "feature" {
      FeatureIsRow();
      FeatureIsDistinct();
      RowIsPath(FEATURE_STATES, "rejected", "deferred", true);
    } else {
      OtherIsPath(t);
    }
  }

  lemma WayOutIsState(t: BeadType, from: State)
    requires Allowed(BuiltIn(t), from) != []
    ensures from in BuiltIn(t).states
  {
    var to := Allowed(BuiltIn(t), from)[0];
    assert to in Allowed(BuiltIn(t), from);
    if t == "task" {
      TaskMovesExactly(from, to);
    } else if t == "bug" {
      BugMovesExactly(from, to);
    } else if t == "feature" {
      FeatureMovesExactly(from, to);
    }
  }

  lemma PathSuffix(c: Config, path: seq<State>, k: nat)
    requires TablePath(c, path) && k < |path|
    ensures TablePath(c, path[k..])
  {
    forall i: nat | i + 1 < |path[k..]|
      ensures MovesAt(c, path[k..], i)
    {
      assert MovesAt(c, path, k + i);
    }
  }

  lemma RestOfPath(c: Config, path: seq<State>, from: State) returns (rest: seq<State>)
    requires TablePath(c, path) && from in path
    ensures TablePath(c, rest) && rest[0] == from && rest[|rest| - 1] == path[|path| - 1]
    ensures forall s :: s in rest ==> s in path
  {
    var k :| 0 <= k < |path| && path[k] == from;
    PathSuffix(c, path, k);
    rest := path[k..];
  }

  lemma NoEmptyState(t: BeadType)
    ensures "" !in BuiltIn(t).states
  {
  }

  /** From every state with a way out there is a path to "done". */
  lemma DoneIsReachable(t: BeadType, from: State) returns (path: seq<State>)
    requires Allowed(BuiltIn(t), from) != []
    ensures TablePath(BuiltIn(t), path) && path[0] == from && path[|path| - 1] == "done" && "" !in path
  {
    StatesArePath(t);
    WayOutIsState(t, from);
    NoEmptyState(t);
    path := RestOfPath(BuiltIn(t), BuiltIn(t).states, from);
  }

  // A bead can be finished

  /** Updates along a path, and a close at its end. */
  ghost predicate Walks(cmds: seq<Command>, id: BeadId, path: seq<State>) {
    && |cmds| == |path| > 0
    && (forall k :: 0 <= k < |path| - 1 ==> cmds[k] == Update(id, Some(path[k + 1])))
    && cmds[|path| - 1] == Close(id)
  }

  function Walk(id: BeadId, path: seq<State>): (cmds: seq<Command>)
    requires path != []
    ensures Walks(cmds, id, path)
  {
    seq(|path| - 1, k requires 0 <= k < |path| - 1 => Update(id, Some(path[k + 1]))) + [Close(id)]
  }

  lemma UpdateStep(tables: Tables, store: Store, id: BeadId, to: State)
    requires id in store && to != "" && Moves(tables(store[id].beadType), store[id].status, to)
    ensures Execute(tables, store, Update(id, Some(to))) == store[id := store[id].(status := to)]
  {
    UpdateAcceptedExactly(tables, store, id, Some(to));
  }

  lemma {:induction false} WalkAt(tables: Tables, store: Store, cmds: seq<Command>, id: BeadId, path: seq<State>,
                                  k: nat)
    requires id in store && Walks(cmds, id, path) && TablePath(tables(store[id].beadType), path)
    requires path[0] == store[id].status && "" !in path && k < |path|
    ensures StoreAt(tables, store, cmds, k) == store[id := store[id].(status := path[k])]
    decreases k
  {
    if k > 0 {
      WalkAt(tables, store, cmds, id, path, k - 1);
      assert MovesAt(tables(store[id].beadType), path, k - 1);
      var before := StoreAt(tables, store, cmds, k - 1);
      assert path[k] in path;
      UpdateStep(tables, before, id, path[k]);
    }
  }

  lemma CloseStep(tables: Tables, store: Store, id: BeadId)
    requires id in store && store[id].status in tables(store[id].beadType).terminal
    requires forall d :: d in store[id].dependsOn && d in store ==> Resolved(store[d].status)
    ensures Execute(tables, store, Close(id))[id].status == "closed"
  {
    CloseAcceptedExactly(tables, store, id);
  }

  /**
   A bead in a state with a way out can be finished: there are commands that the guard lets
   through one after the other, up to a close, if its other dependencies on record are resolved.
   */
  lemma CanBeFinished(store: Store, id: BeadId) returns (cmds: seq<Command>)
    requires id in store && Allowed(BuiltIn(store[id].beadType), store[id].status) != []
    requires forall d :: d in store[id].dependsOn && d in store && d != id ==> Resolved(store[d].status)
    ensures cmds != [] && cmds[|cmds| - 1] == Close(id)
    ensures StatusAt(BuiltIn, store, cmds, |cmds|, id) == "closed"
  {
    var t := store[id].beadType;
    var path := DoneIsReachable(t, store[id].status);
    cmds := Walk(id, path);
    var last := |path| - 1;
    WalkAt(BuiltIn, store, cmds, id, path, last);
    StatesArePath(t);
    TerminalIsResolved(t, "done");
    CloseStep(BuiltIn, StoreAt(BuiltIn, store, cmds, last), id);
  }
}
