/**
 The lifecycle guard in front of the bead tracker: an update must follow the bead type's
 transition table, and a close needs a terminal state and resolved dependencies.

 The tracker itself is outside the repository; it is modelled as a store in which an
 accepted update sets the status and an accepted close sets it to "closed".
 */
module BeadGuard {
  import opened Wrappers
  import opened Lifecycle

  type BeadId = string

  /** The configuration of every bead type, fixed over a run. */
  type Tables = BeadType -> Config

  predicate IsValid(c: Config, s: State) {
    s in c.states || s in c.terminal
  }

  function Allowed(c: Config, s: State): seq<State> {
    if s in c.transitions then c.transitions[s] else []
  }

  /** A move the table lets through, with both ends among the type's states. */
  predicate Moves(c: Config, from: State, to: State) {
    IsValid(c, from) && IsValid(c, to) && to in Allowed(c, from)
  }

  datatype GuardError = InvalidState(state: State) | InvalidTransition(from: State, to: State)
                      | CannotClose(state: State) | Blocked(blockers: seq<BeadId>)

  function ValidateTransition(c: Config, from: State, to: State): (refusal: Option<GuardError>)
    ensures refusal.None? <==> Moves(c, from, to)
    ensures refusal == Some(InvalidTransition(from, to)) <==>
            IsValid(c, from) && IsValid(c, to) && to !in Allowed(c, from)
  {
    if !IsValid(c, from) then Some(InvalidState(from))
    else if !IsValid(c, to) then Some(InvalidState(to))
    else if to !in Allowed(c, from) then Some(InvalidTransition(from, to))
    else None
  }

  function ValidateClose(c: Config, s: State): (refusal: Option<GuardError>)
    ensures refusal.None? <==> s in c.terminal
    ensures refusal == Some(CannotClose(s)) <==> s in c.states && s !in c.terminal
  {
    if !IsValid(c, s) then Some(InvalidState(s))
    else if s !in c.terminal then Some(CannotClose(s))
    else None
  }

  const CLOSED_STATUSES: set<State> :=
    {"closed", "done", "rejected", "abandoned", "wontfix", "duplicate", "deferred"}

  function LowerChar(c: char): char {
    if 'A' <= c <= 'Z' then ((c as int) + 32) as char else c
  }

  /** Lower-casing, for ASCII: no other character lower-cases to a letter of a closed status. */
  function Lower(s: State): State {
    seq(|s|, i requires 0 <= i < |s| => LowerChar(s[i]))
  }

  predicate Resolved(s: State) {
    Lower(s) in CLOSED_STATUSES
  }

  datatype Bead = Bead(beadType: BeadType, status: State, dependsOn: seq<BeadId>)
  type Store = map<BeadId, Bead>

  datatype Command = Update(id: BeadId, status: Option<State>) | Close(id: BeadId)

  /** The dependencies that hold a close back: a bead that cannot be found does not. */
  function OpenBlockers(store: Store, ids: seq<BeadId>): seq<BeadId> {
    if ids == [] then []
    else
      var last := ids[|ids| - 1];
      OpenBlockers(store, ids[..|ids| - 1]) +
      if last in store && !Resolved(store[last].status) then [last] else []
  }

  method GetOpenBlockers(store: Store, ids: seq<BeadId>) returns (open: seq<BeadId>)
    ensures open == OpenBlockers(store, ids)
  {
    open := [];
    for i := 0 to |ids|
      invariant open == OpenBlockers(store, ids[..i])
    {
      assert ids[..i + 1][..i] == ids[..i];
      if ids[i] in store {
        if Lower(store[ids[i]].status) !in CLOSED_STATUSES {
          open := open + [ids[i]];
        }
      }
    }
    assert ids[..|ids|] == ids;
  }

  function Guard(tables: Tables, store: Store, cmd: Command): Option<GuardError> {
    if cmd.id !in store then None
    else
      var bead := store[cmd.id];
      match cmd
      case Close(_) =>
        var refusal := ValidateClose(tables(bead.beadType), bead.status);
        if refusal.Some? then refusal
        else if OpenBlockers(store, bead.dependsOn) != [] then Some(Blocked(OpenBlockers(store, bead.dependsOn)))
        else None
      case Update(_, target) =>
        if target.Some? && target.value != "" && target.value != bead.status
        then ValidateTransition(tables(bead.beadType), bead.status, target.value)
        else None
  }

  method CheckLifecycleTransition(tables: Tables, store: Store, cmd: Command) returns (refusal: Option<GuardError>)
    ensures refusal == Guard(tables, store, cmd)
  {
    if cmd.id !in store {
      return None;
    }
    var bead := store[cmd.id];
    match cmd
    case Close(_) =>
      refusal := ValidateClose(tables(bead.beadType), bead.status);
      if refusal.None? && bead.dependsOn != [] {
        var blocking := GetOpenBlockers(store, bead.dependsOn);
        if blocking != [] {
          refusal := Some(Blocked(blocking));
        }
      }
    case Update(_, target) =>
      refusal := None;
      if target.Some? && target.value != "" && target.value != bead.status {
        refusal := ValidateTransition(tables(bead.beadType), bead.status, target.value);
      }
  }

  /** The tracker's effect of a command that got past the guard. */
  function Effect(store: Store, cmd: Command): Store {
    if cmd.id !in store then store
    else match cmd
      case Close(id) => store[id := store[id].(status := "closed")]
      case Update(id, target) =>
        if target.Some? && target.value != "" then store[id := store[id].(status := target.value)] else store
  }

  function Execute(tables: Tables, store: Store, cmd: Command): Store {
    if Guard(tables, store, cmd).None? then Effect(store, cmd) else store
  }

  /** The store before command `i` of a run. */
  function StoreAt(tables: Tables, store: Store, cmds: seq<Command>, i: nat): Store
    requires i <= |cmds|
  {
    if i == 0 then store else Execute(tables, StoreAt(tables, store, cmds, i - 1), cmds[i - 1])
  }

  // What the guard lets through

  lemma {:induction false} OpenBlockersAre(store: Store, ids: seq<BeadId>)
    ensures forall d :: d in OpenBlockers(store, ids) <==> d in ids && d in store && !Resolved(store[d].status)
  {
    if ids != [] {
      OpenBlockersAre(store, ids[..|ids| - 1]);
    }
  }

  /** They are named in the order in which they are listed. */
  lemma {:induction false} BlockersInOrder(store: Store, first: seq<BeadId>, second: seq<BeadId>)
    ensures OpenBlockers(store, first + second) == OpenBlockers(store, first) + OpenBlockers(store, second)
  {
    var ids := first + second;
    if second == [] {
      assert ids == first;
    } else {
      assert ids[..|ids| - 1] == first + second[..|second| - 1];
      BlockersInOrder(store, first, second[..|second| - 1]);
    }
  }

  /** A close is accepted exactly in a terminal state with every dependency on record resolved. */
  lemma CloseAcceptedExactly(tables: Tables, store: Store, id: BeadId)
    requires id in store
    ensures Guard(tables, store, Close(id)).None? <==>
            && store[id].status in tables(store[id].beadType).terminal
            && forall d :: d in store[id].dependsOn && d in store ==> Resolved(store[d].status)
  {
    OpenBlockersAre(store, store[id].dependsOn);
    var open := OpenBlockers(store, store[id].dependsOn);
    if open != [] {
      assert open[0] in open;
    }
  }

  /** Why a close is refused: the state first, then exactly the open dependencies on record. */
  lemma CloseRefusedBy(tables: Tables, store: Store, id: BeadId)
    requires id in store
    ensures var c, s := tables(store[id].beadType), store[id].status;
            var refusal := Guard(tables, store, Close(id));
            && (s !in c.states && s !in c.terminal ==> refusal == Some(InvalidState(s)))
            && (s in c.states && s !in c.terminal ==> refusal == Some(CannotClose(s)))
            && (s in c.terminal && refusal.Some? ==>
                  && refusal.value.Blocked?
                  && forall d :: d in refusal.value.blockers <==>
                                 d in store[id].dependsOn && d in store && !Resolved(store[d].status))
  {
    OpenBlockersAre(store, store[id].dependsOn);
  }

  /** Why an update is refused: the state it leaves first, then the state it enters, then the move. */
  lemma UpdateRefusedBy(tables: Tables, store: Store, id: BeadId, to: State)
    requires id in store && to != "" && to != store[id].status
    ensures var c, from := tables(store[id].beadType), store[id].status;
            var refusal := Guard(tables, store, Update(id, Some(to)));
            var fromIsValid, toIsValid := from in c.states + c.terminal, to in c.states + c.terminal;
            && (!fromIsValid ==> refusal == Some(InvalidState(from)))
            && (fromIsValid && !toIsValid ==> refusal == Some(InvalidState(to)))
            && (fromIsValid && toIsValid && !(from in c.transitions && to in c.transitions[from]) ==>
                  refusal == Some(InvalidTransition(from, to)))
  {
  }

  /**
   An update is accepted exactly if it does not change the status, or the table lists the move
   and both ends are states or terminal states of the type.
   */
  lemma UpdateAcceptedExactly(tables: Tables, store: Store, id: BeadId, target: Option<State>)
    requires id in store
    ensures var c, from := tables(store[id].beadType), store[id].status;
            Guard(tables, store, Update(id, target)).None? <==>
            || target == None || target == Some("") || target == Some(from)
            || (&& (from in c.states || from in c.terminal)
                && (target.value in c.states || target.value in c.terminal)
                && from in c.transitions && target.value in c.transitions[from])
  {
  }

  /** A command on a bead that is not on record passes and changes nothing here. */
  lemma UnknownBeadPasses(tables: Tables, store: Store, cmd: Command)
    requires cmd.id !in store
    ensures Guard(tables, store, cmd).None? && Execute(tables, store, cmd) == store
  {
  }

  /** Dependencies, open or not, have no say in it. */
  lemma UpdateIgnoresDependencies(tables: Tables, store: Store, id: BeadId, target: Option<State>, deps: seq<BeadId>)
    requires id in store
    ensures Guard(tables, store[id := store[id].(dependsOn := deps)], Update(id, target)) ==
            Guard(tables, store, Update(id, target))
  {
  }

  /** A dependency that cannot be found does not block: this close goes through. */
  lemma UnknownDependencyDoesNotBlock()
    ensures var store: Store := map["b-1" := Bead("task", "done", ["d-1"])];
            && "d-1" !in store
            && Guard(BuiltIn, store, Close("b-1")).None?
            && Execute(BuiltIn, store, Close("b-1"))["b-1"].status == "closed"
  {
    var store: Store := map["b-1" := Bead("task", "done", ["d-1"])];
    assert "b-1"[0] != "d-1"[0];
    CloseAcceptedExactly(BuiltIn, store, "b-1");
  }

  // A bead's way through its table

  predicate MovesAt(c: Config, path: seq<State>, k: nat)
    requires k + 1 < |path|
  {
    Moves(c, path[k], path[k + 1])
  }

  ghost predicate TablePath(c: Config, path: seq<State>) {
    path != [] && forall k: nat :: k + 1 < |path| ==> MovesAt(c, path, k)
  }

  lemma {:induction false} BeadsStay(tables: Tables, store: Store, cmds: seq<Command>, i: nat)
    requires i <= |cmds|
    ensures StoreAt(tables, store, cmds, i).Keys == store.Keys
    ensures forall id :: id in store ==>
              var now := StoreAt(tables, store, cmds, i)[id];
              now.beadType == store[id].beadType && now.dependsOn == store[id].dependsOn
    decreases i
  {
    if i > 0 {
      BeadsStay(tables, store, cmds, i - 1);
    }
  }

  /** A command other than an accepted close leaves a bead's status alone or takes one of its table's moves. */
  lemma StepFollowsTable(tables: Tables, store: Store, cmd: Command, id: BeadId)
    requires id in store && (cmd == Close(id) ==> Guard(tables, store, cmd).Some?)
    ensures id in Execute(tables, store, cmd)
    ensures var was, now := store[id].status, Execute(tables, store, cmd)[id].status;
            now == was || Moves(tables(store[id].beadType), was, now)
  {
  }

  /** Command `k` does not close the bead: it is another command, or the guard refuses it. */
  ghost predicate LeavesOpen(tables: Tables, store: Store, cmds: seq<Command>, k: nat, id: BeadId)
    requires k < |cmds|
  {
    cmds[k] == Close(id) ==> Guard(tables, StoreAt(tables, store, cmds, k), cmds[k]).Some?
  }

  /** None of the first `i` commands closes the bead. */
  ghost predicate NotClosed(tables: Tables, store: Store, cmds: seq<Command>, i: nat, id: BeadId)
    requires i <= |cmds|
  {
    forall k: nat :: k < i ==> LeavesOpen(tables, store, cmds, k, id)
  }

  /** A bead's status before command `i` of a run. */
  ghost function StatusAt(tables: Tables, store: Store, cmds: seq<Command>, i: nat, id: BeadId): State
    requires i <= |cmds| && id in store
  {
    BeadsStay(tables, store, cmds, i);
    StoreAt(tables, store, cmds, i)[id].status
  }

  lemma CommandFollowsTable(tables: Tables, store: Store, cmds: seq<Command>, k: nat, id: BeadId)
    requires k < |cmds| && id in store && LeavesOpen(tables, store, cmds, k, id)
    ensures var was, now := StatusAt(tables, store, cmds, k, id), StatusAt(tables, store, cmds, k + 1, id);
            now == was || Moves(tables(store[id].beadType), was, now)
  {
    BeadsStay(tables, store, cmds, k);
    StepFollowsTable(tables, StoreAt(tables, store, cmds, k), cmds[k], id);
  }

  lemma PathExtends(c: Config, path: seq<State>, now: State)
    requires TablePath(c, path) && Moves(c, path[|path| - 1], now)
    ensures TablePath(c, path + [now])
  {
    forall k: nat | k + 1 < |path + [now]|
      ensures MovesAt(c, path + [now], k)
    {
      assert k + 1 < |path| ==> MovesAt(c, path, k);
    }
  }

  /** States each equal to the one before or one move on: leaving out the repetitions gives a path. */
  lemma PathOf(c: Config, states: seq<State>) returns (path: seq<State>)
    requires states != []
    requires forall k: nat :: k + 1 < |states| ==> states[k + 1] == states[k] || MovesAt(c, states, k)
    ensures TablePath(c, path) && path[0] == states[0] && path[|path| - 1] == states[|states| - 1]
  {
    path := [states[0]];
    for i := 1 to |states|
      invariant TablePath(c, path) && path[0] == states[0] && path[|path| - 1] == states[i - 1]
    {
      var k: nat := i - 1;
      assert states[k + 1] == states[k] || MovesAt(c, states, k);
      if states[i] != states[i - 1] {
        PathExtends(c, path, states[i]);
        path := path + [states[i]];
      }
    }
  }

  /**
   Over any run, a bead that has not been closed moves along its type's table: the states it
   passes through form a path of allowed moves from where it was to where it is.
   */
  lemma UpdatesFollowTable(tables: Tables, store: Store, cmds: seq<Command>, i: nat, id: BeadId)
    returns (path: seq<State>)
    requires i <= |cmds| && id in store && NotClosed(tables, store, cmds, i, id)
    ensures TablePath(tables(store[id].beadType), path)
    ensures path[0] == store[id].status && path[|path| - 1] == StatusAt(tables, store, cmds, i, id)
  {
    var c := tables(store[id].beadType);
    var states := seq(i + 1, k requires 0 <= k <= i => StatusAt(tables, store, cmds, k, id));
    forall k: nat | k + 1 < |states|
      ensures states[k + 1] == states[k] || MovesAt(c, states, k)
    {
      assert LeavesOpen(tables, store, cmds, k, id);
      CommandFollowsTable(tables, store, cmds, k, id);
    }
    path := PathOf(c, states);
  }

  /** So it stays in a valid state, and never leaves one with no way out. */
  lemma UpdatesStayInside(tables: Tables, store: Store, cmds: seq<Command>, i: nat, id: BeadId)
    requires i <= |cmds| && id in store && NotClosed(tables, store, cmds, i, id)
    ensures var c, was, now := tables(store[id].beadType), store[id].status, StatusAt(tables, store, cmds, i, id);
            && (IsValid(c, was) ==> IsValid(c, now))
            && (Allowed(c, was) == [] ==> now == was)
  {
    var path := UpdatesFollowTable(tables, store, cmds, i, id);
    if |path| > 1 {
      assert MovesAt(tables(store[id].beadType), path, 0);
      assert MovesAt(tables(store[id].beadType), path, |path| - 2);
    }
  }

  // Dependencies after a close

  /** No table leads from a resolved status to an unresolved one (an empty target is no status change). */
  ghost predicate SafeTables(tables: Tables) {
    forall t: BeadType, from: State, to: State ::
      Resolved(from) && Moves(tables(t), from, to) && to != "" ==> Resolved(to)
  }

  lemma ClosedIsResolved()
    ensures Resolved("closed")
  {
    assert Lower("closed") == "closed";
  }

  lemma ResolvedStays(tables: Tables, store: Store, cmd: Command, d: BeadId)
    requires SafeTables(tables) && d in store && Resolved(store[d].status)
    ensures d in Execute(tables, store, cmd) && Resolved(Execute(tables, store, cmd)[d].status)
  {
    ClosedIsResolved();
    if cmd.id == d && cmd.Update? && cmd.status.Some? && Guard(tables, store, cmd).None? {
      var to := cmd.status.value;
      if to != "" && to != store[d].status {
        assert Moves(tables(store[d].beadType), store[d].status, to);
      }
    }
  }

  /** Command `i` is an accepted close of `b`, and `d` is a dependency of `b` on record. */
  ghost predicate ClosesDependent(tables: Tables, store: Store, cmds: seq<Command>, i: nat, b: BeadId, d: BeadId)
    requires i < |cmds|
  {
    && b in store && d in store && d in store[b].dependsOn
    && cmds[i] == Close(b)
    && Guard(tables, StoreAt(tables, store, cmds, i), cmds[i]).None?
  }

  ghost predicate ResolvedAt(tables: Tables, store: Store, cmds: seq<Command>, j: nat, d: BeadId)
    requires j <= |cmds|
  {
    var now := StoreAt(tables, store, cmds, j);
    d in now && Resolved(now[d].status)
  }

  lemma ResolvedAtClose(tables: Tables, store: Store, cmds: seq<Command>, i: nat, b: BeadId, d: BeadId)
    requires i < |cmds| && ClosesDependent(tables, store, cmds, i, b, d)
    ensures ResolvedAt(tables, store, cmds, i, d)
  {
    BeadsStay(tables, store, cmds, i);
    CloseAcceptedExactly(tables, StoreAt(tables, store, cmds, i), b);
  }

  /**
   With safe tables, every dependency of a bead closed through the guard is resolved at the
   close and stays resolved for the rest of the run.
   */
  lemma {:induction false} DependenciesStayResolved(tables: Tables, store: Store, cmds: seq<Command>, i: nat, j: nat,
                                                    b: BeadId, d: BeadId)
    requires SafeTables(tables)
    requires i <= j <= |cmds| && i < |cmds| && ClosesDependent(tables, store, cmds, i, b, d)
    ensures ResolvedAt(tables, store, cmds, j, d)
    decreases j
  {
    if i == j {
      ResolvedAtClose(tables, store, cmds, i, b, d);
    } else {
      DependenciesStayResolved(tables, store, cmds, i, j - 1, b, d);
      ResolvedStays(tables, StoreAt(tables, store, cmds, j - 1), cmds[j - 1], d);
    }
  }

  /** What the close guard is for, as a promise about every store and every run. */
  ghost predicate Promise(tables: Tables) {
    forall store: Store, cmds: seq<Command>, i: nat, j: nat, b: BeadId, d: BeadId
      {:trigger ClosesDependent(tables, store, cmds, i, b, d), ResolvedAt(tables, store, cmds, j, d)} ::
      i <= j <= |cmds| && i < |cmds| && ClosesDependent(tables, store, cmds, i, b, d) ==>
        ResolvedAt(tables, store, cmds, j, d)
  }

  /** An unsafe move breaks the promise: close a dependent, then take the move. */
  lemma UnsafeMoveBreaksPromise(tables: Tables, t: BeadType, from: State, to: State, u: BeadType, terminal: State)
    requires Resolved(from) && Moves(tables(t), from, to) && !Resolved(to)
    requires terminal in tables(u).terminal && to != ""
    ensures !Promise(tables)
  {
    var store: Store := map["b-1" := Bead(u, terminal, ["d-1"]), "d-1" := Bead(t, from, [])];
    var cmds := [Close("b-1"), Update("d-1", Some(to))];
    assert "b-1"[0] != "d-1"[0];
    assert StoreAt(tables, store, cmds, 0) == store;
    CloseAcceptedExactly(tables, store, "b-1");
    assert store["b-1"].dependsOn[0] == "d-1";
    assert ClosesDependent(tables, store, cmds, 0, "b-1", "d-1");
    var closed := Execute(tables, store, cmds[0]);
    assert StoreAt(tables, store, cmds, 1) == closed;
    assert closed["d-1"] == store["d-1"];
    assert StoreAt(tables, store, cmds, 2) == Execute(tables, closed, cmds[1]);
    assert StoreAt(tables, store, cmds, 2)["d-1"].status == to;
    assert !ResolvedAt(tables, store, cmds, 2, "d-1");
  }

  /**
   Exactly when the guard keeps its promise, for any configuration in which some bead can be
   closed: when no table leads from a resolved status to an unresolved one.
   */
  lemma PromiseKeptExactly(tables: Tables, u: BeadType, terminal: State)
    requires terminal in tables(u).terminal
    ensures Promise(tables) <==> SafeTables(tables)
  {
    if SafeTables(tables) {
      forall store: Store, cmds: seq<Command>, i: nat, j: nat, b: BeadId, d: BeadId
        | i <= j <= |cmds| && i < |cmds| && ClosesDependent(tables, store, cmds, i, b, d)
        ensures ResolvedAt(tables, store, cmds, j, d)
      {
        DependenciesStayResolved(tables, store, cmds, i, j, b, d);
      }
    } else {
      var t: BeadType, from: State, to: State :|
        Resolved(from) && Moves(tables(t), from, to) && to != "" && !Resolved(to);
      UnsafeMoveBreaksPromise(tables, t, from, to, u, terminal);
    }
  }

  lemma LowerCaseIsKept(s: State)
    requires forall i :: 0 <= i < |s| ==> !('A' <= s[i] <= 'Z')
    ensures Lower(s) == s
  {
  }

  predicate SameLetter(a: char, b: char) {
    || a == b
    || ('A' <= a <= 'Z' && b as int == a as int + 32)
    || ('A' <= b <= 'Z' && a as int == b as int + 32)
  }

  /** Two statuses that differ at most in the case of ASCII letters. */
  predicate SameButCase(a: State, b: State) {
    |a| == |b| && forall i :: 0 <= i < |a| ==> SameLetter(a[i], b[i])
  }

  lemma ResolvedIgnoresCase(a: State, b: State)
    requires SameButCase(a, b)
    ensures Resolved(a) <==> Resolved(b)
  {
    forall i | 0 <= i < |a|
      ensures Lower(a)[i] == Lower(b)[i]
    {
      assert SameLetter(a[i], b[i]);
    }
    assert Lower(a) == Lower(b);
  }

  lemma ClosedStatusIsTerminal(s: State) returns (t: BeadType)
    requires s in CLOSED_STATUSES
    ensures s in BuiltIn(t).terminal
  {
    if s in {"done", "rejected", "abandoned"} {
      t := "task";
    } else if s in {"wontfix", "duplicate"} {
      t := "bug";
    } else if s == "deferred" {
      t := "feature";
    } else {
      t := "";
    }
  }

  /** A status without capitals is resolved exactly if it is a terminal state of some built-in table. */
  lemma ResolvedExactly(s: State)
    requires forall i :: 0 <= i < |s| ==> !('A' <= s[i] <= 'Z')
    ensures Resolved(s) <==> exists t :: s in BuiltIn(t).terminal
  {
    LowerCaseIsKept(s);
    if Resolved(s) {
      var t := ClosedStatusIsTerminal(s);
    }
  }

  lemma TerminalIsResolved(t: BeadType, s: State)
    requires s in BuiltIn(t).terminal
    ensures Resolved(s)
  {
    LowerCaseIsKept(s);
  }

  /** The states with a way out in the built-in tables. */
  const OPEN_STATES: set<State> :=
    {"investigation", "planning", "implementation", "review", "triage", "fixing", "discovery", "design",
     "open", "in_progress"}

  lemma OpenStatesAreUnresolved(s: State)
    requires s in OPEN_STATES
    ensures !Resolved(s)
  {
    LowerCaseIsKept(s);
    assert "review"[2] != "closed"[2];
    assert "triage"[0] != "closed"[0];
    assert "fixing"[0] != "closed"[0];
    assert "design"[0] != "closed"[0];
    assert "open"[0] != "done"[0];
    assert "planning"[0] != "rejected"[0] && "planning"[0] != "deferred"[0];
    assert "discovery"[1] != "duplicate"[1] && "discovery"[0] != "abandoned"[0];
  }

  lemma TaskWaysOut(from: State)
    requires Allowed(BuiltIn("task"), from) != []
    ensures from in OPEN_STATES
  {
  }

  lemma BugWaysOut(from: State)
    requires Allowed(BuiltIn("bug"), from) != []
    ensures from in OPEN_STATES
  {
  }

  lemma FeatureWaysOut(from: State)
    requires Allowed(BuiltIn("feature"), from) != []
    ensures from in OPEN_STATES
  {
  }

  lemma OtherWaysOut(t: BeadType, from: State)
    requires t !in {"task", "bug", "feature"} && Allowed(BuiltIn(t), from) != []
    ensures from in OPEN_STATES
  {
  }

  /** A state with a way out in a built-in table is not a resolved one. */
  lemma BuiltInMovesAreOpen(t: BeadType, from: State, to: State)
    requires to in Allowed(BuiltIn(t), from)
    ensures !Resolved(from)
  {
    if t == "task" {
      TaskWaysOut(from);
    } else if t == "bug" {
      BugWaysOut(from);
    } else if t == "feature" {
      FeatureWaysOut(from);
    } else {
      OtherWaysOut(t, from);
    }
    OpenStatesAreUnresolved(from);
  }

  lemma BuiltInIsSafe()
    ensures SafeTables(BuiltIn)
  {
    forall t: BeadType, from: State, to: State | Moves(BuiltIn(t), from, to)
      ensures !Resolved(from)
    {
      BuiltInMovesAreOpen(t, from, to);
    }
  }

  /** The built-in tables keep the promise. */
  lemma BuiltInKeepsPromise()
    ensures Promise(BuiltIn)
  {
    BuiltInIsSafe();
    PromiseKeptExactly(BuiltIn, "task", "done");
  }

  lemma {:induction false} ResolvedStaysOverRun(tables: Tables, store: Store, cmds: seq<Command>, i: nat, j: nat,
                                                d: BeadId)
    requires SafeTables(tables) && i <= j <= |cmds| && ResolvedAt(tables, store, cmds, i, d)
    ensures ResolvedAt(tables, store, cmds, j, d)
    decreases j
  {
    if i < j {
      ResolvedStaysOverRun(tables, store, cmds, i, j - 1, d);
      ResolvedStays(tables, StoreAt(tables, store, cmds, j - 1), cmds[j - 1], d);
    }
  }

  /** Command `i` closes `d` through the guard. */
  ghost predicate Closes(tables: Tables, store: Store, cmds: seq<Command>, i: nat, d: BeadId)
    requires i < |cmds|
  {
    cmds[i] == Close(d) && Guard(tables, StoreAt(tables, store, cmds, i), cmds[i]).None?
  }

  lemma ClosedAfterClose(tables: Tables, store: Store, cmds: seq<Command>, i: nat, d: BeadId)
    requires i < |cmds| && d in store && Closes(tables, store, cmds, i, d)
    ensures ResolvedAt(tables, store, cmds, i + 1, d)
  {
    BeadsStay(tables, store, cmds, i);
    ClosedIsResolved();
  }

  lemma ResolvedFrom(tables: Tables, store: Store, cmds: seq<Command>, i: nat, j: nat, d: BeadId)
    requires SafeTables(tables) && i <= j <= |cmds| && d in store
    requires Resolved(StatusAt(tables, store, cmds, i, d)) || (i < j && Closes(tables, store, cmds, i, d))
    ensures ResolvedAt(tables, store, cmds, j, d)
  {
    if Resolved(StatusAt(tables, store, cmds, i, d)) {
      BeadsStay(tables, store, cmds, i);
      ResolvedStaysOverRun(tables, store, cmds, i, j, d);
    } else {
      ClosedAfterClose(tables, store, cmds, i, d);
      ResolvedStaysOverRun(tables, store, cmds, i + 1, j, d);
    }
  }

  /** The guard does not name `d` among the open dependencies that hold back a close of `b`. */
  predicate DoesNotBlock(tables: Tables, store: Store, b: BeadId, d: BeadId) {
    var refusal := Guard(tables, store, Close(b));
    refusal.Some? && refusal.value.Blocked? ==> d !in refusal.value.blockers
  }

  lemma ResolvedDoesNotBlock(tables: Tables, store: Store, b: BeadId, d: BeadId)
    requires d in store && Resolved(store[d].status)
    ensures DoesNotBlock(tables, store, b, d)
  {
    if b in store {
      OpenBlockersAre(store, store[b].dependsOn);
    }
  }

  /**
   Under the built-in tables a dependency that has reached a terminal state of any type, or
   has been closed through the guard, never holds back a close again.
   */
  lemma DoneNeverBlocks(store: Store, cmds: seq<Command>, i: nat, j: nat, d: BeadId, u: BeadType, b: BeadId)
    requires i <= j <= |cmds| && d in store
    requires || StatusAt(BuiltIn, store, cmds, i, d) in BuiltIn(u).terminal
             || (i < j && Closes(BuiltIn, store, cmds, i, d))
    ensures DoesNotBlock(BuiltIn, StoreAt(BuiltIn, store, cmds, j), b, d)
  {
    var status := StatusAt(BuiltIn, store, cmds, i, d);
    if status in BuiltIn(u).terminal {
      TerminalIsResolved(u, status);
    }
    BuiltInIsSafe();
    ResolvedFrom(BuiltIn, store, cmds, i, j, d);
    ResolvedDoesNotBlock(BuiltIn, StoreAt(BuiltIn, store, cmds, j), b, d);
  }
}
