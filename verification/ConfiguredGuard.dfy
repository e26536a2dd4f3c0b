/**
 The guard while its configuration changes: commands on beads interleaved with lookups,
 saves, path changes, cache clears and edits of the YAML file. Each command is judged by
 the tables in force at that moment, cache and all, and its own lookup may fill the cache.
 */
module ConfiguredGuard {
  import opened Wrappers
  import opened Lifecycle
  import opened BeadGuard

  /** No state is valid: what a guard whose lookup raises amounts to. */
  const NOTHING := Config([], [], "", map[])

  /** The tables a command is judged by. */
  function InForce(w: World): Tables {
    t => if w.Lookup(t).Ok? then w.Lookup(t).value else NOTHING
  }

  /** Whether the guard has to look up the bead's type. */
  predicate LooksUp(store: Store, cmd: Command) {
    && cmd.id in store
    && (cmd.Update? ==> cmd.status.Some? && cmd.status.value != "" && cmd.status.value != store[cmd.id].status)
  }

  /** A lookup that raises stops the command. */
  lemma RaisingLookupRefuses(w: World, store: Store, cmd: Command)
    requires LooksUp(store, cmd) && w.Lookup(store[cmd.id].beadType).Err?
    ensures Guard(InForce(w), store, cmd).Some?
  {
  }

  datatype System = System(world: World, store: Store)

  datatype Action = Do(cmd: Command) | Change(op: Op)

  function Act(s: System, a: Action): System {
    match a
    case Do(cmd) =>
      System(if LooksUp(s.store, cmd) then Apply(s.world, Op.Lookup(s.store[cmd.id].beadType)) else s.world,
             Execute(InForce(s.world), s.store, cmd))
    case Change(op) => s.(world := Apply(s.world, op))
  }

  function ActAll(s: System, actions: seq<Action>): System {
    if actions == [] then s else Act(ActAll(s, actions[..|actions| - 1]), actions[|actions| - 1])
  }

  lemma {:induction false} ActsCompose(s: System, first: seq<Action>, second: seq<Action>)
    ensures ActAll(s, first + second) == ActAll(ActAll(s, first), second)
  {
    var actions := first + second;
    if second == [] {
      assert actions == first;
    } else {
      assert actions[..|actions| - 1] == first + second[..|second| - 1];
      ActsCompose(s, first, second[..|second| - 1]);
    }
  }

  lemma ActAllOne(s: System, a: Action)
    ensures ActAll(s, [a]) == Act(s, a)
  {
    assert [a][..0] == [];
  }

  // The operations behind a run

  ghost function OpOf(s: System, a: Action): seq<Op> {
    match a
    case Do(cmd) => if LooksUp(s.store, cmd) then [Op.Lookup(s.store[cmd.id].beadType)] else []
    case Change(op) => [op]
  }

  /** The operations on the configuration that a run performs, those of its commands included. */
  ghost function OpsOf(s: System, actions: seq<Action>): seq<Op> {
    if actions == [] then []
    else
      var before, last := actions[..|actions| - 1], actions[|actions| - 1];
      OpsOf(s, before) + OpOf(ActAll(s, before), last)
  }

  lemma RunOfOne(w: World, op: Op)
    ensures Run(w, [op]) == Apply(w, op)
  {
    assert [op][..0] == [];
  }

  lemma {:induction false} WorldIsRun(s: System, actions: seq<Action>)
    ensures ActAll(s, actions).world == Run(s.world, OpsOf(s, actions))
  {
    if actions != [] {
      var before, last := actions[..|actions| - 1], actions[|actions| - 1];
      WorldIsRun(s, before);
      var now := ActAll(s, before);
      RunsCompose(s.world, OpsOf(s, before), OpOf(now, last));
      if OpOf(now, last) != [] {
        RunOfOne(now.world, OpOf(now, last)[0]);
        assert OpOf(now, last) == [OpOf(now, last)[0]];
      }
    }
  }

  /** Lookups are always possible; what else may happen to the configuration is up to `admin`. */
  ghost predicate Permits(admin: Op -> bool, ops: seq<Op>) {
    forall op :: op in ops ==> op.Lookup? || admin(op)
  }

  ghost predicate PermitsActions(admin: Op -> bool, actions: seq<Action>) {
    forall a :: a in actions && a.Change? ==> a.op.Lookup? || admin(a.op)
  }

  lemma {:induction false} OpsArePermitted(admin: Op -> bool, s: System, actions: seq<Action>)
    requires PermitsActions(admin, actions)
    ensures Permits(admin, OpsOf(s, actions))
  {
    if actions != [] {
      OpsArePermitted(admin, s, actions[..|actions| - 1]);
      assert actions[|actions| - 1] in actions;
    }
  }

  lemma {:induction false} RecordsStay(s: System, actions: seq<Action>)
    ensures ActAll(s, actions).store.Keys == s.store.Keys
    ensures forall id :: id in s.store ==>
              var now := ActAll(s, actions).store[id];
              now.beadType == s.store[id].beadType && now.dependsOn == s.store[id].dependsOn
  {
    if actions != [] {
      RecordsStay(s, actions[..|actions| - 1]);
    }
  }

  /**
   A table saved to the current database is the one updates are judged by, until its row or
   the database is replaced: a move is accepted exactly if it is declared, between states
   declared as states or terminal states.
   */
  lemma SavedMovesAreAccepted(w: World, save: Op, ops: seq<Op>, store: Store, id: BeadId, to: State)
    requires Writes(save, w.dbs) && w.db == Some(save.db)
    requires save.config.states.Some? && save.config.states.value != []
    requires save.config.terminal.Some? && save.config.transitions.Some?
    requires forall op :: op in ops ==> Leaves(op, w.dbs, save.db, save.t)
    requires id in store && store[id].beadType == save.t && to != "" && to != store[id].status
    ensures var from, declared := store[id].status, save.config.states.value + save.config.terminal.value;
            var moves := save.config.transitions.value;
            Guard(InForce(Run(Apply(w, save), ops)), store, Update(id, Some(to))).None? <==>
            from in declared && to in declared && from in moves && to in moves[from]
  {
    SavedIsUsed(w, save, ops);
    UpdateAcceptedExactly(InForce(Run(Apply(w, save), ops)), store, id, Some(to));
  }

  // The promise

  /** After `before`, the bead `b` is closed through the guard, and `d` is a dependency of it on record. */
  ghost predicate ClosesAfter(s: System, before: seq<Action>, b: BeadId, d: BeadId) {
    var now := ActAll(s, before);
    && b in s.store && d in s.store && d in s.store[b].dependsOn
    && Guard(InForce(now.world), now.store, Close(b)).None?
  }

  ghost predicate ResolvedAfter(s: System, actions: seq<Action>, d: BeadId) {
    var store := ActAll(s, actions).store;
    d in store && Resolved(store[d].status)
  }

  /**
   Whatever the store, and however commands and permitted changes of the configuration are
   interleaved: a dependency of a bead closed through the guard is resolved at the close and
   at every later moment.
   */
  ghost predicate Promised(w: World, admin: Op -> bool) {
    forall store: Store, before: seq<Action>, after: seq<Action>, b: BeadId, d: BeadId
      {:trigger ClosesAfter(System(w, store), before, b, d),
                ResolvedAfter(System(w, store), before + [Do(Close(b))] + after, d)} ::
      PermitsActions(admin, before) && PermitsActions(admin, after) && ClosesAfter(System(w, store), before, b, d) ==>
        && ResolvedAfter(System(w, store), before, d)
        && ResolvedAfter(System(w, store), before + [Do(Close(b))] + after, d)
  }

  /** After these operations a bead of type `u` can be closed in some state. */
  ghost predicate Closable(w: World, ops: seq<Op>, u: BeadType) {
    InForce(Run(w, ops))(u).terminal != []
  }

  ghost predicate SafeAfter(w: World, ops: seq<Op>) {
    SafeTables(InForce(Run(w, ops)))
  }

  /**
   From the moment a bead can have been closed, no permitted operations bring tables into
   force that lead from a resolved status to an unresolved one.
   */
  ghost predicate SafeOnceClosed(w: World, admin: Op -> bool) {
    forall first: seq<Op>, u: BeadType, later: seq<Op>
      {:trigger Closable(w, first, u), SafeAfter(w, first + [Op.Lookup(u)] + later)} ::
      Permits(admin, first) && Permits(admin, later) && Closable(w, first, u) ==>
        SafeAfter(w, first + [Op.Lookup(u)] + later)
  }

  // Safe tables keep it

  lemma CloseKeepsResolved(tables: Tables, store: Store, b: BeadId, d: BeadId)
    requires d in store && Resolved(store[d].status)
    ensures var now := Execute(tables, store, Close(b));
            d in now && Resolved(now[d].status)
  {
    ClosedIsResolved();
  }

  lemma ResolvedAtTheClose(s: System, before: seq<Action>, b: BeadId, d: BeadId)
    requires ClosesAfter(s, before, b, d)
    ensures ResolvedAfter(s, before, d) && ResolvedAfter(s, before + [Do(Close(b))], d)
    ensures Closable(s.world, OpsOf(s, before), s.store[b].beadType)
  {
    var now := ActAll(s, before);
    RecordsStay(s, before);
    WorldIsRun(s, before);
    CloseAcceptedExactly(InForce(now.world), now.store, b);
    CloseKeepsResolved(InForce(now.world), now.store, b, d);
    ActsCompose(s, before, [Do(Close(b))]);
    ActAllOne(now, Do(Close(b)));
  }

  /** After an accepted close the world is one that the condition speaks of. */
  lemma WorldAfterClose(s: System, before: seq<Action>, b: BeadId, d: BeadId, after: seq<Action>)
    returns (later: seq<Op>)
    requires ClosesAfter(s, before, b, d)
    ensures var closed := ActAll(s, before + [Do(Close(b))]);
            && later == OpsOf(closed, after)
            && ActAll(s, before + [Do(Close(b))] + after).world ==
               Run(s.world, OpsOf(s, before) + [Op.Lookup(s.store[b].beadType)] + later)
  {
    var close := Do(Close(b));
    var now, closed := ActAll(s, before), ActAll(s, before + [close]);
    RecordsStay(s, before);
    ActsCompose(s, before, [close]);
    ActAllOne(now, close);
    ActsCompose(s, before + [close], after);
    WorldIsRun(s, before);
    WorldIsRun(closed, after);
    later := OpsOf(closed, after);
    var lookup := Op.Lookup(s.store[b].beadType);
    RunOfOne(now.world, lookup);
    RunsCompose(s.world, OpsOf(s, before), [lookup]);
    RunsCompose(s.world, OpsOf(s, before) + [lookup], later);
  }

  lemma ActKeepsResolved(s: System, a: Action, d: BeadId)
    requires SafeTables(InForce(s.world)) && d in s.store && Resolved(s.store[d].status)
    ensures d in Act(s, a).store && Resolved(Act(s, a).store[d].status)
  {
    if a.Do? {
      ResolvedStays(InForce(s.world), s.store, a.cmd, d);
    }
  }

  lemma ResolvedExtends(s: System, actions: seq<Action>, a: Action, d: BeadId)
    requires ResolvedAfter(s, actions, d) && SafeTables(InForce(ActAll(s, actions).world))
    ensures ResolvedAfter(s, actions + [a], d)
  {
    ActKeepsResolved(ActAll(s, actions), a, d);
    ActsCompose(s, actions, [a]);
    ActAllOne(ActAll(s, actions), a);
  }

  lemma SafeFromThenOn(admin: Op -> bool, s: System, before: seq<Action>, after: seq<Action>, b: BeadId, d: BeadId)
    requires SafeOnceClosed(s.world, admin)
    requires PermitsActions(admin, before) && PermitsActions(admin, after) && ClosesAfter(s, before, b, d)
    ensures SafeTables(InForce(ActAll(s, before + [Do(Close(b))] + after).world))
  {
    ResolvedAtTheClose(s, before, b, d);
    var later := WorldAfterClose(s, before, b, d, after);
    OpsArePermitted(admin, s, before);
    OpsArePermitted(admin, ActAll(s, before + [Do(Close(b))]), after);
    assert SafeAfter(s.world, OpsOf(s, before) + [Op.Lookup(s.store[b].beadType)] + later);
  }

  lemma {:induction false} ResolvedFromThenOn(admin: Op -> bool, s: System, before: seq<Action>, after: seq<Action>,
                                              b: BeadId, d: BeadId)
    requires SafeOnceClosed(s.world, admin)
    requires PermitsActions(admin, before) && PermitsActions(admin, after) && ClosesAfter(s, before, b, d)
    ensures ResolvedAfter(s, before + [Do(Close(b))] + after, d)
    decreases |after|
  {
    var closing := before + [Do(Close(b))];
    if after == [] {
      assert closing + after == closing;
      ResolvedAtTheClose(s, before, b, d);
    } else {
      var earlier, last := after[..|after| - 1], after[|after| - 1];
      assert closing + after == closing + earlier + [last];
      ResolvedFromThenOn(admin, s, before, earlier, b, d);
      SafeFromThenOn(admin, s, before, earlier, b, d);
      ResolvedExtends(s, closing + earlier, last, d);
    }
  }

  // Unsafe tables break it

  function Changes(ops: seq<Op>): (actions: seq<Action>)
    ensures |actions| == |ops| && forall i :: 0 <= i < |ops| ==> actions[i] == Change(ops[i])
  {
    seq(|ops|, i requires 0 <= i < |ops| => Change(ops[i]))
  }

  lemma {:induction false} ChangesRun(s: System, ops: seq<Op>)
    ensures ActAll(s, Changes(ops)) == s.(world := Run(s.world, ops))
  {
    if ops != [] {
      var before := ops[..|ops| - 1];
      ChangesRun(s, before);
      assert Changes(ops)[..|ops| - 1] == Changes(before);
    }
  }

  lemma ChangesArePermitted(admin: Op -> bool, ops: seq<Op>)
    requires Permits(admin, ops)
    ensures PermitsActions(admin, Changes(ops))
  {
  }

  /** A dependent in a terminal state, and a dependency about to take an unsafe move. */
  function TwoBeads(u: BeadType, terminal: State, t: BeadType, from: State): (store: Store)
    ensures "b-1" in store && "d-1" in store
    ensures store["b-1"] == Bead(u, terminal, ["d-1"]) && store["d-1"] == Bead(t, from, [])
  {
    assert "b-1"[0] != "d-1"[0];
    map["b-1" := Bead(u, terminal, ["d-1"]), "d-1" := Bead(t, from, [])]
  }

  lemma TwoBeadsClose(tables: Tables, u: BeadType, terminal: State, t: BeadType, from: State)
    requires terminal in tables(u).terminal && Resolved(from)
    ensures var store := TwoBeads(u, terminal, t, from);
            && Guard(tables, store, Close("b-1")).None?
            && Execute(tables, store, Close("b-1")) == store["b-1" := Bead(u, "closed", ["d-1"])]
  {
    CloseAcceptedExactly(tables, TwoBeads(u, terminal, t, from), "b-1");
  }

  lemma UnsafeMoveIsTaken(tables: Tables, store: Store, d: BeadId, to: State)
    requires d in store && Resolved(store[d].status) && to != "" && !Resolved(to)
    requires Moves(tables(store[d].beadType), store[d].status, to)
    ensures var now := Execute(tables, store, Update(d, Some(to)));
            d in now && now[d].status == to
  {
  }

  lemma UnsafeRunEnds(w: World, first: seq<Op>, u: BeadType, later: seq<Op>, terminal: State, t: BeadType,
                      from: State, to: State)
    requires terminal in InForce(Run(w, first))(u).terminal
    requires Resolved(from) && to != "" && !Resolved(to)
    requires Moves(InForce(Run(w, first + [Op.Lookup(u)] + later))(t), from, to)
    ensures var s := System(w, TwoBeads(u, terminal, t, from));
            var close, move := Do(Close("b-1")), Do(Update("d-1", Some(to)));
            var store := ActAll(s, Changes(first) + [close] + Changes(later) + [move]).store;
            "d-1" in store && store["d-1"].status == to
  {
    var s := System(w, TwoBeads(u, terminal, t, from));
    var close, move := Do(Close("b-1")), Do(Update("d-1", Some(to)));
    var changed := s.(world := Run(w, first));
    ChangesRun(s, first);
    ActsCompose(s, Changes(first), [close]);
    ActAllOne(changed, close);
    TwoBeadsClose(InForce(changed.world), u, terminal, t, from);
    var closed := ActAll(s, Changes(first) + [close]);
    assert closed == Act(changed, close);
    assert "b-1"[0] != "d-1"[0];
    assert closed.store["d-1"] == Bead(t, from, []);
    ChangesRun(closed, later);
    ActsCompose(s, Changes(first) + [close], Changes(later));
    var last := ActAll(s, Changes(first) + [close] + Changes(later));
    RunOfOne(changed.world, Op.Lookup(u));
    RunsCompose(w, first, [Op.Lookup(u)]);
    RunsCompose(w, first + [Op.Lookup(u)], later);
    assert last.world == Run(w, first + [Op.Lookup(u)] + later);
    UnsafeMoveIsTaken(InForce(last.world), last.store, "d-1", to);
    ActsCompose(s, Changes(first) + [close] + Changes(later), [move]);
    ActAllOne(last, move);
  }

  lemma UnsafeRunCloses(w: World, first: seq<Op>, u: BeadType, terminal: State, t: BeadType, from: State)
    requires terminal in InForce(Run(w, first))(u).terminal && Resolved(from)
    ensures ClosesAfter(System(w, TwoBeads(u, terminal, t, from)), Changes(first), "b-1", "d-1")
  {
    var s := System(w, TwoBeads(u, terminal, t, from));
    ChangesRun(s, first);
    TwoBeadsClose(InForce(Run(w, first)), u, terminal, t, from);
    assert s.store["b-1"].dependsOn[0] == "d-1";
  }

  lemma BreaksPromise(w: World, admin: Op -> bool, store: Store, before: seq<Action>, after: seq<Action>, b: BeadId,
                      d: BeadId)
    requires PermitsActions(admin, before) && PermitsActions(admin, after)
    requires ClosesAfter(System(w, store), before, b, d)
    requires !ResolvedAfter(System(w, store), before + [Do(Close(b))] + after, d)
    ensures !Promised(w, admin)
  {
  }

  /** Change the configuration, close the dependent, change it again, take the unsafe move. */
  lemma UnsafeRunBreaksPromise(w: World, admin: Op -> bool, first: seq<Op>, u: BeadType, later: seq<Op>,
                               terminal: State, t: BeadType, from: State, to: State)
    requires Permits(admin, first) && Permits(admin, later)
    requires terminal in InForce(Run(w, first))(u).terminal
    requires Resolved(from) && to != "" && !Resolved(to)
    requires Moves(InForce(Run(w, first + [Op.Lookup(u)] + later))(t), from, to)
    ensures !Promised(w, admin)
  {
    var move := Do(Update("d-1", Some(to)));
    var closing := Changes(first) + [Do(Close("b-1"))];
    ChangesArePermitted(admin, first);
    ChangesArePermitted(admin, later);
    UnsafeRunCloses(w, first, u, terminal, t, from);
    UnsafeRunEnds(w, first, u, later, terminal, t, from, to);
    assert closing + (Changes(later) + [move]) == closing + Changes(later) + [move];
    BreaksPromise(w, admin, TwoBeads(u, terminal, t, from), Changes(first), Changes(later) + [move], "b-1", "d-1");
  }

  lemma UnsafeChangeBreaksPromise(w: World, admin: Op -> bool, first: seq<Op>, u: BeadType, later: seq<Op>)
    requires Permits(admin, first) && Permits(admin, later) && Closable(w, first, u)
    requires !SafeAfter(w, first + [Op.Lookup(u)] + later)
    ensures !Promised(w, admin)
  {
    var tables := InForce(Run(w, first + [Op.Lookup(u)] + later));
    var t: BeadType, from: State, to: State :|
      Resolved(from) && Moves(tables(t), from, to) && to != "" && !Resolved(to);
    var terminal := InForce(Run(w, first))(u).terminal;
    UnsafeRunBreaksPromise(w, admin, first, u, later, terminal[0], t, from, to);
  }

  /**
   Exactly when the guard keeps its promise while the configuration changes: when from the
   first possible close on no permitted operations, lookups that fill the cache included,
   bring unsafe tables into force.
   */
  lemma PromisedExactly(w: World, admin: Op -> bool)
    ensures Promised(w, admin) <==> SafeOnceClosed(w, admin)
  {
    if SafeOnceClosed(w, admin) {
      forall store: Store, before: seq<Action>, after: seq<Action>, b: BeadId, d: BeadId
        | PermitsActions(admin, before) && PermitsActions(admin, after) && ClosesAfter(System(w, store), before, b, d)
        ensures ResolvedAfter(System(w, store), before, d)
        ensures ResolvedAfter(System(w, store), before + [Do(Close(b))] + after, d)
      {
        ResolvedAtTheClose(System(w, store), before, b, d);
        ResolvedFromThenOn(admin, System(w, store), before, after, b, d);
      }
    } else {
      var first: seq<Op>, u: BeadType, later: seq<Op> :|
        && Permits(admin, first) && Permits(admin, later) && Closable(w, first, u)
        && !SafeAfter(w, first + [Op.Lookup(u)] + later);
      UnsafeChangeBreaksPromise(w, admin, first, u, later);
    }
  }

  // Without a database and a YAML file

  predicate Bare(w: World) {
    w.file == Missing && w.dbs == map[] && (w.cache.Some? ==> w.cache.value == map[])
  }

  lemma {:induction false} BareStays(w: World, ops: seq<Op>)
    requires Bare(w) && forall op :: op in ops ==> !op.EditYaml?
    ensures Bare(Run(w, ops))
  {
    if ops != [] {
      BareStays(w, ops[..|ops| - 1]);
      assert ops[|ops| - 1] in ops;
    }
  }

  lemma BareIsSafe(w: World)
    requires Bare(w)
    ensures SafeTables(InForce(w))
  {
    forall t: BeadType, from: State, to: State | Moves(InForce(w)(t), from, to)
      ensures !Resolved(from)
    {
      assert InForce(w)(t) == BuiltIn(t);
      BuiltInMovesAreOpen(t, from, to);
    }
  }

  predicate NoEdit(op: Op) {
    !op.EditYaml?
  }

  lemma BareStaysSafe(w: World, first: seq<Op>, u: BeadType, later: seq<Op>)
    requires Bare(w) && Permits(NoEdit, first) && Permits(NoEdit, later)
    ensures SafeAfter(w, first + [Op.Lookup(u)] + later)
  {
    var ops := first + [Op.Lookup(u)] + later;
    BareStays(w, ops);
    BareIsSafe(Run(w, ops));
  }

  /** Saves, path changes and clears cannot break the promise where there is no database: only a YAML file can. */
  lemma BareKeepsPromise(w: World)
    requires Bare(w)
    ensures Promised(w, NoEdit)
  {
    forall first: seq<Op>, u: BeadType, later: seq<Op>
      | Permits(NoEdit, first) && Permits(NoEdit, later) && Closable(w, first, u)
      ensures SafeAfter(w, first + [Op.Lookup(u)] + later)
    {
      BareStaysSafe(w, first, u, later);
    }
    PromisedExactly(w, NoEdit);
  }
}
