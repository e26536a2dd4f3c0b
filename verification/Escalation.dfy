/**
 The escalation monitor: one row per worker, moved between four states by the monitor's own
 checks, by activity reports, and by whoever resolves an escalation.
 */
module Escalation {
  import opened Wrappers
  import opened Basics

  datatype State = Normal | IdleWarning | EscalatedPending | EscalatedResolved

  function Transitions(s: State): set<State> {
    match s
    case Normal => {IdleWarning, EscalatedPending}
    case IdleWarning => {Normal, EscalatedPending}
    case EscalatedPending => {EscalatedResolved, Normal}
    case EscalatedResolved => {Normal}
  }

  datatype Row = Row(state: State, lastActivity: Time, idleSince: Option<Time>)

  type Rows = map<WorkerId, Row>

  /** The escalation timeout of a role, in minutes; "CEO" is matched ignoring case. */
  function TimeoutFor(roleIsCeo: bool, manager: Option<WorkerId>): int {
    if manager.None? && roleIsCeo then 60 else if manager.None? then 45 else 30
  }

  /** A guarded move: anything the table does not allow is dropped. */
  function Moved(row: Row, to: State, now: Time): Row {
    if to in Transitions(row.state)
    then row.(state := to, idleSince := if to == EscalatedPending then Some(now) else None)
    else row
  }

  /** What a check wants to do with a row: the state to move to, if any. */
  function Wanted(row: Row, timeout: Time, now: Time): Option<State> {
    match row.state
    case Normal => if now - row.lastActivity > timeout then Some(EscalatedPending) else None
    case IdleWarning =>
      if now - row.lastActivity > timeout then Some(EscalatedPending)
      else if now - row.lastActivity < Minutes(5) then Some(Normal)
      else None
    case EscalatedPending => None
    case EscalatedResolved => Some(Normal)
  }

  /**
   What goes wrong in a check: nothing, the worker's record is gone when an escalation is to
   be written about it, or the table cannot be written.
   */
  datatype Fault = NoFault | WorkerGone | WriteFails

  /** Something that happens to the monitor's table. `Resolve` is an outside call of the guarded move. */
  datatype Event = Check(w: WorkerId, timeout: Time, now: Time, fault: Fault)
                 | Activity(w: WorkerId, now: Time)
                 | Resolve(w: WorkerId, to: State, now: Time)

  function Handle(rows: Rows, e: Event): Rows {
    match e
    case Check(w, timeout, now, fault) =>
      if fault.WriteFails? then rows
      else if w !in rows then rows[w := Row(Normal, now, None)]
      else
        var wanted := Wanted(rows[w], timeout, now);
        if wanted.None? || (wanted.value == EscalatedPending && fault.WorkerGone?) then rows
        else rows[w := Moved(rows[w], wanted.value, now)]
    case Activity(w, now) => rows[w := if w in rows then rows[w].(lastActivity := now) else Row(Normal, now, None)]
    case Resolve(w, to, now) => if w in rows then rows[w := Moved(rows[w], to, now)] else rows
  }

  /**
   Whether an event makes the monitor create an escalation: exactly a check of a worker on
   record that is normal or warned and idle for longer than its timeout.
   */
  predicate Attempts(rows: Rows, e: Event)
    ensures Attempts(rows, e) <==>
            && e.Check? && e.w in rows && !e.fault.WorkerGone?
            && rows[e.w].state in {Normal, IdleWarning}
            && e.now - rows[e.w].lastActivity > e.timeout
  {
    && e.Check? && e.w in rows && !e.fault.WorkerGone?
    && Wanted(rows[e.w], e.timeout, e.now) == Some(EscalatedPending)
  }

  /** Whether a check raises: a row it has to write and cannot, or an escalation about a vanished worker. */
  predicate Raises(rows: Rows, e: Event)
    requires e.Check?
  {
    if e.w !in rows then e.fault.WriteFails?
    else
      var wanted := Wanted(rows[e.w], e.timeout, e.now);
      wanted.Some? && (e.fault.WriteFails? || (wanted.value == EscalatedPending && e.fault.WorkerGone?))
  }

  class Monitor {
    var rows: Rows
    /** The escalations attempted, newest last. */
    var escalations: seq<WorkerId>

    constructor ()
      ensures rows == map[] && escalations == []
    {
      rows, escalations := map[], [];
    }

    method TransitionState(w: WorkerId, to: State, now: Time)
      modifies this`rows
      ensures rows == Handle(old(rows), Resolve(w, to, now))
    {
      if w in rows {
        var allowed := Transitions(rows[w].state);
        if to !in allowed {
          assert rows == rows[w := rows[w]];
          return;
        }
        rows := rows[w := Row(to, rows[w].lastActivity, if to == EscalatedPending then Some(now) else None)];
      }
    }

    method CreateEscalation(w: WorkerId, fault: Fault) returns (ok: bool)
      modifies this`escalations
      ensures ok <==> !fault.WorkerGone?
      ensures escalations == old(escalations) + if ok then [w] else []
    {
      ok := !fault.WorkerGone?;
      if ok {
        escalations := escalations + [w];
      }
    }

    method CheckWorkerEscalation(w: WorkerId, roleIsCeo: bool, manager: Option<WorkerId>, now: Time, fault: Fault)
      returns (raised: bool)
      modifies this
      ensures var e := Check(w, Minutes(TimeoutFor(roleIsCeo, manager)), now, fault);
              && rows == Handle(old(rows), e)
              && escalations == old(escalations) + (if Attempts(old(rows), e) then [w] else [])
              && (raised <==> Raises(old(rows), e))
    {
      if w !in rows {
        if fault.WriteFails? {
          return true;
        }
        rows := rows[w := Row(Normal, now, None)];
        return false;
      }
      var timeout := Minutes(TimeoutFor(roleIsCeo, manager));
      var idle := now - rows[w].lastActivity;
      var to: Option<State> := None;
      match rows[w].state {
        case Normal =>
          if idle > timeout {
            to := Some(EscalatedPending);
          }
        case IdleWarning =>
          if idle > timeout {
            to := Some(EscalatedPending);
          } else if idle < Minutes(5) {
            to := Some(Normal);
          }
        case EscalatedPending =>
        case EscalatedResolved =>
          to := Some(Normal);
      }
      if to.None? {
        return false;
      }
      if to.value == EscalatedPending {
        var ok := CreateEscalation(w, fault);
        if !ok {
          return true;
        }
      }
      if fault.WriteFails? {
        return true;
      }
      TransitionState(w, to.value, now);
      raised := false;
    }

    method UpdateWorkerActivity(w: WorkerId, now: Time)
      modifies this`rows
      ensures rows == Handle(old(rows), Activity(w, now))
    {
      if w in rows {
        rows := rows[w := rows[w].(lastActivity := now)];
      } else {
        rows := rows[w := Row(Normal, now, None)];
      }
    }
  }

  // Whole runs

  function RowsAt(rows: Rows, events: seq<Event>, i: nat): Rows
    requires i <= |events|
  {
    if i == 0 then rows else Handle(RowsAt(rows, events, i - 1), events[i - 1])
  }

  predicate Pending(rows: Rows, w: WorkerId) {
    w in rows && rows[w].state == EscalatedPending
  }

  ghost predicate Sound(rows: Rows) {
    forall w :: w in rows ==> (rows[w].idleSince.Some? <==> rows[w].state == EscalatedPending)
  }

  /**
   Every step of every run follows the table for every worker, and the monitor's own checks
   never put a worker into the warning state.
   */
  lemma StepsFollowTable(rows: Rows, e: Event, w: WorkerId)
    requires w in rows
    ensures w in Handle(rows, e)
    ensures var was, now := rows[w].state, Handle(rows, e)[w].state;
            && (now == was || now in Transitions(was))
            && (e.Check? && now == IdleWarning ==> was == IdleWarning)
            && (e.Activity? ==> now == was)
  {
  }

  /** In every reachable table a worker has an idle start time exactly while an escalation is pending. */
  lemma {:induction false} IdleSinceMarksPending(rows: Rows, events: seq<Event>, i: nat)
    requires Sound(rows) && i <= |events|
    ensures Sound(RowsAt(rows, events, i))
    decreases i
  {
    if i > 0 {
      IdleSinceMarksPending(rows, events, i - 1);
    }
  }

  // What one event does

  /** An event changes the row of its own worker only. */
  lemma OthersUntouched(rows: Rows, e: Event, w: WorkerId)
    requires w != e.w
    ensures w in Handle(rows, e) <==> w in rows
    ensures w in rows ==> Handle(rows, e)[w] == rows[w]
  {
  }

  /** The minutes of idleness from which a role is escalated. */
  lemma AttemptsByRole(rows: Rows, w: WorkerId, roleIsCeo: bool, manager: Option<WorkerId>, now: Time, fault: Fault)
    requires w in rows
    ensures Attempts(rows, Check(w, Minutes(TimeoutFor(roleIsCeo, manager)), now, fault)) <==>
            && !fault.WorkerGone? && rows[w].state in {Normal, IdleWarning}
            && now - rows[w].lastActivity > Minutes(if manager.Some? then 30 else if roleIsCeo then 60 else 45)
  {
  }

  /**
   What a check that can write makes of a row: a resolved worker is normal again, and so is a
   warned one that was active in the last five minutes; one escalated now is pending, idle
   since now; all other rows stay as they are.
   */
  lemma CheckExactly(rows: Rows, w: WorkerId, timeout: Time, now: Time)
    requires w in rows
    ensures var row, after := rows[w], Handle(rows, Check(w, timeout, now, NoFault))[w];
            var idle := now - row.lastActivity;
            && after.lastActivity == row.lastActivity
            && (row.state == EscalatedResolved ==> after.state == Normal && after.idleSince == None)
            && (row.state == EscalatedPending ==> after == row)
            && (row.state in {Normal, IdleWarning} && idle > timeout ==>
                  after.state == EscalatedPending && after.idleSince == Some(now))
            && (row.state == IdleWarning && idle <= timeout && idle < Minutes(5) ==>
                  after.state == Normal && after.idleSince == None)
            && (row.state == IdleWarning && Minutes(5) <= idle <= timeout ==> after == row)
            && (row.state == Normal && idle <= timeout ==> after == row)
  {
  }

  /** The first check of a worker creates its row, normal and active now. */
  lemma FirstCheckExactly(rows: Rows, w: WorkerId, timeout: Time, now: Time, fault: Fault)
    requires w !in rows && !fault.WriteFails?
    ensures Handle(rows, Check(w, timeout, now, fault)) == rows[w := Row(Normal, now, None)]
  {
  }

  /** Which moves an outside caller can make, and what they leave. */
  lemma ResolveExactly(rows: Rows, w: WorkerId, to: State, now: Time)
    requires w in rows
    ensures var row, after := rows[w], Handle(rows, Resolve(w, to, now))[w];
            if || (to == Normal && row.state != Normal)
               || (to == IdleWarning && row.state == Normal)
               || (to == EscalatedPending && row.state in {Normal, IdleWarning})
               || (to == EscalatedResolved && row.state == EscalatedPending)
            then after == Row(to, row.lastActivity, if to == EscalatedPending then Some(now) else None)
            else after == row
  {
  }

  /** A report sets the time of the last activity and nothing else, or creates a normal row. */
  lemma ActivityExactly(rows: Rows, w: WorkerId, now: Time)
    ensures var after := Handle(rows, Activity(w, now));
            && w in after && after[w].lastActivity == now
            && (w in rows ==> after[w].state == rows[w].state && after[w].idleSince == rows[w].idleSince)
            && (w !in rows ==> after[w].state == Normal && after[w].idleSince == None)
  {
  }

  function CountAttempts(rows: Rows, events: seq<Event>, n: nat, w: WorkerId): nat
    requires n <= |events|
  {
    if n == 0 then 0
    else CountAttempts(rows, events, n - 1, w) +
         if events[n - 1].w == w && Attempts(RowsAt(rows, events, n - 1), events[n - 1]) then 1 else 0
  }

  /**
   A worker whose escalation was resolved is escalated again if it stays quiet: the first
   check makes it normal, and the next one escalates it exactly past the timeout of its role.
   */
  lemma EscalatedAgainExactly(rows: Rows, w: WorkerId, roleIsCeo: bool, manager: Option<WorkerId>, t1: Time, t2: Time)
    requires w in rows && rows[w].state == EscalatedResolved
    ensures var timeout := Minutes(TimeoutFor(roleIsCeo, manager));
            var events := [Check(w, timeout, t1, NoFault), Check(w, timeout, t2, NoFault)];
            && CountAttempts(rows, events, 1, w) == 0
            && (Pending(RowsAt(rows, events, 2), w) <==>
                t2 - rows[w].lastActivity > Minutes(if manager.Some? then 30 else if roleIsCeo then 60 else 45))
            && CountAttempts(rows, events, 2, w) == if Pending(RowsAt(rows, events, 2), w) then 1 else 0
  {
    var timeout := Minutes(TimeoutFor(roleIsCeo, manager));
    var events := [Check(w, timeout, t1, NoFault), Check(w, timeout, t2, NoFault)];
    assert RowsAt(rows, events, 0) == rows;
    CheckExactly(rows, w, timeout, t1);
    var normal := RowsAt(rows, events, 1);
    assert normal == Handle(rows, events[0]);
    CheckExactly(normal, w, timeout, t2);
    assert RowsAt(rows, events, 2) == Handle(normal, events[1]);
    AttemptsByRole(normal, w, roleIsCeo, manager, t2, NoFault);
    assert CountAttempts(rows, events, 0, w) == 0;
  }

  // Counting over a run

  /** Steps at which worker `w` starts to have a pending escalation. */
  function CountEntries(rows: Rows, events: seq<Event>, n: nat, w: WorkerId): nat
    requires n <= |events|
  {
    if n == 0 then 0
    else CountEntries(rows, events, n - 1, w) +
         if !Pending(RowsAt(rows, events, n - 1), w) && Pending(RowsAt(rows, events, n), w) then 1 else 0
  }

  /** Steps at which it stops having one. */
  function CountExits(rows: Rows, events: seq<Event>, n: nat, w: WorkerId): nat
    requires n <= |events|
  {
    if n == 0 then 0
    else CountExits(rows, events, n - 1, w) +
         if Pending(RowsAt(rows, events, n - 1), w) && !Pending(RowsAt(rows, events, n), w) then 1 else 0
  }

  /** The outside never asks for an escalation itself. */
  ghost predicate OnlyResolves(events: seq<Event>) {
    forall i :: 0 <= i < |events| && events[i].Resolve? ==> events[i].to != EscalatedPending
  }

  predicate Unrecorded(rows: Rows, e: Event) {
    Attempts(rows, e) && e.fault.WriteFails?
  }

  /** Steps at which an escalation of `w` is created but the pending state cannot be written. */
  function CountUnrecorded(rows: Rows, events: seq<Event>, n: nat, w: WorkerId): nat
    requires n <= |events|
  {
    if n == 0 then 0
    else CountUnrecorded(rows, events, n - 1, w) +
         if events[n - 1].w == w && Unrecorded(RowsAt(rows, events, n - 1), events[n - 1]) then 1 else 0
  }

  lemma EntryIsRecordedAttempt(rows: Rows, e: Event, w: WorkerId)
    requires e.Resolve? ==> e.to != EscalatedPending
    ensures !Pending(rows, w) && Pending(Handle(rows, e), w) <==> e.w == w && Attempts(rows, e) && !Unrecorded(rows, e)
  {
  }

  /**
   Conservation: starting from a worker with no pending escalation, the escalations attempted
   for it are exactly its entries into the pending state and the attempts that could not be
   recorded; entries exceed exits by one while an escalation is pending and by none otherwise.
   So an escalation is raised a second time only if the first could not be recorded.
   */
  lemma {:induction false} AttemptsBalance(rows: Rows, events: seq<Event>, n: nat, w: WorkerId)
    requires n <= |events| && OnlyResolves(events) && !Pending(rows, w)
    ensures CountAttempts(rows, events, n, w) ==
            CountEntries(rows, events, n, w) + CountUnrecorded(rows, events, n, w)
    ensures CountEntries(rows, events, n, w) ==
            CountExits(rows, events, n, w) + if Pending(RowsAt(rows, events, n), w) then 1 else 0
    decreases n
  {
    if n > 0 {
      AttemptsBalance(rows, events, n - 1, w);
      EntryIsRecordedAttempt(RowsAt(rows, events, n - 1), events[n - 1], w);
    }
  }

  // Activity keeps escalation away

  function When(e: Event): Time {
    e.now
  }

  ghost predicate Clocked(events: seq<Event>) {
    forall i, j :: 0 <= i < j < |events| ==> When(events[i]) <= When(events[j])
  }

  lemma {:induction false} ActivityIsRemembered(rows: Rows, events: seq<Event>, j: nat, k: nat, w: WorkerId)
    requires Clocked(events) && j < k <= |events| && events[j].Activity? && events[j].w == w
    ensures var now := RowsAt(rows, events, k);
            w in now && now[w].lastActivity >= events[j].now
    decreases k
  {
    if k > j + 1 {
      ActivityIsRemembered(rows, events, j, k - 1, w);
      assert When(events[j]) <= When(events[k - 1]);
    }
  }

  /** Every check of `w` finds an activity report no older than the check's timeout. */
  ghost predicate KeepsReporting(events: seq<Event>, w: WorkerId) {
    forall k :: 0 <= k < |events| && events[k].Check? && events[k].w == w ==>
                  exists j :: 0 <= j < k && events[j].Activity? && events[j].w == w &&
                              events[k].now - events[j].now <= events[k].timeout
  }

  /** A worker that keeps reporting activity is never escalated, whatever state it starts in. */
  lemma {:induction false} ReportingPreventsEscalation(rows: Rows, events: seq<Event>, n: nat, w: WorkerId)
    requires Clocked(events) && KeepsReporting(events, w) && n <= |events|
    ensures CountAttempts(rows, events, n, w) == 0
    decreases n
  {
    if n > 0 {
      ReportingPreventsEscalation(rows, events, n - 1, w);
      var e := events[n - 1];
      if e.Check? && e.w == w {
        var j :| 0 <= j < n - 1 && events[j].Activity? && events[j].w == w && e.now - events[j].now <= e.timeout;
        ActivityIsRemembered(rows, events, j, n - 1, w);
      }
    }
  }
}
