/**
 Starting and stopping an org: the org status, the CEO's lifecycle and the status cached in
 memory, with a failure possible at every step and the rollbacks the code attempts.
 */
module OrgStart {
  import opened Wrappers

  datatype OrgStatus = Uninitialized | Initialized | Running | Stopped

  datatype Lifecycle = Pending | Onboarding | Active | Offboarding | Suspended | Terminated

  function OrgTransitions(s: OrgStatus): set<OrgStatus> {
    match s
    case Uninitialized => {Initialized}
    case Initialized => {Running}
    case Running => {Stopped}
    case Stopped => {Running}
  }

  function LifecycleTransitions(s: Lifecycle): set<Lifecycle> {
    match s
    case Pending => {Onboarding, Terminated}
    case Onboarding => {Active, Terminated}
    case Active => {Offboarding, Suspended, Terminated}
    case Offboarding => {Terminated}
    case Suspended => {Active, Terminated}
    case Terminated => {}
  }

  /**
   The places where a start or a stop can raise: reads and writes of the database, the event
   published after the CEO's status has been committed, the look for a briefing file, the
   message to the terminal that opens the handler, and the calls in between.
   */
  datatype Step = ReadStatus | FetchCeo | PrepareOnboarding
                | WriteOnboarding | PublishOnboarding | ReloadOnboarding
                | WriteActive | PublishActive | ReloadActive | ReadCeo | RestoreCeo
                | LookForBriefing | DeliverBriefing | WriteRunning | RereadStatus | BuildChart
                | ReportFailure | ReadInHandler | WriteRollback | StopMonitors | WriteStopped

  datatype Failure = InvalidOrgTransition | Raised

  /** The persisted org status and CEO lifecycle, and the status held in memory. */
  datatype OrgState = OrgState(status: OrgStatus, cached: Option<OrgStatus>, ceo: Option<Lifecycle>) {

    /** The status as the code reads it: from memory if it is there. */
    function Seen(): OrgStatus {
      if cached.Some? then cached.value else status
    }

    function Loaded(): OrgState {
      this.(cached := Some(Seen()))
    }

    /** A status that has to be read and cannot be. */
    predicate Unreadable(fails: bool) {
      cached.None? && fails
    }
  }

  /** What onboarding the CEO leaves: the lifecycle as stored, and as the worker object still holds it. */
  datatype Activation = Activation(ok: bool, stored: Lifecycle, held: Option<Lifecycle>)

  function Activate(ceo: Lifecycle, faults: set<Step>): Activation {
    if Onboarding !in LifecycleTransitions(ceo) || PrepareOnboarding in faults || WriteOnboarding in faults
    then Activation(false, ceo, Some(ceo))
    else if PublishOnboarding in faults then Activation(false, Onboarding, Some(ceo))
    else if ReloadOnboarding in faults then Activation(false, Onboarding, None)
    else if WriteActive in faults then Activation(false, Onboarding, Some(Onboarding))
    else if PublishActive in faults then Activation(false, Active, Some(Onboarding))
    else if ReloadActive in faults then Activation(false, Active, None)
    else Activation(true, Active, Some(Active))
  }

  /**
   The first start's CEO part. A failed activation is undone if the lifecycle the worker
   object holds, or reads if it holds none, is not the one from before.
   */
  function ActivateOrRestore(s: OrgState, faults: set<Step>): (bool, OrgState) {
    if s.ceo.None? then (true, s)
    else if FetchCeo in faults then (false, s)
    else
      var a := Activate(s.ceo.value, faults);
      var noticed := if a.held.Some? then a.held.value != s.ceo.value
                     else ReadCeo !in faults && a.stored != s.ceo.value;
      if !a.ok && noticed && RestoreCeo !in faults then (false, s) else (a.ok, s.(ceo := Some(a.stored)))
  }

  function WriteRun(s: OrgState, faults: set<Step>): (OrgState, Option<Failure>) {
    if WriteRunning in faults then (s, Some(Raised))
    else if RereadStatus in faults then (s.(status := Running, cached := None), Some(Raised))
    else (s.(status := Running, cached := Some(Running)), None)
  }

  /** `Org.start`: the state it leaves, and how it failed if it did. */
  function Started(s0: OrgState, faults: set<Step>, briefing: bool): (OrgState, Option<Failure>) {
    if s0.Unreadable(ReadStatus in faults) then (s0, Some(Raised))
    else
      var s := s0.Loaded();
      match s.Seen()
      case Initialized =>
        var (ok, t) := ActivateOrRestore(s, faults);
        if !ok then (t, Some(Raised))
        else if LookForBriefing in faults || (briefing && (t.ceo.None? || DeliverBriefing in faults))
        then (t, Some(Raised))
        else WriteRun(t, faults)
      case Stopped => WriteRun(s, faults)
      case _ => (s, Some(InvalidOrgTransition))
  }

  function StoppedFrom(s0: OrgState, faults: set<Step>): (OrgState, Option<Failure>) {
    if s0.Unreadable(ReadStatus in faults) then (s0, Some(Raised))
    else
      var s := s0.Loaded();
      if s.Seen() != Running then (s, Some(InvalidOrgTransition))
      else if StopMonitors in faults || WriteStopped in faults then (s, Some(Raised))
      else (OrgState(Stopped, None, s.ceo), None)
  }

  datatype StartMode = FirstStart | Resume | AlreadyRunning

  function Mode(s: OrgStatus): Option<StartMode> {
    match s
    case Running => Some(AlreadyRunning)
    case Initialized => Some(FirstStart)
    case Stopped => Some(Resume)
    case Uninitialized => None
  }

  function RolledBack(s: OrgState, to: OrgStatus, faults: set<Step>): OrgState {
    if WriteRollback in faults then s else s.(status := to, cached := None)
  }

  /** The transition phase: start the org and rebuild the chart; on failure put the org status back. */
  function Transitioned(s: OrgState, mode: StartMode, faults: set<Step>, briefing: bool): (OrgState, Option<Failure>) {
    var (t, failure) := Started(s, faults, briefing);
    if failure == Some(InvalidOrgTransition) || (failure.None? && BuildChart !in faults) then (t, failure)
    else if ReportFailure in faults || t.Unreadable(ReadInHandler in faults) then (t, Some(Raised))
    else
      var u := t.Loaded();
      if u.Seen() != Running then (u, Some(Raised))
      else match mode
        case FirstStart => (RolledBack(u, Initialized, faults), Some(Raised))
        case Resume => (RolledBack(u, Stopped, faults), Some(Raised))
        case AlreadyRunning => (u, Some(Raised))
  }

  class Org {
    var status: OrgStatus
    var cached: Option<OrgStatus>
    var ceo: Option<Lifecycle>

    ghost function View(): OrgState
      reads this
    {
      OrgState(status, cached, ceo)
    }

    /** A handle on a stored org, its status loaded. */
    constructor Load(status: OrgStatus, ceo: Option<Lifecycle>)
      ensures View() == OrgState(status, Some(status), ceo)
    {
      this.status, this.cached, this.ceo := status, Some(status), ceo;
    }

    /** Nothing is returned if the status has to be read and reading it raises. */
    method Status(fails: bool) returns (s: Option<OrgStatus>)
      modifies this`cached
      ensures old(View()).Unreadable(fails) ==> s == None && View() == old(View())
      ensures !old(View()).Unreadable(fails) ==> s == Some(old(View()).Seen()) && View() == old(View()).Loaded()
    {
      if cached.None? {
        if fails {
          return None;
        }
        cached := Some(status);
      }
      s := cached;
    }

    method ValidateTransition(to: OrgStatus, fails: bool) returns (failure: Option<Failure>)
      modifies this`cached
      ensures failure == Some(Raised) <==> old(View()).Unreadable(fails)
      ensures failure == None <==>
              !old(View()).Unreadable(fails) &&
              (old(View()).Seen(), to) in {(Uninitialized, Initialized), (Initialized, Running), (Running, Stopped),
                                           (Stopped, Running)}
      ensures failure == Some(InvalidOrgTransition) <==>
              !old(View()).Unreadable(fails) && to !in OrgTransitions(old(View()).Seen())
      ensures View() == if old(View()).Unreadable(fails) then old(View()) else old(View()).Loaded()
    {
      var current := Status(fails);
      failure := if current.None? then Some(Raised)
                 else if to !in OrgTransitions(current.value) then Some(InvalidOrgTransition)
                 else None;
    }

    method ActivateCeo(faults: set<Step>) returns (ok: bool, held: Option<Lifecycle>)
      requires ceo.Some?
      modifies this`ceo
      ensures ceo.Some? && Activation(ok, ceo.value, held) == Activate(old(ceo).value, faults)
    {
      held := ceo;
      if Onboarding !in LifecycleTransitions(held.value) || PrepareOnboarding in faults || WriteOnboarding in faults {
        return false, held;
      }
      ceo := Some(Onboarding);
      if PublishOnboarding in faults {
        return false, held;
      }
      held := None;
      if ReloadOnboarding in faults {
        return false, held;
      }
      held := ceo;
      if Active !in LifecycleTransitions(held.value) || WriteActive in faults {
        return false, held;
      }
      ceo := Some(Active);
      if PublishActive in faults {
        return false, held;
      }
      held := None;
      if ReloadActive in faults {
        return false, held;
      }
      held := ceo;
      ok := true;
    }

    /** The activation of the CEO within a start, with the handler around it. */
    method ActivateOrRestoreCeo(faults: set<Step>) returns (ok: bool)
      modifies this`ceo
      ensures (ok, View()) == ActivateOrRestore(old(View()), faults)
    {
      if ceo.None? {
        return true;
      }
      if FetchCeo in faults {
        return false;
      }
      var before := ceo.value;
      var held;
      ok, held := ActivateCeo(faults);
      if !ok {
        if held.None? {
          if ReadCeo in faults {
            return;
          }
          held := ceo;
        }
        if held.value != before && RestoreCeo !in faults {
          ceo := Some(before);
        }
      }
    }

    method Start(faults: set<Step>, briefing: bool) returns (failure: Option<Failure>)
      modifies this
      ensures (View(), failure) == Started(old(View()), faults, briefing)
    {
      var oldStatus := Status(ReadStatus in faults);
      if oldStatus.None? {
        return Some(Raised);
      }
      failure := ValidateTransition(Running, ReadStatus in faults);
      if failure.Some? {
        return;
      }
      if oldStatus.value == Initialized {
        var ok := ActivateOrRestoreCeo(faults);
        if !ok {
          return Some(Raised);
        }
        if LookForBriefing in faults || (briefing && (ceo.None? || DeliverBriefing in faults)) {
          return Some(Raised);
        }
      }
      if WriteRunning in faults {
        return Some(Raised);
      }
      status := Running;
      cached := None;
      var newStatus := Status(RereadStatus in faults);
      failure := if newStatus.None? then Some(Raised) else None;
    }

    method RollbackToStatus(to: OrgStatus, faults: set<Step>)
      requires cached.Some?
      modifies this
      ensures View() == RolledBack(old(View()), to, faults)
    {
      if WriteRollback in faults {
        return;
      }
      status := to;
      cached := None;
    }

    method TransitionOrgState(mode: StartMode, faults: set<Step>, briefing: bool) returns (failure: Option<Failure>)
      modifies this
      ensures (View(), failure) == Transitioned(old(View()), mode, faults, briefing)
    {
      failure := Start(faults, briefing);
      if failure == Some(InvalidOrgTransition) {
        return;
      }
      if failure.None? && BuildChart !in faults {
        return;
      }
      failure := Some(Raised);
      if ReportFailure in faults {
        return;
      }
      var current := Status(ReadInHandler in faults);
      if current == Some(Running) {
        if mode == FirstStart {
          RollbackToStatus(Initialized, faults);
        } else if mode == Resume {
          RollbackToStatus(Stopped, faults);
        }
      }
    }

    method Stop(faults: set<Step>) returns (failure: Option<Failure>)
      modifies this
      ensures (View(), failure) == StoppedFrom(old(View()), faults)
    {
      var oldStatus := Status(ReadStatus in faults);
      if oldStatus.None? {
        return Some(Raised);
      }
      failure := ValidateTransition(Stopped, ReadStatus in faults);
      if failure.Some? {
        return;
      }
      if StopMonitors in faults || WriteStopped in faults {
        return Some(Raised);
      }
      status := Stopped;
      cached := None;
    }
  }

  // One failed start

  function Load(status: OrgStatus, ceo: Option<Lifecycle>): OrgState {
    OrgState(status, Some(status), ceo)
  }

  predicate ActivationSucceeds(ceo: Option<Lifecycle>, faults: set<Step>) {
    ceo.None? || (ceo.value == Pending &&
                  faults !! {FetchCeo, PrepareOnboarding, WriteOnboarding, PublishOnboarding, ReloadOnboarding,
                             WriteActive, PublishActive, ReloadActive})
  }

  /** The steps before the org status is written all succeed. */
  predicate ReachesWrite(s: OrgState, faults: set<Step>, briefing: bool) {
    && (s.status == Initialized ==>
          && ActivationSucceeds(s.ceo, faults)
          && LookForBriefing !in faults
          && (briefing ==> s.ceo.Some? && DeliverBriefing !in faults))
    && WriteRunning !in faults
  }

  /** The handler gets to read the written status, and can write the old one. */
  predicate CanRollBack(faults: set<Step>) {
    faults !! {ReportFailure, WriteRollback} && !({RereadStatus, ReadInHandler} <= faults)
  }

  /**
   When a failed transition leaves the org status as it was, in both start modes: exactly if
   the new status was never written, or the handler can report the failure, read the status
   and write the old one back.
   */
  lemma FailedTransitionExactly(status: OrgStatus, ceo: Option<Lifecycle>, faults: set<Step>, briefing: bool)
    requires status in {Initialized, Stopped}
    requires Transitioned(Load(status, ceo), Mode(status).value, faults, briefing).1.Some?
    ensures var s := Load(status, ceo);
            Transitioned(s, Mode(status).value, faults, briefing).0.status == status <==>
            !ReachesWrite(s, faults, briefing) || CanRollBack(faults)
  {
  }

  /** With both reads of the status failing there is no rollback, in either start mode. */
  lemma UnreadStatusIsNotRolledBack()
    ensures var faults := {RereadStatus, ReadInHandler};
            && Transitioned(Load(Initialized, Some(Pending)), FirstStart, faults, false) ==
               (OrgState(Running, None, Some(Active)), Some(Raised))
            && Transitioned(Load(Stopped, Some(Active)), Resume, faults, false) ==
               (OrgState(Running, None, Some(Active)), Some(Raised))
  {
  }

  /** Neither is there one if the handler cannot report that the chart failed. */
  lemma UnreportedFailureIsNotRolledBack()
    ensures var faults := {BuildChart, ReportFailure};
            && Transitioned(Load(Initialized, Some(Pending)), FirstStart, faults, false) ==
               (OrgState(Running, Some(Running), Some(Active)), Some(Raised))
            && Transitioned(Load(Stopped, Some(Active)), Resume, faults, false) ==
               (OrgState(Running, Some(Running), Some(Active)), Some(Raised))
  {
  }

  /** The CEO's first new lifecycle is never written. */
  predicate NeverOnboards(faults: set<Step>) {
    !(faults !! {FetchCeo, PrepareOnboarding, WriteOnboarding})
  }

  /**
   Onboarding fails after its first write, and in a place where the handler learns that the
   CEO has moved and can move it back.
   */
  predicate OnboardingUndone(faults: set<Step>) {
    && PublishOnboarding !in faults && RestoreCeo !in faults
    && if ReloadOnboarding in faults then ReadCeo !in faults
       else || !(faults !! {WriteActive, PublishActive})
            || (ReloadActive in faults && ReadCeo !in faults)
  }

  /**
   When a failed transition leaves the CEO as it was: on a resume, without a pending CEO, and
   otherwise exactly if onboarding wrote nothing or failed where it is undone.
   */
  lemma FailedTransitionCeo(status: OrgStatus, ceo: Option<Lifecycle>, faults: set<Step>, briefing: bool)
    requires status in {Initialized, Stopped}
    requires Transitioned(Load(status, ceo), Mode(status).value, faults, briefing).1.Some?
    ensures Transitioned(Load(status, ceo), Mode(status).value, faults, briefing).0.ceo == ceo <==>
            status == Stopped || ceo != Some(Pending) || NeverOnboards(faults) || OnboardingUndone(faults)
  {
  }

  // Whole runs

  datatype Event = Start(faults: set<Step>, briefing: bool) | Stop(faults: set<Step>) | CeoMove(to: Lifecycle)

  /** Every command opens the stored org afresh. */
  function Handle(s: OrgState, e: Event): OrgState {
    match e
    case Start(faults, briefing) =>
      var loaded := Load(s.status, s.ceo);
      var mode := Mode(s.status);
      if mode.None? || mode == Some(AlreadyRunning) then loaded
      else Transitioned(loaded, mode.value, faults, briefing).0
    case Stop(faults) => StoppedFrom(Load(s.status, s.ceo), faults).0
    case CeoMove(to) => if s.ceo.Some? && to in LifecycleTransitions(s.ceo.value) then s.(ceo := Some(to)) else s
  }

  function Run(s: OrgState, events: seq<Event>): OrgState {
    if events == [] then s else Handle(Run(s, events[..|events| - 1]), events[|events| - 1])
  }

  predicate PastOnboarding(l: Lifecycle) {
    l !in {Pending, Onboarding}
  }

  /** An org that is running or stopped has a CEO past onboarding. */
  predicate Consistent(s: OrgState) {
    s.status in {Running, Stopped} && s.ceo.Some? ==> PastOnboarding(s.ceo.value)
  }

  lemma HandleKeepsConsistent(s: OrgState, e: Event)
    requires Consistent(s)
    ensures Consistent(Handle(s, e)) && (Handle(s, e).ceo.Some? <==> s.ceo.Some?)
  {
  }

  /**
   It stays so over every run, whichever steps of whichever starts and stops fail, and no run
   loses the CEO or makes one up.
   */
  lemma {:induction false} AlwaysConsistent(s: OrgState, events: seq<Event>)
    requires Consistent(s)
    ensures Consistent(Run(s, events))
    ensures Run(s, events).ceo.Some? <==> s.ceo.Some?
  {
    if events != [] {
      AlwaysConsistent(s, events[..|events| - 1]);
      HandleKeepsConsistent(Run(s, events[..|events| - 1]), events[|events| - 1]);
    }
  }

  // What a command leaves

  /** A stop leaves the org stopped exactly if it ran and neither the monitors nor the write failed, or was stopped. */
  lemma StopExactly(s: OrgState, faults: set<Step>)
    ensures var t := Handle(s, Stop(faults));
            && (t.status == Stopped <==>
                s.status == Stopped || (s.status == Running && faults !! {StopMonitors, WriteStopped}))
            && (t.status != Stopped ==> t.status == s.status)
            && t.ceo == s.ceo
  {
  }

  /** A start succeeds exactly if every step up to the chart does. */
  lemma StartSucceedsExactly(status: OrgStatus, ceo: Option<Lifecycle>, faults: set<Step>, briefing: bool)
    requires status in {Initialized, Stopped}
    ensures Transitioned(Load(status, ceo), Mode(status).value, faults, briefing).1.None? <==>
            ReachesWrite(Load(status, ceo), faults, briefing) && faults !! {RereadStatus, BuildChart}
  {
  }

  /**
   A start leaves the org running exactly if it ran, or the new status was written and either
   nothing failed after that or it could not be rolled back.
   */
  lemma StartExactly(s: OrgState, faults: set<Step>, briefing: bool)
    ensures var t := Handle(s, Start(faults, briefing));
            && (t.status == Running <==>
                || s.status == Running
                || (&& s.status in {Initialized, Stopped} && ReachesWrite(s, faults, briefing)
                    && (faults !! {RereadStatus, BuildChart} || !CanRollBack(faults))))
            && (t.status != Running ==> t.status == s.status)
  {
  }

  /** What becomes of a pending CEO at a first start: left, half-way, or active. Any other CEO stays as it is. */
  lemma CeoAfterStart(s: OrgState, faults: set<Step>, briefing: bool)
    ensures var t := Handle(s, Start(faults, briefing));
            if s.status != Initialized || s.ceo != Some(Pending) || NeverOnboards(faults) || OnboardingUndone(faults)
            then t.ceo == s.ceo
            else if faults !! {PublishOnboarding, ReloadOnboarding, WriteActive} then t.ceo == Some(Active)
            else t.ceo == Some(Onboarding)
  {
  }

  /** The moves a CEO can make: on to the next stage, to suspension and back, and out at any time. */
  lemma CeoMovesExactly(s: OrgState, from: Lifecycle, to: Lifecycle)
    requires s.ceo == Some(from) && to != from
    ensures Handle(s, CeoMove(to)).ceo == Some(to) <==>
            || (from == Pending && to == Onboarding)
            || (from == Onboarding && to == Active)
            || (from == Active && to in {Offboarding, Suspended})
            || (from == Suspended && to == Active)
            || (from != Terminated && to == Terminated)
    ensures Handle(s, CeoMove(to)).ceo != Some(to) ==> Handle(s, CeoMove(to)) == s
    ensures Handle(s, CeoMove(to)).status == s.status
  {
  }

  lemma RunOfOne(s: OrgState, e: Event)
    ensures Run(s, [e]) == Handle(s, e)
  {
    assert [e][..0] == [];
  }

  /** Whatever fails, the status held in memory is the one stored, if any is held. */
  lemma MemoryIsHonest(s: OrgState, mode: StartMode, faults: set<Step>, briefing: bool)
    requires s.Seen() == s.status
    ensures var started, stopped := Transitioned(s, mode, faults, briefing).0, StoppedFrom(s, faults).0;
            started.Seen() == started.status && stopped.Seen() == stopped.status
  {
  }

  /** Stopping a running org and starting it again, with nothing failing, brings it back with the same CEO. */
  lemma StopThenStart(s: OrgState, briefing: bool)
    requires s.status == Running
    ensures var t := Run(s, [Stop({}), Start({}, briefing)]);
            t.status == Running && t.ceo == s.ceo
  {
    var events := [Stop({}), Start({}, briefing)];
    assert events[..1] == [Stop({})];
    RunOfOne(s, Stop({}));
    var stopped := Handle(s, Stop({}));
    StopExactly(s, {});
    StartExactly(stopped, {}, briefing);
    CeoAfterStart(stopped, {}, briefing);
  }

  /** An org not yet started whose CEO has left the pending state. */
  predicate Stuck(s: OrgState) {
    s.status == Initialized && s.ceo.Some? && s.ceo.value != Pending
  }

  lemma HandleKeepsStuck(s: OrgState, e: Event)
    requires Stuck(s)
    ensures Stuck(Handle(s, e))
  {
  }

  /** Nothing frees it: no start, stop or CEO move, in any number, ever gets it running. */
  lemma {:induction false} StuckForever(s: OrgState, events: seq<Event>)
    requires Stuck(s)
    ensures Stuck(Run(s, events))
  {
    if events != [] {
      StuckForever(s, events[..|events| - 1]);
      HandleKeepsStuck(Run(s, events[..|events| - 1]), events[|events| - 1]);
    }
  }

  lemma FaultlessStartRuns(s: OrgState)
    requires s.status == Initialized && (s.ceo.None? || s.ceo.value == Pending)
    ensures Handle(s, Start({}, false)).status == Running
  {
  }

  /** An initialized org can be brought to running by some run exactly when it has no CEO or a pending one. */
  lemma RunnableExactly(s: OrgState)
    requires s.status == Initialized
    ensures (exists events :: Run(s, events).status == Running) <==> s.ceo.None? || s.ceo.value == Pending
  {
    if s.ceo.None? || s.ceo.value == Pending {
      FaultlessStartRuns(s);
      var events := [Start({}, false)];
      RunOfOne(s, events[0]);
      assert Run(s, events).status == Running;
    } else {
      forall events
        ensures Run(s, events).status != Running
      {
        StuckForever(s, events);
      }
    }
  }

  /**
   So a first start that fails after activating the CEO is fatal: the org status is put back,
   the CEO is not, and no later run gets the org running.
   */
  lemma LateFailureIsFatal(faults: set<Step>, briefing: bool, events: seq<Event>)
    requires ActivationSucceeds(Some(Pending), faults)
    requires || LookForBriefing in faults
             || (briefing && DeliverBriefing in faults)
             || WriteRunning in faults
             || (CanRollBack(faults) && !(faults !! {BuildChart, RereadStatus}))
    ensures var s := Handle(Load(Initialized, Some(Pending)), Start(faults, briefing));
            && s.status == Initialized && s.ceo == Some(Active)
            && Run(s, events).status != Running
  {
    var s := Handle(Load(Initialized, Some(Pending)), Start(faults, briefing));
    assert Stuck(s);
    StuckForever(s, events);
  }

  /**
   An org can be left half-activated, and then for good: by an event that cannot be published,
   because the worker object still holds the old lifecycle, or by two failing reads of the CEO.
   */
  lemma HalfActivated(faults: set<Step>, briefing: bool, events: seq<Event>)
    requires faults == {PublishOnboarding} || faults == {ReloadOnboarding, ReadCeo}
    ensures var s := Handle(Load(Initialized, Some(Pending)), Start(faults, briefing));
            && s.status == Initialized && s.ceo == Some(Onboarding)
            && Run(s, events).status != Running
  {
    var s := Handle(Load(Initialized, Some(Pending)), Start(faults, briefing));
    assert Stuck(s);
    StuckForever(s, events);
  }
}
