/**
 The continuation engine: on every poll it looks at each active worker's idle time,
 picks one of four prompt types, and consults a memory of past prompts to limit how
 often each type goes to each worker.

 Times are integers in microseconds, the resolution of the source's timestamps, so the
 comparisons made on fractional minutes are exact here.
 */
module Continuation {
  import opened Wrappers
  import opened Basics

  datatype PromptType = SoftCheck | StatusRequest | FinalWarning | Escalation

  function Severity(t: PromptType): nat {
    match t
    case SoftCheck => 0
    case StatusRequest => 1
    case FinalWarning => 2
    case Escalation => 3
  }

  /** The least time between two prompts of one type to one worker. */
  function Gap(t: PromptType): Time {
    match t
    case SoftCheck => Minutes(10)
    case StatusRequest => Minutes(15)
    case FinalWarning => Minutes(10)
    case Escalation => Minutes(60)
  }

  /** Idle thresholds, in minutes. */
  datatype Policy = Policy(nudge1: int, nudge2: int, warning: int, escalate: int) {

    predicate Ordered() {
      0 <= nudge1 <= nudge2 <= warning <= escalate
    }

    /** The idle time from which a prompt type is picked. */
    function Threshold(t: PromptType): Time {
      match t
      case SoftCheck => Minutes(nudge1)
      case StatusRequest => Minutes(nudge2)
      case FinalWarning => Minutes(warning)
      case Escalation => Minutes(escalate)
    }

    /** The prompt type picked for an idle time: the branches of the check, most severe first. */
    function Stage(idle: Time): Option<PromptType> {
      if idle >= Minutes(escalate) then Some(Escalation)
      else if idle >= Minutes(warning) then Some(FinalWarning)
      else if idle >= Minutes(nudge2) then Some(StatusRequest)
      else if idle >= Minutes(nudge1) then Some(SoftCheck)
      else None
    }
  }

  /** The policy of a worker's role. */
  function ForWorker(isCeo: bool, isManager: bool): (p: Policy)
    ensures p.Ordered()
  {
    if isCeo then Policy(15, 30, 50, 60)
    else if isManager then Policy(10, 25, 40, 45)
    else Policy(5, 15, 25, 30)
  }

  function Next(t: PromptType): PromptType
    requires t != Escalation
  {
    match t
    case SoftCheck => StatusRequest
    case StatusRequest => FinalWarning
    case FinalWarning => Escalation
  }

  /** A prompt type is picked exactly from its own threshold up to the next one. */
  lemma StageExactly(p: Policy, t: PromptType, idle: Time)
    requires p.Ordered()
    ensures p.Stage(idle) == Some(t) <==>
            p.Threshold(t) <= idle && (t != Escalation ==> idle < p.Threshold(Next(t)))
  {
  }

  /**
   One check of one worker. The source reads the clock three times: for the idle time
   (`now`), for the rate limit (`asked`) and for the memory (`marked`); `sent` is the
   instant of the prompt itself.
   */
  datatype Check = Check(worker: WorkerId, policy: Policy, lastActivity: Option<Time>,
                         now: Time, asked: Time, sent: Time, marked: Time)
  {
    function Due(): Option<PromptType> {
      match lastActivity
      case None => None
      case Some(at) => policy.Stage(now - at)
    }
  }

  type Memory = map<WorkerId, map<PromptType, Time>>

  function LastSent(m: Memory, w: WorkerId, t: PromptType): Option<Time> {
    if w in m && t in m[w] then Some(m[w][t]) else None
  }

  predicate ShouldSend(m: Memory, w: WorkerId, t: PromptType, gap: Time, clock: Time) {
    match LastSent(m, w, t)
    case None => true
    case Some(at) => clock - at >= gap
  }

  function Mark(m: Memory, w: WorkerId, t: PromptType, clock: Time): Memory {
    m[w := (if w in m then m[w] else map[])[t := clock]]
  }

  /** What a check sends, given the memory. */
  function Sends(m: Memory, c: Check): Option<PromptType> {
    match c.Due()
    case None => None
    case Some(t) => if ShouldSend(m, c.worker, t, Gap(t), c.asked) then Some(t) else None
  }

  /** The memory after a check. */
  function After(m: Memory, c: Check): Memory {
    match Sends(m, c)
    case None => m
    case Some(t) => Mark(m, c.worker, t, c.marked)
  }

  /** The memory before check `i` of a run that starts with memory `m`. */
  function MemoryAt(m: Memory, run: seq<Check>, i: nat): Memory
    requires i <= |run|
  {
    if i == 0 then m else After(MemoryAt(m, run, i - 1), run[i - 1])
  }

  function SentAt(m: Memory, run: seq<Check>, i: nat): Option<PromptType>
    requires i < |run|
  {
    Sends(MemoryAt(m, run, i), run[i])
  }

  /** Where a row's check raises: nowhere, while its role and activity are read, or while it escalates. */
  datatype Fault = Never | Reading | Escalating

  /** A row of the active-worker query, with the readings its check will make. */
  datatype Row = Row(worker: WorkerId, manager: Option<WorkerId>, hasReports: bool, lastActivity: Option<Time>,
                     now: Time, asked: Time, sent: Time, marked: Time, fault: Fault)
  {
    /** Whether the check raises, which it does before it records anything. */
    predicate Raises(m: Memory) {
      fault.Reading? || (fault.Escalating? && Sends(m, Plan()) == Some(Escalation))
    }

    function Plan(): Check {
      Check(worker, ForWorker(manager.None?, hasReports), lastActivity, now, asked, sent, marked)
    }
  }

  function Plans(rows: seq<Row>): (run: seq<Check>)
    ensures |run| == |rows| && forall i :: 0 <= i < |rows| ==> run[i] == rows[i].Plan()
  {
    seq(|rows|, i requires 0 <= i < |rows| => rows[i].Plan())
  }

  /** In a poll that starts with memory `m`, the check of row `i` does not raise, and `sent` is what it sends. */
  ghost predicate Completes(m: Memory, rows: seq<Row>, i: nat, sent: Option<PromptType>)
    requires i < |rows|
  {
    !rows[i].Raises(MemoryAt(m, Plans(rows), i)) && sent == SentAt(m, Plans(rows), i)
  }

  class Engine {
    var lastPrompts: Memory

    constructor ()
      ensures lastPrompts == map[]
    {
      lastPrompts := map[];
    }

    method ShouldSendPrompt(w: WorkerId, t: PromptType, gap: Time, clock: Time) returns (ok: bool)
      ensures ok == ShouldSend(lastPrompts, w, t, gap, clock)
    {
      if w !in lastPrompts {
        return true;
      }
      if t !in lastPrompts[w] {
        return true;
      }
      ok := clock - lastPrompts[w][t] >= gap;
    }

    method MarkPromptSent(w: WorkerId, t: PromptType, clock: Time)
      modifies this
      ensures lastPrompts == Mark(old(lastPrompts), w, t, clock)
    {
      if w !in lastPrompts {
        lastPrompts := lastPrompts[w := map[]];
      }
      lastPrompts := lastPrompts[w := lastPrompts[w][t := clock]];
    }

    method CheckWorker(c: Check, escalatingRaises: bool) returns (sent: Option<PromptType>, raised: bool)
      modifies this
      ensures raised <==> escalatingRaises && Sends(old(lastPrompts), c) == Some(Escalation)
      ensures raised ==> lastPrompts == old(lastPrompts)
      ensures !raised ==> sent == Sends(old(lastPrompts), c) && lastPrompts == After(old(lastPrompts), c)
    {
      sent, raised := None, false;
      if c.lastActivity.None? {
        return;
      }
      var idle := c.now - c.lastActivity.value;
      var t: PromptType;
      if idle >= Minutes(c.policy.escalate) {
        t := Escalation;
      } else if idle >= Minutes(c.policy.warning) {
        t := FinalWarning;
      } else if idle >= Minutes(c.policy.nudge2) {
        t := StatusRequest;
      } else if idle >= Minutes(c.policy.nudge1) {
        t := SoftCheck;
      } else {
        return;
      }
      var ok := ShouldSendPrompt(c.worker, t, Gap(t), c.asked);
      if !ok {
        return;
      }
      if t == Escalation && escalatingRaises {
        return None, true;
      }
      MarkPromptSent(c.worker, t, c.marked);
      sent := Some(t);
    }

    /** A poll: the checks of its rows in order, up to the first that raises. */
    method CheckAllWorkers(rows: seq<Row>) returns (log: seq<Option<PromptType>>)
      modifies this
      ensures |log| <= |rows|
      ensures forall i :: 0 <= i < |log| ==> Completes(old(lastPrompts), rows, i, log[i])
      ensures lastPrompts == MemoryAt(old(lastPrompts), Plans(rows), |log|)
      ensures |log| < |rows| ==> rows[|log|].Raises(lastPrompts)
    {
      log := [];
      for i := 0 to |rows|
        invariant |log| == i
        invariant forall k :: 0 <= k < i ==> Completes(old(lastPrompts), rows, k, log[k])
        invariant lastPrompts == MemoryAt(old(lastPrompts), Plans(rows), i)
      {
        var row := rows[i];
        if row.fault.Reading? {
          return;
        }
        var policy := ForWorker(row.manager.None?, row.hasReports);
        var check := Check(row.worker, policy, row.lastActivity, row.now, row.asked, row.sent, row.marked);
        var sent, raised := CheckWorker(check, row.fault.Escalating?);
        if raised {
          return;
        }
        log := log + [sent];
      }
    }
  }

  lemma {:induction false} MemoryOfPrefix(m: Memory, first: seq<Check>, later: seq<Check>, i: nat)
    requires i <= |first|
    ensures MemoryAt(m, first + later, i) == MemoryAt(m, first, i)
    decreases i
  {
    if i > 0 {
      MemoryOfPrefix(m, first, later, i - 1);
    }
  }

  /** Consecutive polls of one engine are one run: the theorems below cover any number of polls. */
  lemma {:induction false} PollsCompose(m: Memory, first: seq<Check>, later: seq<Check>, i: nat)
    requires i <= |later|
    ensures MemoryAt(m, first + later, |first| + i) == MemoryAt(MemoryAt(m, first, |first|), later, i)
    ensures i < |later| ==> SentAt(m, first + later, |first| + i) == SentAt(MemoryAt(m, first, |first|), later, i)
    decreases i
  {
    if i == 0 {
      MemoryOfPrefix(m, first, later, |first|);
    } else {
      PollsCompose(m, first, later, i - 1);
    }
  }

  /** The clock never runs backwards, within a check or between checks. */
  ghost predicate Clocked(run: seq<Check>) {
    && (forall i :: 0 <= i < |run| ==> run[i].now <= run[i].asked <= run[i].sent <= run[i].marked)
    && (forall i, j :: 0 <= i < j < |run| ==> run[i].marked <= run[j].now)
  }

  /**
   What a fresh engine sends to a single worker, by its place in the org and its idle time: a
   worker without a manager is the CEO, one with reports a manager.
   */
  lemma FreshPoll(row: Row, sent: Option<PromptType>)
    requires Completes(map[], [row], 0, sent)
    ensures row.lastActivity.None? ==> sent.None?
    ensures row.lastActivity.Some? ==>
              var idle := row.now - row.lastActivity.value;
              var ceo, manager := row.manager.None?, row.hasReports;
              && (sent == None <==> idle < Minutes(if ceo then 15 else if manager then 10 else 5))
              && (sent == Some(SoftCheck) <==>
                  Minutes(if ceo then 15 else if manager then 10 else 5) <= idle <
                  Minutes(if ceo then 30 else if manager then 25 else 15))
              && (sent == Some(StatusRequest) <==>
                  Minutes(if ceo then 30 else if manager then 25 else 15) <= idle <
                  Minutes(if ceo then 50 else if manager then 40 else 25))
              && (sent == Some(FinalWarning) <==>
                  Minutes(if ceo then 50 else if manager then 40 else 25) <= idle <
                  Minutes(if ceo then 60 else if manager then 45 else 30))
              && (sent == Some(Escalation) <==> Minutes(if ceo then 60 else if manager then 45 else 30) <= idle)
  {
    assert Plans([row])[0] == [row][0].Plan();
    assert MemoryAt(map[], Plans([row]), 0) == map[];
    assert sent == Sends(map[], row.Plan()) == row.Plan().Due();
  }

  /** When the check of a single worker by a fresh engine raises, and so ends the poll. */
  lemma FreshPollRaises(row: Row)
    ensures row.Raises(map[]) <==>
            || row.fault == Reading
            || (row.fault == Escalating && row.lastActivity.Some? &&
                row.now - row.lastActivity.value >=
                Minutes(if row.manager.None? then 60 else if row.hasReports then 45 else 30))
  {
  }

  ghost predicate SendsTo(m: Memory, run: seq<Check>, i: nat, w: WorkerId, t: PromptType)
    requires i < |run|
  {
    run[i].worker == w && SentAt(m, run, i) == Some(t)
  }

  lemma {:induction false} MemoryRemembers(m: Memory, run: seq<Check>, i: nat, k: nat, w: WorkerId, t: PromptType)
    requires Clocked(run)
    requires i < k <= |run| && SendsTo(m, run, i, w, t)
    ensures LastSent(MemoryAt(m, run, k), w, t).Some?
    ensures LastSent(MemoryAt(m, run, k), w, t).value >= run[i].marked
    decreases k
  {
    if k > i + 1 {
      MemoryRemembers(m, run, i, k - 1, w, t);
    }
  }

  lemma {:induction false} MemoryHasSource(run: seq<Check>, k: nat, w: WorkerId, t: PromptType) returns (i: nat)
    requires k <= |run| && LastSent(MemoryAt(map[], run, k), w, t).Some?
    ensures i < k && SendsTo(map[], run, i, w, t)
    ensures run[i].marked == LastSent(MemoryAt(map[], run, k), w, t).value
    decreases k
  {
    if SendsTo(map[], run, k - 1, w, t) {
      i := k - 1;
    } else {
      i := MemoryHasSource(run, k - 1, w, t);
    }
  }

  /**
   Spacing: whatever the memory at the start, two prompts of one type to one worker are at
   least that type's gap apart, even measured from when the first was recorded to when the
   second was considered.
   */
  lemma Spacing(m: Memory, run: seq<Check>, i: nat, j: nat, w: WorkerId, t: PromptType)
    requires Clocked(run)
    requires i < j < |run| && SendsTo(m, run, i, w, t) && SendsTo(m, run, j, w, t)
    ensures run[j].asked - run[i].marked >= Gap(t)
    ensures run[j].sent - run[i].sent >= Gap(t)
  {
    MemoryRemembers(m, run, i, j, w, t);
  }

  /**
   The memory does exactly one job. Started empty, the engine sends a prompt at check `j`
   if and only if that prompt is due and every earlier prompt of the type to the worker was
   recorded at least a gap ago.
   */
  lemma SendsExactlyWhenQuiet(run: seq<Check>, j: nat, t: PromptType)
    requires Clocked(run) && j < |run|
    ensures SentAt(map[], run, j) == Some(t) <==>
            && run[j].Due() == Some(t)
            && forall i :: 0 <= i < j && SendsTo(map[], run, i, run[j].worker, t) ==>
                             run[j].asked - run[i].marked >= Gap(t)
  {
    var w := run[j].worker;
    if SentAt(map[], run, j) == Some(t) {
      forall i | 0 <= i < j && SendsTo(map[], run, i, w, t)
        ensures run[j].asked - run[i].marked >= Gap(t)
      {
        Spacing(map[], run, i, j, w, t);
      }
    } else if run[j].Due() == Some(t) {
      var i := MemoryHasSource(run, j, w, t);
    }
  }

  /** How soon a prompt of a type can be repeated, in minutes. */
  lemma RepeatedExactly(first: Check, second: Check, t: PromptType)
    requires Clocked([first, second]) && first.worker == second.worker
    requires first.Due() == Some(t) && second.Due() == Some(t)
    ensures SentAt(map[], [first, second], 0) == Some(t)
    ensures SentAt(map[], [first, second], 1) == Some(t) <==>
            second.asked - first.marked >= Minutes(match t
                                                   case SoftCheck => 10
                                                   case StatusRequest => 15
                                                   case FinalWarning => 10
                                                   case Escalation => 60)
  {
    var run := [first, second];
    SendsExactlyWhenQuiet(run, 0, t);
    SendsExactlyWhenQuiet(run, 1, t);
    assert SendsTo(map[], run, 0, first.worker, t);
  }

  lemma FirstDueIsSent(run: seq<Check>, j: nat, t: PromptType)
    requires Clocked(run) && j < |run| && run[j].Due() == Some(t)
    requires forall i :: 0 <= i < j ==> run[i].Due() != Some(t)
    ensures SentAt(map[], run, j) == Some(t)
  {
    SendsExactlyWhenQuiet(run, j, t);
  }

  /** How many of the first `n` checks send `t` to `w` at an instant in `[from, to]`. */
  ghost function CountIn(m: Memory, run: seq<Check>, n: nat, w: WorkerId, t: PromptType, from: Time, to: Time): nat
    requires n <= |run|
  {
    if n == 0 then 0
    else CountIn(m, run, n - 1, w, t, from, to) +
         if SendsTo(m, run, n - 1, w, t) && from <= run[n - 1].sent <= to then 1 else 0
  }

  /** `n` gaps in a row. */
  function Gaps(n: nat, gap: Time): Time {
    if n == 0 then 0 else Gaps(n - 1, gap) + gap
  }

  lemma {:induction false} GapsAreProduct(n: nat, gap: Time)
    ensures Gaps(n, gap) == n * gap
  {
    if n > 0 {
      GapsAreProduct(n - 1, gap);
    }
  }

  lemma SpreadStep(m: Memory, run: seq<Check>, previous: nat, last: nat, w: WorkerId, t: PromptType, count: nat,
                   from: Time)
    requires Clocked(run) && previous < last < |run| && SendsTo(m, run, previous, w, t) && SendsTo(m, run, last, w, t)
    requires count > 0 && run[previous].sent - from >= Gaps(count - 1, Gap(t))
    ensures run[last].sent - from >= Gaps(count, Gap(t))
  {
    Spacing(m, run, previous, last, w, t);
  }

  /** The last counted prompt comes at least `count - 1` gaps after the window opens. */
  lemma {:induction false} CountedSendsSpread(m: Memory, run: seq<Check>, n: nat, w: WorkerId, t: PromptType,
                                              from: Time, to: Time) returns (last: nat)
    requires Clocked(run) && n <= |run|
    requires CountIn(m, run, n, w, t, from, to) > 0
    ensures last < n && SendsTo(m, run, last, w, t) && run[last].sent <= to
    ensures run[last].sent - from >= Gaps(CountIn(m, run, n, w, t, from, to) - 1, Gap(t))
    decreases n
  {
    var earlier := CountIn(m, run, n - 1, w, t, from, to);
    if SendsTo(m, run, n - 1, w, t) && from <= run[n - 1].sent <= to {
      last := n - 1;
      if earlier > 0 {
        var previous := CountedSendsSpread(m, run, n - 1, w, t, from, to);
        SpreadStep(m, run, previous, last, w, t, earlier, from);
      }
    } else {
      last := CountedSendsSpread(m, run, n - 1, w, t, from, to);
    }
  }

  lemma FloorBound(count: int, gap: Time, length: Time)
    requires gap > 0 && count * gap <= length
    ensures count <= length / gap
  {
    var floor := length / gap;
    assert length < floor * gap + gap;
    assert count * gap == (count - floor - 1) * gap + floor * gap + gap;
    assert (count - floor - 1) * gap < 0;
  }

  /** Any window of length `to - from` holds at most `floor(length / gap) + 1` prompts of a type to a worker. */
  lemma WindowBound(m: Memory, run: seq<Check>, w: WorkerId, t: PromptType, from: Time, to: Time)
    requires Clocked(run) && from <= to
    ensures CountIn(m, run, |run|, w, t, from, to) <= (to - from) / Gap(t) + 1
  {
    var count := CountIn(m, run, |run|, w, t, from, to);
    if count > 0 {
      var last := CountedSendsSpread(m, run, |run|, w, t, from, to);
      GapsAreProduct(count - 1, Gap(t));
      FloorBound(count - 1, Gap(t), to - from);
    }
  }

  /**
   In any stretch shorter than an hour a worker gets at most 6 soft checks, 4 status
   requests, 6 final warnings and 1 escalation.
   */
  lemma HourlyLimits(m: Memory, run: seq<Check>, w: WorkerId, from: Time, to: Time)
    requires Clocked(run) && 0 <= to - from < Minutes(60)
    ensures CountIn(m, run, |run|, w, SoftCheck, from, to) <= 6
    ensures CountIn(m, run, |run|, w, StatusRequest, from, to) <= 4
    ensures CountIn(m, run, |run|, w, FinalWarning, from, to) <= 6
    ensures CountIn(m, run, |run|, w, Escalation, from, to) <= 1
  {
    WindowBound(m, run, w, SoftCheck, from, to);
    WindowBound(m, run, w, StatusRequest, from, to);
    WindowBound(m, run, w, FinalWarning, from, to);
    WindowBound(m, run, w, Escalation, from, to);
  }

  /** A check that sees worker `w`, under policy `p`, quiet since `quietFrom`. */
  ghost predicate InStretch(c: Check, w: WorkerId, p: Policy, quietFrom: Time) {
    c.worker == w && c.policy == p && c.lastActivity == Some(quietFrom)
  }

  ghost predicate BeforeStretch(c: Check, quietFrom: Time, lag: Time) {
    c.marked <= quietFrom + lag && (c.lastActivity.Some? ==> c.lastActivity.value <= quietFrom)
  }

  /**
   Up to check `j`, worker `w` has shown no activity since `quietFrom` and kept policy `p`.
   Any other check of it must have been over by `quietFrom + lag`, and cannot have read later
   activity: a check takes time, and activity may be on record only some time after it happens.
   */
  ghost predicate QuietSince(run: seq<Check>, j: nat, w: WorkerId, p: Policy, quietFrom: Time, lag: Time)
    requires j < |run|
  {
    forall i :: 0 <= i <= j && run[i].worker == w ==>
                  InStretch(run[i], w, p, quietFrom) || BeforeStretch(run[i], quietFrom, lag)
  }

  /** `w` was already being polled at `quietFrom`, and its checks up to `j` are at most `period` apart. */
  ghost predicate PolledEvery(run: seq<Check>, j: nat, w: WorkerId, quietFrom: Time, period: Time)
    requires j < |run|
  {
    forall k :: 0 <= k <= j && run[k].worker == w && run[k].now > quietFrom ==>
                  exists i :: 0 <= i < k && run[i].worker == w && run[k].now - run[i].now <= period
  }

  ghost predicate SentInStretch(run: seq<Check>, i: nat, w: WorkerId, p: Policy, quietFrom: Time, t: PromptType)
    requires i < |run|
  {
    InStretch(run[i], w, p, quietFrom) && SentAt(map[], run, i) == Some(t)
  }

  /** A check of the stretch where `t` is due and no prompt from before the stretch holds it back. */
  ghost predicate FreeCheck(run: seq<Check>, k: nat, w: WorkerId, p: Policy, quietFrom: Time, t: PromptType)
    requires k < |run|
  {
    && InStretch(run[k], w, p, quietFrom)
    && run[k].Due() == Some(t)
    && forall i :: 0 <= i < k && SendsTo(map[], run, i, w, t) && !InStretch(run[i], w, p, quietFrom) ==>
                     run[k].asked - run[i].marked >= Gap(t)
  }

  /**
   Exactly when a quiet worker has heard prompt type `t` by check `j`: some earlier check of
   the stretch fell into the type's idle window clear of older prompts.
   */
  lemma HeardExactlyWhenChecked(run: seq<Check>, j: nat, w: WorkerId, p: Policy, quietFrom: Time, t: PromptType)
    requires Clocked(run) && j <= |run|
    ensures (exists i :: 0 <= i < j && SentInStretch(run, i, w, p, quietFrom, t)) <==>
            (exists k :: 0 <= k < j && FreeCheck(run, k, w, p, quietFrom, t))
  {
    if k :| 0 <= k < j && FreeCheck(run, k, w, p, quietFrom, t) {
      SendsExactlyWhenQuiet(run, k, t);
      if !SentInStretch(run, k, w, p, quietFrom, t) {
        var i :| 0 <= i < k && SendsTo(map[], run, i, w, t) && run[k].asked - run[i].marked < Gap(t);
        assert SentInStretch(run, i, w, p, quietFrom, t);
      }
    }
    if i :| 0 <= i < j && SentInStretch(run, i, w, p, quietFrom, t) {
      SendsExactlyWhenQuiet(run, i, t);
      assert FreeCheck(run, i, w, p, quietFrom, t);
    }
  }

  function Max(a: Time, b: Time): Time {
    if a >= b then a else b
  }

  /** The idle time from which `t` is due and no prompt from before the stretch can hold it back. */
  function Opens(p: Policy, t: PromptType, lag: Time): Time {
    Max(p.Threshold(t), Gap(t) + lag)
  }

  /** Every stage before escalation is open long enough, clear of older prompts, to be met by a check. */
  predicate Fits(p: Policy, period: Time, lag: Time) {
    && p.Ordered()
    && 0 <= period
    && 0 <= lag
    && forall t: PromptType :: t != Escalation ==>
         p.Threshold(Next(t)) - Opens(p, t, lag) >= period
  }

  lemma FitsStages(p: Policy, period: Time, lag: Time)
    requires p.Ordered() && 0 <= period && 0 <= lag
    ensures Fits(p, period, lag) <==>
            && Minutes(p.nudge2) - Opens(p, SoftCheck, lag) >= period
            && Minutes(p.warning) - Opens(p, StatusRequest, lag) >= period
            && Minutes(p.escalate) - Opens(p, FinalWarning, lag) >= period
  {
    if Fits(p, period, lag) {
      assert p.Threshold(Next(SoftCheck)) - Opens(p, SoftCheck, lag) >= period;
      assert p.Threshold(Next(StatusRequest)) - Opens(p, StatusRequest, lag) >= period;
      assert p.Threshold(Next(FinalWarning)) - Opens(p, FinalWarning, lag) >= period;
    }
  }

  /** Which periods and lags the policy of each role allows. */
  lemma RolesFit(isManager: bool, period: Time, lag: Time)
    requires 0 <= period && 0 <= lag
    ensures Fits(ForWorker(true, isManager), period, lag) <==> period <= Minutes(10) && period + lag <= Minutes(20)
    ensures Fits(ForWorker(false, true), period, lag) <==> period <= Minutes(5) && period + lag <= Minutes(15)
    ensures Fits(ForWorker(false, false), period, lag) <==> period + lag <= Minutes(5)
  {
    FitsStages(ForWorker(true, isManager), period, lag);
    FitsStages(ForWorker(false, true), period, lag);
    FitsStages(ForWorker(false, false), period, lag);
  }

  /** Walking back from a check at `idle >= high`, polls cannot jump over a window one period wide. */
  lemma {:induction false} CheckInWindow(run: seq<Check>, j: nat, w: WorkerId, quietFrom: Time, period: Time,
                                         low: Time, high: Time) returns (k: nat)
    requires j < |run| && run[j].worker == w
    requires PolledEvery(run, j, w, quietFrom, period)
    requires 0 < high && high - low >= period && run[j].now - quietFrom >= high
    ensures k < j && run[k].worker == w && low <= run[k].now - quietFrom < high
    decreases j
  {
    var i :| 0 <= i < j && run[i].worker == w && run[j].now - run[i].now <= period;
    if run[i].now - quietFrom < high {
      k := i;
    } else {
      k := CheckInWindow(run, i, w, quietFrom, period, low, high);
    }
  }

  lemma OpenCheckIsFree(run: seq<Check>, j: nat, k: nat, w: WorkerId, p: Policy, quietFrom: Time, lag: Time,
                        t: PromptType)
    requires Clocked(run) && k <= j < |run| && t != Escalation && p.Ordered()
    requires QuietSince(run, j, w, p, quietFrom, lag) && run[k].worker == w
    requires Opens(p, t, lag) <= run[k].now - quietFrom < p.Threshold(Next(t))
    ensures FreeCheck(run, k, w, p, quietFrom, t)
  {
    assert InStretch(run[k], w, p, quietFrom);
    StageExactly(p, t, run[k].now - quietFrom);
  }

  lemma StageIsOpen(p: Policy, period: Time, lag: Time, t: PromptType)
    requires Fits(p, period, lag) && t != Escalation
    ensures p.Threshold(Next(t)) - Opens(p, t, lag) >= period
    ensures 0 < p.Threshold(Next(t)) <= p.Threshold(Escalation)
  {
  }

  /** An escalated worker has heard each milder prompt type earlier in the same stretch. */
  lemma HeardBeforeEscalation(run: seq<Check>, j: nat, w: WorkerId, p: Policy, quietFrom: Time,
                              period: Time, lag: Time, t: PromptType) returns (i: nat)
    requires Clocked(run) && j < |run| && t != Escalation
    requires Fits(p, period, lag)
    requires QuietSince(run, j, w, p, quietFrom, lag) && PolledEvery(run, j, w, quietFrom, period)
    requires SentInStretch(run, j, w, p, quietFrom, Escalation)
    ensures i < j && SentInStretch(run, i, w, p, quietFrom, t)
  {
    var low, high := Opens(p, t, lag), p.Threshold(Next(t));
    StageIsOpen(p, period, lag, t);
    StageExactly(p, Escalation, run[j].now - quietFrom);
    var k := CheckInWindow(run, j, w, quietFrom, period, low, high);
    OpenCheckIsFree(run, j, k, w, p, quietFrom, lag, t);
    HeardExactlyWhenChecked(run, j, w, p, quietFrom, t);
    i :| 0 <= i < j && SentInStretch(run, i, w, p, quietFrom, t);
  }

  /** Before check `j` the stretch has had a soft check, a status request and a final warning, in that order. */
  ghost predicate HeardAll(run: seq<Check>, j: nat, w: WorkerId, p: Policy, quietFrom: Time)
    requires j < |run|
  {
    exists a, b, c ::
      && 0 <= a < b < c < j
      && SentInStretch(run, a, w, p, quietFrom, SoftCheck)
      && SentInStretch(run, b, w, p, quietFrom, StatusRequest)
      && SentInStretch(run, c, w, p, quietFrom, FinalWarning)
  }

  lemma MilderComesFirst(run: seq<Check>, i: nat, j: nat, w: WorkerId, p: Policy, quietFrom: Time)
    requires Clocked(run) && p.Ordered() && i < |run| && j < |run|
    requires InStretch(run[i], w, p, quietFrom) && InStretch(run[j], w, p, quietFrom)
    requires SentAt(map[], run, i).Some? && SentAt(map[], run, j).Some?
    requires Severity(SentAt(map[], run, i).value) < Severity(SentAt(map[], run, j).value)
    ensures i < j
  {
  }

  /**
   Escalation is never the first thing a worker hears: before any escalation of a quiet
   stretch the engine has sent, in that stretch and in that order, a soft check, a status
   request and a final warning.
   */
  lemma GraduatedEscalation(run: seq<Check>, j: nat, w: WorkerId, p: Policy, quietFrom: Time, period: Time, lag: Time)
    requires Clocked(run) && j < |run|
    requires Fits(p, period, lag)
    requires QuietSince(run, j, w, p, quietFrom, lag) && PolledEvery(run, j, w, quietFrom, period)
    requires SentInStretch(run, j, w, p, quietFrom, Escalation)
    ensures HeardAll(run, j, w, p, quietFrom)
  {
    var a := HeardBeforeEscalation(run, j, w, p, quietFrom, period, lag, SoftCheck);
    var b := HeardBeforeEscalation(run, j, w, p, quietFrom, period, lag, StatusRequest);
    var c := HeardBeforeEscalation(run, j, w, p, quietFrom, period, lag, FinalWarning);
    MilderComesFirst(run, a, b, w, p, quietFrom);
    MilderComesFirst(run, b, c, w, p, quietFrom);
  }

  /** Within a quiet stretch the prompts to a worker never become milder, from any starting memory. */
  lemma SeverityNeverDrops(m: Memory, run: seq<Check>, i: nat, j: nat, w: WorkerId, p: Policy, quietFrom: Time)
    requires Clocked(run) && p.Ordered() && i < j < |run|
    requires InStretch(run[i], w, p, quietFrom) && InStretch(run[j], w, p, quietFrom)
    requires SentAt(m, run, i).Some? && SentAt(m, run, j).Some?
    ensures Severity(SentAt(m, run, i).value) <= Severity(SentAt(m, run, j).value)
  {
    StageExactly(p, SentAt(m, run, i).value, run[i].now - quietFrom);
    StageExactly(p, SentAt(m, run, j).value, run[j].now - quietFrom);
  }

  /**
   No worker stays quiet unnoticed: once idle past the escalation threshold, and an escalation
   gap past any older prompt, it has been escalated in this very stretch.
   */
  lemma QuietWorkerIsEscalated(run: seq<Check>, j: nat, w: WorkerId, p: Policy, quietFrom: Time, lag: Time)
    requires Clocked(run) && j < |run| && p.Ordered() && 0 <= lag
    requires QuietSince(run, j, w, p, quietFrom, lag) && InStretch(run[j], w, p, quietFrom)
    requires run[j].now - quietFrom >= Max(p.Threshold(Escalation), Gap(Escalation) + lag)
    ensures exists i :: 0 <= i <= j && SentInStretch(run, i, w, p, quietFrom, Escalation)
  {
    StageExactly(p, Escalation, run[j].now - quietFrom);
    assert FreeCheck(run, j, w, p, quietFrom, Escalation);
    HeardExactlyWhenChecked(run, j + 1, w, p, quietFrom, Escalation);
    var i :| 0 <= i < j + 1 && SentInStretch(run, i, w, p, quietFrom, Escalation);
  }

  /** Without the polling condition the promise fails: a fresh engine's first word can be an escalation. */
  lemma EscalationCanComeFirst(w: WorkerId)
    ensures var c := Check(w, ForWorker(false, false), Some(0), Minutes(30), Minutes(30), Minutes(30), Minutes(30));
            Clocked([c]) && QuietSince([c], 0, w, c.policy, 0, 0) && SentAt(map[], [c], 0) == Some(Escalation)
  {
  }

  // The polling condition is sharp

  /** Check `j` escalates a worker that was polled throughout a quiet stretch. */
  ghost predicate Escalates(run: seq<Check>, j: nat, w: WorkerId, p: Policy, quietFrom: Time, period: Time, lag: Time)
    requires j < |run|
  {
    && Clocked(run)
    && QuietSince(run, j, w, p, quietFrom, lag) && PolledEvery(run, j, w, quietFrom, period)
    && SentInStretch(run, j, w, p, quietFrom, Escalation)
  }

  /** What graduated prompting promises about every run with the given polling period and lag. */
  ghost predicate Graduated(p: Policy, period: Time, lag: Time) {
    forall run: seq<Check>, j: nat, w: WorkerId, quietFrom: Time ::
      j < |run| && Escalates(run, j, w, p, quietFrom, period, lag) ==> HeardAll(run, j, w, p, quietFrom)
  }

  /** The instant of check `k` in a run that checks every microsecond but jumps over a stage's open window. */
  function Tick(p: Policy, t: PromptType, lag: Time, k: int): Time
    requires t != Escalation
  {
    if k < Opens(p, t, lag) then k else k + Max(0, p.Threshold(Next(t)) - Opens(p, t, lag))
  }

  /**
   Such a run. The worker is active for the last time at instant 0, but the check at `lag`
   still reads older activity, from `at`; all later ones see a quiet worker.
   */
  ghost predicate Jumps(run: seq<Check>, w: WorkerId, p: Policy, t: PromptType, lag: nat, at: Time)
    requires t != Escalation
  {
    forall k :: 0 <= k < |run| ==>
      var now := Tick(p, t, lag, k);
      run[k] == Check(w, p, if k < lag then None else Some(if k == lag then at else 0), now, now, now, now)
  }

  lemma JumpsIsClocked(run: seq<Check>, w: WorkerId, p: Policy, t: PromptType, lag: nat, at: Time)
    requires t != Escalation && Jumps(run, w, p, t, lag, at)
    ensures Clocked(run)
  {
  }

  lemma JumpsIsPolled(run: seq<Check>, j: nat, w: WorkerId, p: Policy, t: PromptType, lag: nat, at: Time,
                      period: Time)
    requires t != Escalation && Jumps(run, w, p, t, lag, at) && j < |run| && at < 0
    requires 0 < period && p.Threshold(Next(t)) - Opens(p, t, lag) < period
    ensures PolledEvery(run, j, w, 0, period) && QuietSince(run, j, w, p, 0, lag)
  {
    forall k | 0 <= k <= j && run[k].worker == w && run[k].now > 0
      ensures exists i :: 0 <= i < k && run[i].worker == w && run[k].now - run[i].now <= period
    {
      assert run[k - 1].worker == w && run[k].now - run[k - 1].now <= period;
    }
  }

  /** The older activity makes the check at `lag` send `t`, if `t` can be due later at all. */
  predicate Provokes(p: Policy, t: PromptType, lag: nat, at: Time)
    requires t != Escalation
  {
    at < 0 && (Max(p.Threshold(t), lag + 1) < p.Threshold(Next(t)) ==> p.Stage(lag - at) == Some(t))
  }

  lemma JumpsSkipsStage(run: seq<Check>, i: nat, w: WorkerId, p: Policy, t: PromptType, lag: nat, at: Time)
    requires t != Escalation && Jumps(run, w, p, t, lag, at) && i < |run|
    requires p.Ordered() && Provokes(p, t, lag, at)
    ensures !SentInStretch(run, i, w, p, 0, t)
  {
    if i > lag && SentInStretch(run, i, w, p, 0, t) {
      JumpsIsClocked(run, w, p, t, lag, at);
      StageExactly(p, t, run[i].now);
      FirstDueIsSent(run, lag, t);
      assert SendsTo(map[], run, lag, w, t);
      SendsExactlyWhenQuiet(run, i, t);
    }
  }

  lemma Provocation(p: Policy, t: PromptType, lag: nat) returns (at: Time)
    requires t != Escalation && p.Ordered()
    ensures Provokes(p, t, lag, at)
  {
    at := lag - Max(p.Threshold(t), lag + 1);
    StageExactly(p, t, lag - at);
  }

  lemma EscalatesEarlier(run: seq<Check>, i: nat, j: nat, w: WorkerId, p: Policy, quietFrom: Time, period: Time,
                         lag: Time)
    requires Clocked(run) && i <= j < |run|
    requires QuietSince(run, j, w, p, quietFrom, lag) && PolledEvery(run, j, w, quietFrom, period)
    requires SentInStretch(run, i, w, p, quietFrom, Escalation)
    ensures Escalates(run, i, w, p, quietFrom, period, lag)
  {
  }

  /** A long enough run of this kind escalates, although the jumped stage was never heard. */
  lemma JumpsEscalates(run: seq<Check>, w: WorkerId, p: Policy, t: PromptType, lag: nat, at: Time,
                       period: Time) returns (i: nat)
    requires t != Escalation && p.Ordered() && Jumps(run, w, p, t, lag, at) && at < 0
    requires 0 < period && p.Threshold(Next(t)) - Opens(p, t, lag) < period
    requires |run| > Opens(p, Escalation, lag)
    ensures i < |run| && Escalates(run, i, w, p, 0, period, lag)
  {
    var last := |run| - 1;
    JumpsIsClocked(run, w, p, t, lag, at);
    JumpsIsPolled(run, last, w, p, t, lag, at, period);
    QuietWorkerIsEscalated(run, last, w, p, 0, lag);
    i :| 0 <= i <= last && SentInStretch(run, i, w, p, 0, Escalation);
    EscalatesEarlier(run, i, last, w, p, 0, period, lag);
  }

  function JumpingRun(n: nat, w: WorkerId, p: Policy, t: PromptType, lag: nat, at: Time): (run: seq<Check>)
    requires t != Escalation
    ensures |run| == n && Jumps(run, w, p, t, lag, at)
  {
    seq(n, k requires 0 <= k < n =>
             var now := Tick(p, t, lag, k);
             Check(w, p, if k < lag then None else Some(if k == lag then at else 0), now, now, now, now))
  }

  lemma UnheardStage(run: seq<Check>, j: nat, w: WorkerId, p: Policy, quietFrom: Time, t: PromptType)
    requires j < |run| && t != Escalation
    requires forall i: nat :: i < |run| ==> !SentInStretch(run, i, w, p, quietFrom, t)
    ensures !HeardAll(run, j, w, p, quietFrom)
  {
  }

  /** A stage too narrow to fit can be jumped over, all the way to an escalation. */
  lemma NarrowStageIsJumped(p: Policy, t: PromptType, period: Time, lag: Time)
    requires t != Escalation && p.Ordered() && 0 < period && 0 <= lag
    requires p.Threshold(Next(t)) - Opens(p, t, lag) < period
    ensures !Graduated(p, period, lag)
  {
    var w: WorkerId := "";
    var at := Provocation(p, t, lag);
    var run := JumpingRun(Opens(p, Escalation, lag) + 1, w, p, t, lag, at);
    var j := JumpsEscalates(run, w, p, t, lag, at, period);
    forall i: nat | i < |run|
      ensures !SentInStretch(run, i, w, p, 0, t)
    {
      JumpsSkipsStage(run, i, w, p, t, lag, at);
    }
    UnheardStage(run, j, w, p, 0, t);
  }

  /** Exactly when prompting is graduated in every run: when every stage is open for at least a polling period. */
  lemma GraduatedExactly(p: Policy, period: Time, lag: Time)
    requires p.Ordered() && 0 < period && 0 <= lag
    ensures Graduated(p, period, lag) <==> Fits(p, period, lag)
  {
    if Fits(p, period, lag) {
      forall run: seq<Check>, j: nat, w: WorkerId, quietFrom: Time
        | j < |run| && Escalates(run, j, w, p, quietFrom, period, lag)
        ensures HeardAll(run, j, w, p, quietFrom)
      {
        GraduatedEscalation(run, j, w, p, quietFrom, period, lag);
      }
    } else {
      var t: PromptType :| t != Escalation && p.Threshold(Next(t)) - Opens(p, t, lag) < period;
      NarrowStageIsJumped(p, t, period, lag);
    }
  }

  /**
   So for each role: the CEO is warned in stages with polls up to ten minutes apart, a manager
   with polls up to five, an ordinary worker only if period and lag stay within five minutes
   together.
   */
  lemma GraduatedPerRole(isManager: bool, period: Time, lag: Time)
    requires 0 < period && 0 <= lag
    ensures Graduated(ForWorker(true, isManager), period, lag) <==>
            period <= Minutes(10) && period + lag <= Minutes(20)
    ensures Graduated(ForWorker(false, true), period, lag) <==> period <= Minutes(5) && period + lag <= Minutes(15)
    ensures Graduated(ForWorker(false, false), period, lag) <==> period + lag <= Minutes(5)
  {
    RolesFit(isManager, period, lag);
    GraduatedExactly(ForWorker(true, isManager), period, lag);
    GraduatedExactly(ForWorker(false, true), period, lag);
    GraduatedExactly(ForWorker(false, false), period, lag);
  }

  /** For all roles at once that is when the polling period and the lag together stay within five minutes. */
  lemma RolesGraduatedExactly(period: Time, lag: Time)
    requires 0 < period && 0 <= lag
    ensures (forall isCeo, isManager :: Graduated(ForWorker(isCeo, isManager), period, lag)) <==>
            period + lag <= Minutes(5)
  {
    forall isCeo, isManager
      ensures period + lag <= Minutes(5) ==> Graduated(ForWorker(isCeo, isManager), period, lag)
    {
      GraduatedPerRole(isManager, period, lag);
    }
    GraduatedPerRole(false, period, lag);
  }

  // The order of a poll

  ghost predicate DistinctWorkers(poll: seq<Check>) {
    forall i, j :: 0 <= i < j < |poll| ==> poll[i].worker != poll[j].worker
  }

  /** What a memory holds about one worker. */
  function About(m: Memory, w: WorkerId): Option<map<PromptType, Time>> {
    if w in m then Some(m[w]) else None
  }

  lemma AfterOthers(m: Memory, c: Check, w: WorkerId)
    requires c.worker != w
    ensures About(After(m, c), w) == About(m, w)
  {
  }

  lemma AfterDependsOnOwn(m: Memory, n: Memory, c: Check)
    requires About(m, c.worker) == About(n, c.worker)
    ensures Sends(m, c) == Sends(n, c) && About(After(m, c), c.worker) == About(After(n, c), c.worker)
  {
  }

  lemma {:induction false} UntouchedUntilChecked(m: Memory, poll: seq<Check>, i: nat, w: WorkerId)
    requires i <= |poll| && forall k :: 0 <= k < i ==> poll[k].worker != w
    ensures About(MemoryAt(m, poll, i), w) == About(m, w)
    decreases i
  {
    if i > 0 {
      UntouchedUntilChecked(m, poll, i - 1, w);
      AfterOthers(MemoryAt(m, poll, i - 1), poll[i - 1], w);
    }
  }

  /** Within a poll of distinct workers each check works on the memory the poll started with. */
  lemma SentIndependently(m: Memory, poll: seq<Check>, i: nat)
    requires DistinctWorkers(poll) && i < |poll|
    ensures SentAt(m, poll, i) == Sends(m, poll[i])
    ensures About(MemoryAt(m, poll, i + 1), poll[i].worker) == About(After(m, poll[i]), poll[i].worker)
  {
    UntouchedUntilChecked(m, poll, i, poll[i].worker);
    AfterDependsOnOwn(MemoryAt(m, poll, i), m, poll[i]);
  }

  lemma {:induction false} UntouchedAfterChecked(m: Memory, poll: seq<Check>, k: nat, i: nat)
    requires DistinctWorkers(poll) && k < i <= |poll|
    ensures About(MemoryAt(m, poll, i), poll[k].worker) == About(After(m, poll[k]), poll[k].worker)
    decreases i
  {
    if i == k + 1 {
      SentIndependently(m, poll, k);
    } else {
      UntouchedAfterChecked(m, poll, k, i - 1);
      AfterOthers(MemoryAt(m, poll, i - 1), poll[i - 1], poll[k].worker);
    }
  }

  lemma SharedRow(poll: seq<Check>, shuffled: seq<Check>, i: nat) returns (k: nat)
    requires multiset(poll) == multiset(shuffled) && i < |poll|
    ensures k < |shuffled| && shuffled[k] == poll[i]
  {
    assert poll[i] in multiset(shuffled);
    k :| 0 <= k < |shuffled| && shuffled[k] == poll[i];
  }

  lemma SameMemoryFor(m: Memory, poll: seq<Check>, shuffled: seq<Check>, w: WorkerId)
    requires DistinctWorkers(poll) && DistinctWorkers(shuffled)
    requires multiset(poll) == multiset(shuffled)
    ensures About(MemoryAt(m, poll, |poll|), w) == About(MemoryAt(m, shuffled, |shuffled|), w)
  {
    if i :| 0 <= i < |poll| && poll[i].worker == w {
      var k := SharedRow(poll, shuffled, i);
      UntouchedAfterChecked(m, poll, i, |poll|);
      UntouchedAfterChecked(m, shuffled, k, |shuffled|);
    } else {
      forall k | 0 <= k < |shuffled|
        ensures shuffled[k].worker != w
      {
        var i := SharedRow(shuffled, poll, k);
      }
      UntouchedUntilChecked(m, poll, |poll|, w);
      UntouchedUntilChecked(m, shuffled, |shuffled|, w);
    }
  }

  lemma SameEverywhere(a: Memory, b: Memory)
    requires forall w :: About(a, w) == About(b, w)
    ensures a == b
  {
    forall w
      ensures (w in a <==> w in b) && (w in a ==> a[w] == b[w])
    {
      assert About(a, w) == About(b, w);
    }
  }

  lemma SamePromptFor(m: Memory, poll: seq<Check>, shuffled: seq<Check>, i: nat, k: nat)
    requires DistinctWorkers(poll) && DistinctWorkers(shuffled)
    requires multiset(poll) == multiset(shuffled)
    requires i < |poll| && k < |shuffled| && poll[i].worker == shuffled[k].worker
    ensures SentAt(m, poll, i) == SentAt(m, shuffled, k)
  {
    var same := SharedRow(poll, shuffled, i);
    assert same == k;
    assert poll[i] == shuffled[k];
    SentIndependently(m, poll, i);
    SentIndependently(m, shuffled, k);
  }

  lemma SameMemory(m: Memory, poll: seq<Check>, shuffled: seq<Check>)
    requires DistinctWorkers(poll) && DistinctWorkers(shuffled)
    requires multiset(poll) == multiset(shuffled)
    ensures MemoryAt(m, poll, |poll|) == MemoryAt(m, shuffled, |shuffled|)
  {
    var a, b := MemoryAt(m, poll, |poll|), MemoryAt(m, shuffled, |shuffled|);
    forall w
      ensures About(a, w) == About(b, w)
    {
      SameMemoryFor(m, poll, shuffled, w);
    }
    SameEverywhere(a, b);
  }

  /** The order of a poll's checks does not matter: same prompts per worker, same memory afterwards. */
  lemma PollOrderIrrelevant(m: Memory, poll: seq<Check>, shuffled: seq<Check>)
    requires DistinctWorkers(poll) && DistinctWorkers(shuffled)
    requires multiset(poll) == multiset(shuffled)
    ensures forall i, k :: 0 <= i < |poll| && 0 <= k < |shuffled| && poll[i].worker == shuffled[k].worker ==>
              SentAt(m, poll, i) == SentAt(m, shuffled, k)
    ensures MemoryAt(m, poll, |poll|) == MemoryAt(m, shuffled, |shuffled|)
  {
    forall i, k | 0 <= i < |poll| && 0 <= k < |shuffled| && poll[i].worker == shuffled[k].worker
      ensures SentAt(m, poll, i) == SentAt(m, shuffled, k)
    {
      SamePromptFor(m, poll, shuffled, i, k);
    }
    SameMemory(m, poll, shuffled);
  }

  /** Between two instants nothing changes for the worker of `c`: neither what is due nor whether it may be sent. */
  predicate Steady(m: Memory, c: Check, from: Time, to: Time) {
    var early, late := c.(now := from, asked := from), c.(now := to, asked := to);
    c.policy.Ordered() && early.Due() == late.Due() && Sends(m, early) == Sends(m, late)
  }

  /** Then its check sends the same at whichever instant in between it is made. */
  lemma SteadySendsSame(m: Memory, c: Check, from: Time, to: Time)
    requires Steady(m, c, from, to) && from <= c.now <= to && from <= c.asked <= to
    ensures Sends(m, c) == Sends(m, c.(now := from, asked := from))
  {
  }

  /**
   Nor does it matter that another order means other clock readings: two polls of the same
   workers within `[from, to]` prompt each of them alike, if for it nothing changes in between.
   */
  lemma PollTimingIrrelevant(m: Memory, poll: seq<Check>, shuffled: seq<Check>, i: nat, k: nat, from: Time, to: Time)
    requires DistinctWorkers(poll) && DistinctWorkers(shuffled) && i < |poll| && k < |shuffled|
    requires var c, d := poll[i], shuffled[k];
             && c.worker == d.worker && c.policy == d.policy && c.lastActivity == d.lastActivity
             && from <= c.now <= to && from <= c.asked <= to && from <= d.now <= to && from <= d.asked <= to
             && Steady(m, c, from, to)
    ensures SentAt(m, poll, i) == SentAt(m, shuffled, k)
  {
    SentIndependently(m, poll, i);
    SentIndependently(m, shuffled, k);
    SteadySendsSame(m, poll[i], from, to);
    SteadySendsSame(m, shuffled[k], from, to);
  }
}
