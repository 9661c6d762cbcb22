/** The consumer loop of scripts/batch_enable_2fa.py: a bounded in-flight window, a pool-death breaker, a
    transient-outage breaker with cooldowns and a session-lane circuit with waits.

    A run is the list of its events. `Lawful` says, in terms of what has happened so far, which event may come
    next; the class `Batch` is the loop with its counters, and every run of it is lawful. What the workers return,
    which futures complete and what the probe answers are arbitrary. */
module BatchRun {
  import opened Ordering

  const POOL_DEAD_STREAK_LIMIT: nat := 12
  const TRANSIENT_STREAK_LIMIT: nat := 10
  const TRANSIENT_COOLDOWN_MAX: nat := 3
  const SESSION_CIRCUIT_DEFAULT_WAIT: nat := 300
  const SESSION_CIRCUIT_MAX_WAITS: nat := 6

  /** The session circuit named by an error text; the text may state its own wait in seconds. */
  datatype Circuit = Closed | Open | OpenFor(seconds: nat)

  /** Which markers the error text of a result contains; one text may contain several. */
  datatype Result = Result(ok: bool, poolDead: bool, transient: bool, circuit: Circuit)

  /** Targets are numbered in list order. */
  datatype Event =
    | Submit(target: nat)
    | Wake(done: set<nat>)
    | Finish(target: nat, result: Result)
    | Cooldown
    | Probe(rejected: bool)
    | SessionWait(seconds: nat)
    | Abort

  datatype Log = Begin | Then(before: Log, event: Event)

  function Window(workers: int): (w: nat)
    ensures w == if workers >= 1 then workers + workers else 2
  {
    (if workers < 1 then 1 else workers) * 2
  }

  /** A stated wait is at least one second; an unstated one is the default. */
  function PauseFor(circuit: Circuit): (seconds: nat)
    requires !circuit.Closed?
    ensures seconds >= 1
  {
    match circuit
    case Open => SESSION_CIRCUIT_DEFAULT_WAIT
    case OpenFor(n) => if n < 1 then 1 else n
  }

  // ---- what a history says -----------------------------------------------------------------

  datatype Phase = Running | ProbeDue | Rejected | Aborted

  /** What has happened in a run. `untaken` are the completed futures of the current round whose results are
      not taken yet, `recent` the results taken since the last cooldown, and `unserved` the last session
      circuit reported since the last session wait. */
  datatype Status = Status(
    submitted: nat, pending: set<nat>, untaken: set<nat>, finished: seq<nat>, results: seq<Result>,
    recent: seq<Result>, unserved: Circuit, cooldowns: nat, waits: nat, phase: Phase)

  const START := Status(0, {}, {}, [], [], [], Closed, 0, 0, Running)

  function After(s: Status, e: Event): Status {
    match e
    case Submit(t) => s.(submitted := s.submitted + 1, pending := s.pending + {t})
    case Wake(done) => s.(untaken := done)
    case Finish(t, r) =>
      s.(pending := s.pending - {t}, untaken := s.untaken - {t}, finished := s.finished + [t],
         results := s.results + [r], recent := s.recent + [r],
         unserved := if r.circuit.Closed? then s.unserved else r.circuit)
    case Cooldown => s.(recent := [], cooldowns := s.cooldowns + 1, phase := ProbeDue)
    case Probe(rejected) => s.(phase := if rejected then Rejected else Running)
    case SessionWait(_) => s.(unserved := Closed, waits := s.waits + 1)
    case Abort => s.(phase := Aborted)
  }

  function Replay(log: Log): Status {
    match log
    case Begin => START
    case Then(before, e) => After(Replay(before), e)
  }

  /** How many of the last of the first `n` results contain the pool-dead marker, without a gap. */
  function DeadRunAt(results: seq<Result>, n: nat): nat
    requires n <= |results|
  {
    if n > 0 && results[n - 1].poolDead then DeadRunAt(results, n - 1) + 1 else 0
  }

  function TransientRunAt(results: seq<Result>, n: nat): nat
    requires n <= |results|
  {
    if n > 0 && results[n - 1].transient then TransientRunAt(results, n - 1) + 1 else 0
  }

  function DeadRun(results: seq<Result>): nat { DeadRunAt(results, |results|) }

  function TransientRun(results: seq<Result>): nat { TransientRunAt(results, |results|) }

  // ---- lawful runs -------------------------------------------------------------------------

  predicate PoolDead(s: Status) { DeadRun(s.results) >= POOL_DEAD_STREAK_LIMIT }

  predicate Outage(s: Status) { TransientRun(s.recent) >= TRANSIENT_STREAK_LIMIT }

  /** No breaker has tripped without having been served. */
  predicate Clear(s: Status) {
    s.untaken == {} && !PoolDead(s) && !Outage(s) && s.unserved.Closed? && s.phase == Running
  }

  predicate Allowed(targets: nat, window: nat, s: Status, e: Event) {
    match e
    case Submit(t) => Clear(s) && t == s.submitted < targets && |s.pending| < window
    case Wake(done) => Clear(s) && {} < done <= s.pending && (|s.pending| == window || s.submitted == targets)
    case Finish(t, _) => t in s.untaken && !PoolDead(s) && s.phase == Running
    case Cooldown =>
      s.untaken == {} && !PoolDead(s) && Outage(s) && s.cooldowns < TRANSIENT_COOLDOWN_MAX && s.phase == Running
    case Probe(_) => s.phase == ProbeDue
    case SessionWait(seconds) =>
      && s.untaken == {} && !PoolDead(s) && !Outage(s) && s.phase == Running
      && !s.unserved.Closed? && s.waits < SESSION_CIRCUIT_MAX_WAITS && seconds == PauseFor(s.unserved)
    case Abort =>
      || s.phase == Rejected
      || (s.phase == Running
          && (|| PoolDead(s)
              || (s.untaken == {} && Outage(s) && s.cooldowns == TRANSIENT_COOLDOWN_MAX)
              || (s.untaken == {} && !Outage(s) && !s.unserved.Closed? && s.waits == SESSION_CIRCUIT_MAX_WAITS)))
  }

  predicate Lawful(targets: nat, window: nat, log: Log) {
    match log
    case Begin => true
    case Then(before, e) => Lawful(targets, window, before) && Allowed(targets, window, Replay(before), e)
  }

  /** `log` continues `start`. */
  predicate Continues(log: Log, start: Log) {
    log == start || (log.Then? && Continues(log.before, start))
  }

  lemma {:induction false} ContinuesTransitive(log: Log, middle: Log, start: Log)
    requires Continues(log, middle) && Continues(middle, start)
    ensures Continues(log, start)
  {
    if log != middle { ContinuesTransitive(log.before, middle, start); }
  }

  /** Every prefix of a lawful run is lawful, and unless it is the whole run it did not end in an abort. */
  lemma {:induction false} PrefixLawful(targets: nat, window: nat, log: Log, start: Log)
    requires Lawful(targets, window, log) && Continues(log, start)
    ensures Lawful(targets, window, start)
    ensures log != start ==> Replay(start).phase != Aborted
  {
    if log != start { PrefixLawful(targets, window, log.before, start); }
  }

  // ---- what holds of every lawful run ------------------------------------------------------

  /** The run-length functions measure the trailing run: those last results carry the marker and the one
      before them does not. */
  lemma {:induction false} DeadRunIsTrailing(results: seq<Result>, n: nat)
    requires n <= |results|
    ensures var k := DeadRunAt(results, n);
      && k <= n && (forall i :: n - k <= i < n ==> results[i].poolDead) && (k < n ==> !results[n - k - 1].poolDead)
  {
    if n > 0 && results[n - 1].poolDead { DeadRunIsTrailing(results, n - 1); }
  }

  lemma {:induction false} TransientRunIsTrailing(results: seq<Result>, n: nat)
    requires n <= |results|
    ensures var k := TransientRunAt(results, n);
      && k <= n && (forall i :: n - k <= i < n ==> results[i].transient) && (k < n ==> !results[n - k - 1].transient)
  {
    if n > 0 && results[n - 1].transient { TransientRunIsTrailing(results, n - 1); }
  }

  lemma {:induction false} RunsOfPrefix(results: seq<Result>, r: Result, n: nat)
    requires n <= |results|
    ensures DeadRunAt(results + [r], n) == DeadRunAt(results, n)
    ensures TransientRunAt(results + [r], n) == TransientRunAt(results, n)
  {
    if n > 0 { RunsOfPrefix(results, r, n - 1); }
  }

  lemma RunsAfter(results: seq<Result>, r: Result)
    ensures DeadRun(results + [r]) == if r.poolDead then DeadRun(results) + 1 else 0
    ensures TransientRun(results + [r]) == if r.transient then TransientRun(results) + 1 else 0
  {
    RunsOfPrefix(results, r, |results|);
  }

  /** Results, in-flight and unsubmitted targets partition the list. */
  ghost predicate Partitioned(targets: nat, window: nat, s: Status) {
    && s.submitted <= targets && |s.pending| <= window && s.untaken <= s.pending
    && |s.finished| == |s.results| == s.submitted - |s.pending|
    && NoDuplicates(s.finished)
    && (forall t :: t in s.finished ==> t !in s.pending)
    && forall t: nat :: t < s.submitted <==> t in s.finished || t in s.pending
  }

  lemma PartitionedAfterSubmit(targets: nat, window: nat, s: Status, t: nat)
    requires Partitioned(targets, window, s) && Allowed(targets, window, s, Submit(t))
    ensures Partitioned(targets, window, After(s, Submit(t)))
  {
    assert t !in s.pending && t !in s.finished;
  }

  lemma PartitionedAfterFinish(targets: nat, window: nat, s: Status, t: nat, r: Result)
    requires Partitioned(targets, window, s) && Allowed(targets, window, s, Finish(t, r))
    ensures Partitioned(targets, window, After(s, Finish(t, r)))
  {
    NoDuplicatesAppend(s.finished, t);
  }

  lemma PartitionedAfter(targets: nat, window: nat, s: Status, e: Event)
    requires Partitioned(targets, window, s) && Allowed(targets, window, s, e)
    ensures Partitioned(targets, window, After(s, e))
  {
    match e {
      case Submit(t) => PartitionedAfterSubmit(targets, window, s, t);
      case Finish(t, r) => PartitionedAfterFinish(targets, window, s, t, r);
      case _ =>
    }
  }

  /** Every submitted target is either in flight or has exactly one result, the window is never exceeded, and
      since a submission takes the next target, targets are submitted in list order without repeats. */
  lemma {:induction false} Partition(targets: nat, window: nat, log: Log)
    requires Lawful(targets, window, log)
    ensures Partitioned(targets, window, Replay(log))
  {
    if log.Then? {
      Partition(targets, window, log.before);
      PartitionedAfter(targets, window, Replay(log.before), log.event);
    }
  }

  lemma {:induction false} SubsetSize<T>(a: set<T>, b: set<T>)
    requires a <= b
    ensures |a| <= |b|
  {
    assert b == a + (b - a);
  }

  ghost predicate Bounded(window: nat, s: Status) {
    && s.cooldowns <= TRANSIENT_COOLDOWN_MAX && s.waits <= SESSION_CIRCUIT_MAX_WAITS
    && DeadRun(s.results) <= POOL_DEAD_STREAK_LIMIT
    && TransientRun(s.recent) + |s.untaken| < TRANSIENT_STREAK_LIMIT + window
    && (s.phase == ProbeDue ==> !PoolDead(s) && !Outage(s) && s.untaken == {})
    && (s.phase == Rejected ==> !PoolDead(s))
  }

  lemma BoundedAfter(targets: nat, window: nat, s: Status, e: Event)
    requires Bounded(window, s) && |s.pending| <= window && Allowed(targets, window, s, e)
    ensures Bounded(window, After(s, e))
  {
    match e {
      case Wake(done) => SubsetSize(done, s.pending);
      case Finish(t, r) => RunsAfter(s.results, r); RunsAfter(s.recent, r);
      case _ =>
    }
  }

  /** At most three cooldowns and six session waits ever happen, twelve is the longest pool-dead run, and the
      outage run never exceeds its limit by more than one round of results. */
  lemma {:induction false} PausesBounded(targets: nat, window: nat, log: Log)
    requires Lawful(targets, window, log) && window > 0
    ensures Bounded(window, Replay(log))
  {
    if log.Then? {
      PausesBounded(targets, window, log.before);
      Partition(targets, window, log.before);
      BoundedAfter(targets, window, Replay(log.before), log.event);
    }
  }

  /** Twelve pool-dead results in a row are the last results of the run: only the abort can follow them. */
  lemma {:induction false} TwelveOnlyAtTheEnd(targets: nat, window: nat, log: Log, start: Log)
    requires window > 0
    ensures Lawful(targets, window, log) && Continues(log, start) && PoolDead(Replay(start)) ==>
      && DeadRun(Replay(start).results) == POOL_DEAD_STREAK_LIMIT
      && (log == start || log == Then(start, Abort))
      && Replay(log).results == Replay(start).results
  {
    if Lawful(targets, window, log) && Continues(log, start) && PoolDead(Replay(start)) {
      PrefixLawful(targets, window, log, start);
      PausesBounded(targets, window, start);
      if log != start {
        if log.before == start {
          DeadPoolAborts(targets, window, Replay(start), log.event);
        } else {
          TwelveOnlyAtTheEnd(targets, window, log.before, start);
          AbortIsLast(targets, window, Replay(log.before), log.event);
        }
      }
    }
  }

  lemma DeadPoolAborts(targets: nat, window: nat, s: Status, e: Event)
    requires Bounded(window, s) && PoolDead(s) && Allowed(targets, window, s, e)
    ensures e == Abort && After(s, e).results == s.results
  {}

  lemma AbortIsLast(targets: nat, window: nat, s: Status, e: Event)
    ensures s.phase == Aborted ==> !Allowed(targets, window, s, e)
  {}

  /** A round has ended in an outage. */
  predicate RoundEndsInOutage(s: Status) { s.untaken == {} && Outage(s) && s.phase == Running }

  /** Nothing is submitted between an outage and the end of its pause: when a round has ended in an outage, a
      later submission is preceded by a cooldown and a probe that found the pool answering. */
  lemma {:induction false} OutagePauses(targets: nat, window: nat, log: Log, start: Log)
    ensures Lawful(targets, window, log) && Continues(log, start) && RoundEndsInOutage(Replay(start)) ==>
      || log == start || log == Then(start, Cooldown) || log == Then(start, Abort)
      || log == Then(Then(start, Cooldown), Probe(true)) || log == Then(Then(Then(start, Cooldown), Probe(true)), Abort)
      || Continues(log, Then(Then(start, Cooldown), Probe(false)))
  {
    if Lawful(targets, window, log) && Continues(log, start) && log != start {
      OutagePauses(targets, window, log.before, start);
    }
  }

  /** A round has ended with a session circuit to wait for. */
  predicate RoundEndsInCircuit(s: Status) { s.untaken == {} && !s.unserved.Closed? }

  /** Nor between a session circuit and the end of its wait. */
  lemma {:induction false} CircuitPauses(targets: nat, window: nat, log: Log, start: Log)
    ensures Lawful(targets, window, log) && Continues(log, start) && RoundEndsInCircuit(Replay(start)) ==>
      || Waited(log, start, PauseFor(Replay(start).unserved))
      || (&& Replay(log).submitted == Replay(start).submitted && Replay(log).untaken == {}
          && Replay(log).unserved == Replay(start).unserved)
  {
    if Lawful(targets, window, log) && Continues(log, start) && log != start {
      CircuitPauses(targets, window, log.before, start);
    }
  }

  /** After `start` the run has waited for `seconds`, and submitted nothing before that. */
  predicate Waited(log: Log, start: Log, seconds: nat) {
    log != start && log.Then? &&
    (Waited(log.before, start, seconds)
     || (log.event == SessionWait(seconds) && Replay(log.before).submitted == Replay(start).submitted))
  }

  // ---- waits and aborts, from the events alone ---------------------------------------------

  /** The results taken in a run, and those taken since its last cooldown. */
  function Taken(log: Log): seq<Result> {
    match log
    case Begin => []
    case Then(before, Finish(_, result)) => Taken(before) + [result]
    case Then(before, _) => Taken(before)
  }

  function TakenSinceCooldown(log: Log): seq<Result> {
    match log
    case Begin => []
    case Then(before, Finish(_, result)) => TakenSinceCooldown(before) + [result]
    case Then(before, Cooldown) => []
    case Then(before, _) => TakenSinceCooldown(before)
  }

  function Cooldowns(log: Log): nat {
    if log.Begin? then 0 else Cooldowns(log.before) + if log.event.Cooldown? then 1 else 0
  }

  function Waits(log: Log): nat {
    if log.Begin? then 0 else Waits(log.before) + if log.event.SessionWait? then 1 else 0
  }

  /** Since the last session wait, the last error text to name a session circuit named this one. */
  predicate LastNamed(log: Log, circuit: Circuit) {
    match log
    case Begin => false
    case Then(before, Finish(_, result)) =>
      if result.circuit.Closed? then LastNamed(before, circuit) else result.circuit == circuit
    case Then(before, SessionWait(_)) => false
    case Then(before, _) => LastNamed(before, circuit)
  }

  ghost predicate AllDead(results: seq<Result>, n: nat) {
    |results| >= n && forall i :: |results| - n <= i < |results| ==> results[i].poolDead
  }

  ghost predicate AllTransient(results: seq<Result>, n: nat) {
    |results| >= n && forall i :: |results| - n <= i < |results| ==> results[i].transient
  }

  lemma {:induction false} ReplayReads(log: Log)
    ensures Replay(log).results == Taken(log) && Replay(log).recent == TakenSinceCooldown(log)
    ensures Replay(log).cooldowns == Cooldowns(log) && Replay(log).waits == Waits(log)
    ensures !Replay(log).unserved.Closed? ==> LastNamed(log, Replay(log).unserved)
    ensures forall c :: LastNamed(log, c) ==> c == Replay(log).unserved
  {
    if log.Then? { ReplayReads(log.before); }
  }

  /** A session wait follows an error text that named the circuit, and lasts as long as the last such text said: at
      least a second, and five minutes when it said nothing. */
  lemma WaitsAsStated(targets: nat, window: nat, before: Log, seconds: nat)
    requires Lawful(targets, window, Then(before, SessionWait(seconds)))
    ensures (LastNamed(before, Open) && seconds == 300)
      || (exists n: nat :: LastNamed(before, OpenFor(n)) && (seconds == n || (n == 0 && seconds == 1)))
  {
    ReplayReads(before);
    var named := Replay(before).unserved;
    if named.OpenFor? { assert LastNamed(before, OpenFor(named.seconds)); }
  }

  /** Why a run may be given up: the pool rejected the probe or the last twelve accounts; or ten transport failures in a
      row followed the third cooldown; or the session lane is shut after six waits. */
  ghost predicate GivenUpFor(before: Log) {
    || (before.Then? && before.event == Probe(true))
    || AllDead(Taken(before), 12)
    || (Cooldowns(before) == 3 && AllTransient(TakenSinceCooldown(before), 10))
    || (Waits(before) == 6 && exists circuit :: LastNamed(before, circuit))
  }

  lemma AbortsForAReason(targets: nat, window: nat, before: Log)
    requires Lawful(targets, window, Then(before, Abort)) && window > 0
    ensures GivenUpFor(before)
  {
    var s := Replay(before);
    ReplayReads(before);
    DeadRunIsTrailing(s.results, |s.results|);
    TransientRunIsTrailing(s.recent, |s.recent|);
    if s.phase == Rejected { RejectedByProbe(targets, window, before); }
  }

  lemma RejectedByProbe(targets: nat, window: nat, log: Log)
    requires Lawful(targets, window, log) && Replay(log).phase == Rejected
    ensures log.Then? && log.event == Probe(true)
  {}

  /** No account is submitted for one of these reasons, and none between a failed round and its pause. */
  lemma NoSubmissionInAFailure(targets: nat, window: nat, before: Log, target: nat)
    requires Lawful(targets, window, Then(before, Submit(target)))
    ensures !AllDead(Taken(before), 12) && !AllTransient(TakenSinceCooldown(before), 10)
    ensures forall circuit :: !LastNamed(before, circuit)
  {
    var s := Replay(before);
    ReplayReads(before);
    DeadRunIsTrailing(s.results, |s.results|);
    TransientRunIsTrailing(s.recent, |s.recent|);
    NotClosedNamed(before);
  }

  lemma {:induction false} NotClosedNamed(log: Log)
    ensures !LastNamed(log, Closed)
  {
    if log.Then? { NotClosedNamed(log.before); }
  }

  /** What the loop keeps: how many targets are submitted, which are in flight, the results, the two run lengths, the
      cooldowns and waits so far, the last circuit that was named, and whether the run was given up. */
  datatype Counters = Counters(
    submitted: nat, pending: set<nat>, results: seq<Result>, deadRun: nat, transientRun: nat,
    cooldowns: nat, waits: nat, circuit: Circuit, aborted: bool)

  function Summary(s: Status): Counters {
    Counters(s.submitted, s.pending, s.results, DeadRun(s.results), TransientRun(s.recent), s.cooldowns, s.waits, s.unserved,
             s.phase == Aborted)
  }

  /** What a result does to these. */
  lemma SummaryTaken(s: Status, t: nat, r: Result)
    ensures Summary(After(s, Finish(t, r))) == Summary(s).(
      pending := s.pending - {t}, results := s.results + [r],
      deadRun := if r.poolDead then DeadRun(s.results) + 1 else 0,
      transientRun := if r.transient then TransientRun(s.recent) + 1 else 0,
      circuit := if r.circuit.Closed? then s.unserved else r.circuit)
  {
    RunsAfter(s.results, r);
    RunsAfter(s.recent, r);
  }

  // ---- the loop ----------------------------------------------------------------------------

  /** `next` is the position of the target iterator; `log` is the history the counters summarise. */
  class Batch {
    const targets: nat
    const window: nat
    var next: nat
    var pending: set<nat>
    var results: seq<Result>
    var deadStreak: nat
    var transientStreak: nat
    var cooldowns: nat
    var sessionWaits: nat
    var circuit: Circuit
    var aborted: bool
    ghost var log: Log

    ghost function Now(): Status
      reads this
    {
      Replay(log)
    }

    /** Every field is the summary of the history that its name promises. */
    ghost predicate Summarises(s: Status)
      reads this
    {
      Counters(next, pending, results, deadStreak, transientStreak, cooldowns, sessionWaits, circuit, aborted) == Summary(s)
    }

    ghost predicate Valid()
      reads this
    {
      window >= 2 && Lawful(targets, window, log) && Summarises(Replay(log))
    }

    constructor (targets: nat, workers: int)
      ensures Valid() && this.targets == targets && window == Window(workers) && log == Begin
    {
      this.targets, window := targets, Window(workers);
      next, pending, results := 0, {}, [];
      deadStreak, transientStreak, cooldowns, sessionWaits := 0, 0, 0, 0;
      circuit, aborted, log := Closed, false, Begin;
    }

    method FillWindow()
      requires Valid() && Clear(Now())
      modifies this
      ensures Valid() && Clear(Now()) && results == old(results) && Continues(log, old(log))
      ensures |pending| == window || next == targets
    {
      Partition(targets, window, log);
      while |pending| < window
        invariant Valid() && Clear(Now()) && results == old(results) && Continues(log, old(log))
        invariant |pending| <= window && next <= targets
        decreases targets - next
      {
        if next == targets { return; }
        pending, log, next := pending + {next}, Then(log, Submit(next)), next + 1;
        Partition(targets, window, log);
      }
    }

    method Stop()
      requires Valid() && Allowed(targets, window, Now(), Abort)
      modifies `aborted, `log
      ensures Valid() && log == Then(old(log), Abort)
    {
      aborted := true;
      log := Then(log, Abort);
    }

    /** What the loop does with the result of one completed future, up to the check of the pool breaker. */
    method Take(target: nat, result: Result)
      requires Valid() && Allowed(targets, window, Now(), Finish(target, result))
      modifies this
      ensures Valid() && log == Then(old(log), Finish(target, result))
    {
      SummaryTaken(Now(), target, result);
      pending, results := pending - {target}, results + [result];
      deadStreak := if result.poolDead then deadStreak + 1 else 0;
      transientStreak := if result.transient then transientStreak + 1 else 0;
      circuit, log := if result.circuit.Closed? then circuit else result.circuit, Then(log, Finish(target, result));
    }

    /** `wait` returned the futures `done`; they are taken in any order, with any results. */
    method TakeRound(done: set<nat>)
      requires Valid() && Allowed(targets, window, Now(), Wake(done))
      modifies this
      ensures Valid() && Continues(log, old(log)) && |results| > |old(results)|
      ensures Now().phase == Aborted || (Now().phase == Running && Now().untaken == {} && !PoolDead(Now()))
    {
      log := Then(log, Wake(done));
      var untaken := done;
      while untaken != {}
        invariant Valid() && Continues(log, old(log)) && untaken == Now().untaken
        invariant |results| >= |old(results)| && (untaken != done ==> |results| > |old(results)|)
        invariant Now().phase == Running && !PoolDead(Now())
        decreases |untaken|
      {
        var target :| target in untaken;
        var result: Result := *;
        Take(target, result);
        untaken := untaken - {target};
        if deadStreak >= POOL_DEAD_STREAK_LIMIT {
          Stop();
          return;
        }
      }
    }

    /** The transient branch after a round: abort, or cool down and probe the pool once. */
    method CoolDown()
      requires Valid() && Now().phase == Running && Now().untaken == {} && !PoolDead(Now()) && Outage(Now())
      modifies this
      ensures Valid() && Continues(log, old(log)) && results == old(results)
      ensures Now().phase == Aborted || (Now().phase == Running && Now().untaken == {} && !PoolDead(Now()) && !Outage(Now()))
    {
      PausesBounded(targets, window, log);
      if cooldowns >= TRANSIENT_COOLDOWN_MAX {
        Stop();
        return;
      }
      cooldowns := cooldowns + 1;
      transientStreak := 0;
      log := Then(log, Cooldown);
      ghost var cooling := log;
      ProbePool();
      ContinuesTransitive(log, cooling, old(log));
    }

    method ProbePool()
      requires Valid() && Now().phase == ProbeDue
      modifies this
      ensures Valid() && Continues(log, old(log)) && results == old(results)
      ensures log == Then(old(log), Probe(false)) || log == Then(Then(old(log), Probe(true)), Abort)
    {
      var rejected: bool := *;
      log := Then(log, Probe(rejected));
      if rejected { Stop(); }
    }

    /** The session branch: abort, or wait as long as the circuit asks. */
    method WaitForSession()
      requires Valid() && Now().phase == Running && Now().untaken == {} && !PoolDead(Now()) && !Outage(Now())
      requires !Now().unserved.Closed?
      modifies this
      ensures Valid() && Continues(log, old(log)) && results == old(results)
      ensures Now().phase == Aborted || Clear(Now())
    {
      PausesBounded(targets, window, log);
      if sessionWaits >= SESSION_CIRCUIT_MAX_WAITS {
        Stop();
        return;
      }
      log := Then(log, SessionWait(PauseFor(circuit)));
      sessionWaits := sessionWaits + 1;
      circuit := Closed;
    }

    /** One pass through the body of the loop. */
    method Round()
      requires Valid() && Clear(Now()) && pending != {} && (|pending| == window || next == targets)
      modifies this
      ensures Valid() && Continues(log, old(log)) && |results| > |old(results)|
      ensures aborted || (Clear(Now()) && (|pending| == window || next == targets))
    {
      var done :| {} < done <= pending;
      TakeRound(done);
      if aborted { return; }
      ghost var taken := log;
      if transientStreak >= TRANSIENT_STREAK_LIMIT { CoolDown(); }
      ghost var cooled := log;
      if !aborted && !circuit.Closed? { WaitForSession(); }
      ghost var waited := log;
      if !aborted { FillWindow(); }
      ContinuesTransitive(log, waited, cooled);
      ContinuesTransitive(log, cooled, taken);
      ContinuesTransitive(log, taken, old(log));
    }

    /** The whole run: it is lawful whatever the workers return, it terminates because every round adds a
        result, and unless it aborts every target has exactly one result. */
    method Run()
      requires Valid() && log == Begin
      modifies this
      ensures Valid() && Partitioned(targets, window, Now())
      ensures !aborted ==> |results| == targets && forall t: nat :: t < targets <==> t in Now().finished
      ensures PoolDead(Now()) ==> aborted
    {
      FillWindow();
      while pending != {} && !aborted
        invariant Valid() && (aborted || (Clear(Now()) && (|pending| == window || next == targets)))
        decreases targets - |results|
      {
        Partition(targets, window, log);
        Round();
        Partition(targets, window, log);
      }
      Partition(targets, window, log);
    }
  }
}
