/** The write-ahead journal of scripts/batch_enable_2fa.py. Any number of workers enroll accounts
    concurrently, each in the small steps in which `enroll_with_token` and `Journal.append` touch shared
    state; the consumer writes results to the account store; the process can crash between any two steps and
    be started again. What the remote side answers is arbitrary. */
module WriteAhead {
  import opened Wrappers

  type Account = string
  type Secret = string

  const ALREADY_ENROLLED_MARKER := "already_enrolled"

  /** The state column of a journal line: "enrolled_pending_activate", "activated" and
      "activate_failed_secret_kept". */
  datatype Mark = Pending | Activated | FailedKept

  datatype Entry = Entry(account: Account, mark: Mark, secret: Secret)

  /** `text[:500]` */
  function Short(text: string): string { if |text| > 500 then text[..500] else text }

  /** How far `Journal.append` has come: waiting for the lock, holding it, or holding it with the line handed
      to the file but not yet synced to the disk. */
  datatype Stage = Waiting | Locked | Written

  /** What a worker returns; a failed activation returns its secret too. */
  datatype Result = Result(ok: bool, state: string, secret: Secret, error: string)

  /** `cause` is what an activation failed with. */
  datatype Job =
    | Checking(account: Account)
    | Journaling(account: Account, mark: Mark, secret: Secret, stage: Stage, cause: string)
    | Activating(account: Account, secret: Secret)
    | Verifying(account: Account, secret: Secret)
    | Failed(account: Account, last: Result)
    | Returned(account: Account, result: Result)
    | Consumed

  /** The 2FA columns of an account row. */
  datatype Row = Row(secret: Option<Secret>, error: string)

  /** `jobs`, `lock` and `buffer` are lost in a crash; `journal`, `active` and `store` are not. `active` is
      what the remote side has activated. */
  datatype State = State(
    jobs: seq<Job>, lock: Option<nat>, buffer: Option<Entry>,
    journal: seq<Entry>, active: set<(Account, Secret)>, store: map<Account, Row>)

  /** One step of one job, or of the consumer for it. The flags say what an unlucky step left behind: whether
      a line whose append failed, or was cut off by a crash, had reached the disk, whether a failed activation
      had taken effect, and whether the write to the store did. */
  datatype Step =
    | SeesEnrolled
    | Raises(error: string)
    | GetsSecret(secret: Secret)
    | Locks
    | Writes
    | Syncs
    | AppendFails(reached: bool, error: string)
    | ActivateReturns
    | ActivateRaises(activated: bool, error: string)
    | Verifies
    | Retries
    | GivesUp
    | Consumes(stored: bool)

  datatype Event = Start(account: Account) | Work(job: nat, step: Step) | Crash(reached: bool)

  function Line(job: Job): Entry
    requires job.Journaling?
  {
    Entry(job.account, job.mark, job.secret)
  }

  predicate HoldsLock(job: Job) { job.Journaling? && job.stage != Waiting }

  predicate CanWork(s: State, job: Job, step: Step) {
    match step
    case SeesEnrolled => job.Checking?
    case Raises(_) => job.Checking? || job.Verifying?
    case GetsSecret(secret) => job.Checking? && secret != ""
    case Locks => job.Journaling? && job.stage == Waiting && s.lock == None
    case Writes => job.Journaling? && job.stage == Locked
    case Syncs => job.Journaling? && job.stage == Written
    case AppendFails(reached, _) => HoldsLock(job) && (reached ==> job.stage == Written)
    case ActivateReturns => job.Activating?
    case ActivateRaises(_, _) => job.Activating?
    case Verifies => job.Verifying?
    case Retries => job.Failed?
    case GivesUp => job.Failed?
    case Consumes(_) => job.Returned?
  }

  predicate Enabled(s: State, e: Event) {
    e.Work? ==> e.job < |s.jobs| && CanWork(s, s.jobs[e.job], e.step)
  }

  /** Where a job goes on when its line is on the disk. */
  function Appended(job: Job): Job
    requires job.Journaling?
  {
    match job.mark
    case Pending => Activating(job.account, job.secret)
    case Activated => Returned(job.account, Result(true, "enrolled", job.secret, ""))
    case FailedKept =>
      Failed(job.account, Result(false, "activate_failed", job.secret, Short("activate_failed: " + job.cause)))
  }

  /** `persist_twofa`: a secret replaces the secret and clears the error, an error only replaces the error. */
  function Persist(row: Row, secret: Secret, error: string): Row {
    if secret != "" then Row(Some(secret), "")
    else if error != "" then row.(error := Short(error))
    else row
  }

  /** The consumer's branches: the secret of a success, the error of a failure, or the terminal marker. */
  function Persisted(row: Row, r: Result): Row {
    if r.ok && r.secret != "" then Persist(row, r.secret, "")
    else if !r.ok && r.error != "" then Persist(row, "", r.error)
    else if r.state == ALREADY_ENROLLED_MARKER then Persist(row, "", ALREADY_ENROLLED_MARKER)
    else row
  }

  function Worked(s: State, j: nat, step: Step): State
    requires j < |s.jobs| && CanWork(s, s.jobs[j], step)
  {
    var job := s.jobs[j];
    var a := job.account;
    match step
    case SeesEnrolled => s.(jobs := s.jobs[j := Returned(a, Result(true, ALREADY_ENROLLED_MARKER, "", ""))])
    case Raises(error) => s.(jobs := s.jobs[j := Failed(a, Result(false, "exception", "", error))])
    case GetsSecret(secret) => s.(jobs := s.jobs[j := Journaling(a, Pending, secret, Waiting, "")])
    case Locks => s.(jobs := s.jobs[j := job.(stage := Locked)], lock := Some(j))
    case Writes => s.(jobs := s.jobs[j := job.(stage := Written)], buffer := Some(Line(job)))
    case Syncs =>
      s.(jobs := s.jobs[j := Appended(job)], lock := None, buffer := None, journal := s.journal + [Line(job)])
    case AppendFails(reached, error) =>
      s.(jobs := s.jobs[j := Failed(a, Result(false, "exception", "", error))], lock := None, buffer := None,
         journal := if reached then s.journal + [Line(job)] else s.journal)
    case ActivateReturns => s.(jobs := s.jobs[j := Verifying(a, job.secret)], active := s.active + {(a, job.secret)})
    case ActivateRaises(activated, error) =>
      s.(jobs := s.jobs[j := Journaling(a, FailedKept, job.secret, Waiting, error)],
         active := if activated then s.active + {(a, job.secret)} else s.active)
    case Verifies => s.(jobs := s.jobs[j := Journaling(a, Activated, job.secret, Waiting, "")])
    case Retries => s.(jobs := s.jobs[j := Checking(a)])
    case GivesUp => s.(jobs := s.jobs[j := Returned(a, job.last)])
    case Consumes(stored) =>
      s.(jobs := s.jobs[j := Consumed],
         store := if stored && a in s.store then s.store[a := Persisted(s.store[a], job.result)] else s.store)
  }

  function After(s: State, e: Event): State
    requires Enabled(s, e)
  {
    match e
    case Start(a) => s.(jobs := s.jobs + [Checking(a)])
    case Work(j, step) => Worked(s, j, step)
    case Crash(reached) =>
      State([], None, None, if reached && s.buffer.Some? then s.journal + [s.buffer.value] else s.journal, s.active, s.store)
  }

  datatype Run = Begin | Then(before: Run, event: Event)

  /** Before a run the store is whatever earlier runs and other tools have left. */
  function Fresh(given: map<Account, Row>): State { State([], None, None, [], {}, given) }

  /** The state a run leads to; a run with a step that was not enabled leads nowhere. */
  function Replay(given: map<Account, Row>, run: Run): Option<State> {
    match run
    case Begin => Some(Fresh(given))
    case Then(before, e) =>
      match Replay(given, before)
      case None => None
      case Some(s) => if Enabled(s, e) then Some(After(s, e)) else None
  }

  // ---- the invariant -----------------------------------------------------------------------

  /** What a job relies on having happened. */
  ghost predicate Justified(s: State, job: Job) {
    match job
    case Journaling(a, Activated, secret, _, _) => Entry(a, Pending, secret) in s.journal && (a, secret) in s.active
    case Journaling(a, FailedKept, secret, _, _) => Entry(a, Pending, secret) in s.journal
    case Activating(a, secret) => Entry(a, Pending, secret) in s.journal
    case Verifying(a, secret) => Entry(a, Pending, secret) in s.journal && (a, secret) in s.active
    case Failed(_, last) => !last.ok
    case Returned(a, r) => r.ok && r.secret != "" ==> Entry(a, Activated, r.secret) in s.journal
    case _ => true
  }

  /** Entry `j` of the journal: before "activated" and "activate_failed_secret_kept" comes
      "enrolled_pending_activate" for the same secret. */
  ghost predicate Preceded(journal: seq<Entry>, j: nat)
    requires j < |journal|
  {
    journal[j].mark != Pending ==> Entry(journal[j].account, Pending, journal[j].secret) in journal[..j]
  }

  ghost predicate LockDiscipline(s: State) {
    && (s.lock.Some? ==> s.lock.value < |s.jobs| && HoldsLock(s.jobs[s.lock.value]))
    && (forall j :: 0 <= j < |s.jobs| && HoldsLock(s.jobs[j]) ==> s.lock == Some(j))
    && (s.buffer.Some? <==> s.lock.Some? && s.jobs[s.lock.value].stage == Written)
    && (s.buffer.Some? ==> s.buffer.value == Line(s.jobs[s.lock.value]))
  }

  ghost predicate JobsJustified(s: State) {
    forall j :: 0 <= j < |s.jobs| ==> Justified(s, s.jobs[j])
  }

  ghost predicate JournalOrdered(s: State) {
    && (forall j :: 0 <= j < |s.journal| ==> Preceded(s.journal, j))
    && (forall e :: e in s.journal && e.mark == Activated ==> (e.account, e.secret) in s.active)
  }

  /** The account has the secret that it had before the run. */
  predicate HeldBefore(given: map<Account, Row>, a: Account, secret: Secret) {
    a in given && given[a].secret == Some(secret)
  }

  /** A secret the remote side has activated is in the journal; a secret in the store was there before the run, or
      was journaled as activated. */
  ghost predicate Recoverable(given: map<Account, Row>, s: State) {
    && (forall a, secret :: (a, secret) in s.active ==> Entry(a, Pending, secret) in s.journal)
    && (forall a :: a in s.store && s.store[a].secret.Some? ==>
          || HeldBefore(given, a, s.store[a].secret.value)
          || Entry(a, Activated, s.store[a].secret.value) in s.journal)
  }

  ghost predicate Safe(given: map<Account, Row>, s: State) {
    LockDiscipline(s) && JobsJustified(s) && JournalOrdered(s) && Recoverable(given, s)
  }

  lemma LockAfter(s: State, e: Event)
    requires LockDiscipline(s) && Enabled(s, e)
    ensures LockDiscipline(After(s, e))
  {
    if e.Work? {
      if HoldsLock(s.jobs[e.job]) || e.step.Locks? { LockAfterWriter(s, e.job, e.step); }
      else { LockAfterOther(s, e.job, e.step); }
    }
  }

  lemma LockAfterWriter(s: State, j: nat, step: Step)
    requires LockDiscipline(s) && j < |s.jobs| && CanWork(s, s.jobs[j], step)
    requires HoldsLock(s.jobs[j]) || step.Locks?
    ensures LockDiscipline(Worked(s, j, step))
  {
    assert HoldsLock(s.jobs[j]) ==> s.lock == Some(j);
  }

  lemma LockAfterOther(s: State, j: nat, step: Step)
    requires LockDiscipline(s) && j < |s.jobs| && CanWork(s, s.jobs[j], step)
    requires !HoldsLock(s.jobs[j]) && !step.Locks?
    ensures LockDiscipline(Worked(s, j, step))
  {
    var t := Worked(s, j, step);
    assert !HoldsLock(t.jobs[j]) && t.lock == s.lock && t.buffer == s.buffer;
  }

  /** The line a job may leave in the journal keeps it in order. */
  lemma JournalAppend(s: State, line: Entry)
    requires JournalOrdered(s)
    requires line.mark != Pending ==> Entry(line.account, Pending, line.secret) in s.journal
    requires line.mark == Activated ==> (line.account, line.secret) in s.active
    ensures JournalOrdered(s.(journal := s.journal + [line]))
  {
    var journal := s.journal + [line];
    forall j | 0 <= j < |journal| ensures Preceded(journal, j) {
      if j < |s.journal| {
        assert Preceded(s.journal, j) && journal[..j] == s.journal[..j];
      } else {
        assert journal[..j] == s.journal;
      }
    }
  }

  lemma JournalAfter(s: State, e: Event)
    requires LockDiscipline(s) && JobsJustified(s) && JournalOrdered(s) && Enabled(s, e)
    ensures JournalOrdered(After(s, e))
  {
    match e {
      case Start(_) =>
      case Crash(reached) =>
        if reached && s.buffer.Some? {
          assert Justified(s, s.jobs[s.lock.value]);
          JournalAppend(s, s.buffer.value);
        }
      case Work(j, step) =>
        assert Justified(s, s.jobs[j]);
        if step.Syncs? || (step.AppendFails? && step.reached) {
          JournalAppend(s, Line(s.jobs[j]));
        } else {
          assert After(s, e).journal == s.journal && s.active <= After(s, e).active;
        }
    }
  }

  lemma JobsAfter(s: State, e: Event)
    requires JobsJustified(s) && Enabled(s, e)
    ensures JobsJustified(After(s, e))
  {
    var t := After(s, e);
    assert s.active <= t.active;
    forall x | x in s.journal ensures x in t.journal {}
    if e.Work? { assert Justified(s, s.jobs[e.job]); }
    forall k | 0 <= k < |t.jobs| ensures Justified(t, t.jobs[k]) {
      if k < |s.jobs| { assert Justified(s, s.jobs[k]); }
    }
  }

  lemma RecoverableAfter(given: map<Account, Row>, s: State, e: Event)
    requires JobsJustified(s) && Recoverable(given, s) && Enabled(s, e)
    ensures Recoverable(given, After(s, e))
  {
    var t := After(s, e);
    forall x | x in s.journal ensures x in t.journal {}
    if e.Work? { assert Justified(s, s.jobs[e.job]); }
  }

  /** Every state of every run, whatever the interleaving and wherever it crashes, is safe. */
  lemma {:induction false} RunsAreSafe(given: map<Account, Row>, run: Run)
    requires Replay(given, run).Some?
    ensures Safe(given, Replay(given, run).value)
  {
    if run.Then? {
      RunsAreSafe(given, run.before);
      var s := Replay(given, run.before).value;
      LockAfter(s, run.event);
      JournalAfter(s, run.event);
      JobsAfter(s, run.event);
      RecoverableAfter(given, s, run.event);
    }
  }

  /** What the journal promises: an activated secret is on the disk, and a secret stored by the run was journaled as
      activated and, earlier, as pending. */
  lemma {:induction false} ActivatedIsJournaled(given: map<Account, Row>, run: Run, account: Account, secret: Secret)
    requires Replay(given, run).Some? && (account, secret) in Replay(given, run).value.active
    ensures Entry(account, Pending, secret) in Replay(given, run).value.journal
  {
    RunsAreSafe(given, run);
  }

  lemma {:induction false} StoredIsJournaledTwice(given: map<Account, Row>, run: Run, account: Account)
    returns (i: nat, j: nat)
    requires Replay(given, run).Some? && account in Replay(given, run).value.store
    requires var secret := Replay(given, run).value.store[account].secret;
      secret.Some? && !HeldBefore(given, account, secret.value)
    ensures var s := Replay(given, run).value; var secret := s.store[account].secret.value;
      && i < j < |s.journal|
      && s.journal[i] == Entry(account, Pending, secret) && s.journal[j] == Entry(account, Activated, secret)
      && (account, secret) in s.active
  {
    RunsAreSafe(given, run);
    var s := Replay(given, run).value;
    var secret := s.store[account].secret.value;
    j :| 0 <= j < |s.journal| && s.journal[j] == Entry(account, Activated, secret);
    assert Preceded(s.journal, j);
    i :| 0 <= i < j && s.journal[..j][i] == Entry(account, Pending, secret);
  }

  /** Nothing durable is ever lost: the journal only grows at its end, and an account with a stored secret
      keeps a stored secret. */
  lemma {:induction false} NothingIsLost(given: map<Account, Row>, run: Run, e: Event)
    requires Replay(given, Then(run, e)).Some?
    ensures var s := Replay(given, run).value; var t := Replay(given, Then(run, e)).value;
      && s.journal <= t.journal && |t.journal| <= |s.journal| + 1
      && s.active <= t.active && s.store.Keys == t.store.Keys
      && forall a :: a in s.store && s.store[a].secret.Some? ==> t.store[a].secret.Some?
  {
    assert Replay(given, Then(run, e)).value == After(Replay(given, run).value, e);
  }

  /** A line reaches the disk, by a sync, a failed append or a crash, only after the holder of the lock has handed it to
      the file, and it is that line. */
  lemma OnlyWrittenLinesArrive(given: map<Account, Row>, run: Run, e: Event)
    requires Replay(given, Then(run, e)).Some?
    ensures var s := Replay(given, run).value; var t := Replay(given, Then(run, e)).value;
      t.journal != s.journal ==>
        && s.lock.Some? && s.lock.value < |s.jobs| && (e.Work? ==> e.job == s.lock.value)
        && s.jobs[s.lock.value].Journaling? && s.jobs[s.lock.value].stage == Written
        && t.journal == s.journal + [Line(s.jobs[s.lock.value])]
    ensures Replay(given, Then(run, e)).value.journal != Replay(given, run).value.journal <==>
      || (e.Work? && (e.step.Syncs? || (e.step.AppendFails? && e.step.reached)))
      || (e.Crash? && e.reached && Replay(given, run).value.buffer.Some?)
  {
    RunsAreSafe(given, run);
    var s := Replay(given, run).value;
    assert Replay(given, Then(run, e)).value == After(s, e);
    if e.Work? { assert HoldsLock(s.jobs[e.job]) ==> s.lock == Some(e.job); }
  }

  /** At most one job is inside the critical section of the journal. */
  lemma {:induction false} OneWriter(given: map<Account, Row>, run: Run, i: nat, j: nat)
    requires Replay(given, run).Some?
    requires var s := Replay(given, run).value;
      i < |s.jobs| && j < |s.jobs| && HoldsLock(s.jobs[i]) && HoldsLock(s.jobs[j])
    ensures i == j
  {
    RunsAreSafe(given, run);
  }

  // ---- what is stored ------------------------------------------------------------------------

  /** `short` is the text, or its first 500 characters. */
  predicate IsShort(text: string, short: string) {
    short <= text && |short| <= 500 && (|short| == 500 || short == text)
  }

  /** The row keeps its secret and gets this error, if there is one. */
  predicate Noted(old_: Row, error: string, row: Row) {
    row.secret == old_.secret && if error == "" then row.error == old_.error else IsShort(error, row.error)
  }

  /** The row of an account that a result has been written to: a success leaves its secret and no error, a failure its
      error and the old secret, an account that was enrolled already the marker and the old secret. */
  ghost predicate Stored(old_: Row, r: Result, row: Row) {
    if r.ok && r.secret != "" then row.secret == Some(r.secret) && row.error == ""
    else if !r.ok && r.error != "" then Noted(old_, r.error, row)
    else if r.state == "already_enrolled" then row.secret == old_.secret && row.error == "already_enrolled"
    else row == old_
  }

  /** In every run, over every store: the write of the consumer leaves that in the row of the account, and touches no
      other account and nothing else. */
  lemma StoreStep(given: map<Account, Row>, run: Run, j: nat)
    requires Replay(given, Then(run, Work(j, Consumes(true)))).Some?
    ensures var s := Replay(given, run).value; var t := Replay(given, Then(run, Work(j, Consumes(true)))).value;
      && j < |s.jobs| && s.jobs[j].Returned?
      && t == s.(jobs := s.jobs[j := Consumed], store := t.store) && t.store.Keys == s.store.Keys
      && forall a :: a in s.store ==>
           if a == s.jobs[j].account then Stored(s.store[a], s.jobs[j].result, t.store[a]) else t.store[a] == s.store[a]
  {
    var s := Replay(given, run).value;
    assert Replay(given, Then(run, Work(j, Consumes(true)))).value == After(s, Work(j, Consumes(true)));
  }

  /** Only such a write changes the store. */
  lemma OnlyTheConsumerStores(given: map<Account, Row>, run: Run, e: Event)
    requires Replay(given, Then(run, e)).Some? && !(e.Work? && e.step == Consumes(true))
    ensures Replay(given, Then(run, e)).value.store == Replay(given, run).value.store
  {
    assert Replay(given, Then(run, e)).value == After(Replay(given, run).value, e);
  }

  // ---- whole enrollments ---------------------------------------------------------------------

  /** The run leads to `s`, where job `j` is `job` and nobody writes to the journal. */
  predicate Reaches(given: map<Account, Row>, run: Run, s: State, j: nat, job: Job) {
    Replay(given, run) == Some(s) && s.lock == None && s.buffer == None && j < |s.jobs| && s.jobs[j] == job
  }

  lemma StepFrom(given: map<Account, Row>, before: Run, s: State, j: nat, step: Step) returns (run: Run)
    requires Replay(given, before) == Some(s) && j < |s.jobs| && CanWork(s, s.jobs[j], step)
    ensures run == Then(before, Work(j, step)) && Replay(given, run) == Some(Worked(s, j, step))
  {
    run := Then(before, Work(j, step));
  }

  /** A line takes three steps to reach the disk. */
  lemma AppendSteps(given: map<Account, Row>, before: Run, s: State, j: nat) returns (run: Run)
    requires Replay(given, before) == Some(s) && s.lock == None && s.buffer == None
    requires j < |s.jobs| && s.jobs[j].Journaling? && s.jobs[j].stage == Waiting
    ensures Replay(given, run)
      == Some(s.(jobs := s.jobs[j := Appended(s.jobs[j])], journal := s.journal + [Line(s.jobs[j])]))
  {
    run := StepFrom(given, before, s, j, Locks);
    var s1 := Worked(s, j, Locks);
    run := StepFrom(given, run, s1, j, Writes);
    var s2 := Worked(s1, j, Writes);
    run := StepFrom(given, run, s2, j, Syncs);
    assert Worked(s2, j, Syncs).jobs == s.jobs[j := Appended(s.jobs[j])];
  }

  /** An account that is being checked can get as far as the activation of a secret, with the secret on the disk. */
  lemma ReachesActivation(given: map<Account, Row>, before: Run, s: State, j: nat, a: Account, secret: Secret)
    returns (run: Run)
    requires Reaches(given, before, s, j, Checking(a)) && secret != ""
    ensures Replay(given, run) == Some(s.(
      jobs := s.jobs[j := Activating(a, secret)], journal := s.journal + [Entry(a, Pending, secret)]))
  {
    run := StepFrom(given, before, s, j, GetsSecret(secret));
    var s1 := Worked(s, j, GetsSecret(secret));
    run := AppendSteps(given, run, s1, j);
    assert s1.jobs[j := Activating(a, secret)] == s.jobs[j := Activating(a, secret)];
  }

  /** What has been written is in the store. */
  lemma Consumption(given: map<Account, Row>, before: Run, s: State, j: nat, a: Account, result: Result)
    returns (run: Run)
    requires Replay(given, before) == Some(s) && j < |s.jobs| && s.jobs[j] == Returned(a, result) && a in s.store
    ensures Replay(given, run).Some? && var t := Replay(given, run).value;
      && t.journal == s.journal && t.active == s.active
      && a in t.store && t.store == s.store[a := t.store[a]] && Stored(s.store[a], result, t.store[a])
  {
    run := StepFrom(given, before, s, j, Consumes(true));
    StoreStep(given, before, j);
  }

  /** From any state of any run an enrollment without mishaps goes all the way to the store, and clears the error of
      an earlier attempt. */
  lemma EnrollmentCompletes(given: map<Account, Row>, before: Run, s: State, j: nat, a: Account, secret: Secret)
    returns (run: Run)
    requires Reaches(given, before, s, j, Checking(a)) && a in s.store && secret != ""
    ensures Replay(given, run).Some? && var t := Replay(given, run).value;
      && t.journal == s.journal + [Entry(a, Pending, secret), Entry(a, Activated, secret)]
      && t.active == s.active + {(a, secret)} && t.store == s.store[a := Row(Some(secret), "")]
  {
    run := ReachesActivation(given, before, s, j, a, secret);
    var s1 := Replay(given, run).value;
    run := StepFrom(given, run, s1, j, ActivateReturns);
    var s2 := Worked(s1, j, ActivateReturns);
    run := StepFrom(given, run, s2, j, Verifies);
    var s3 := Worked(s2, j, Verifies);
    run := AppendSteps(given, run, s3, j);
    var s4 := Replay(given, run).value;
    assert s4.journal == s.journal + [Entry(a, Pending, secret), Entry(a, Activated, secret)];
    run := Consumption(given, run, s4, j, a, Result(true, "enrolled", secret, ""));
  }

  /** An activation that fails keeps its secret in the journal, and its error in the store. */
  lemma FailureIsRecorded(given: map<Account, Row>, before: Run, s: State, j: nat, a: Account, secret: Secret,
                          activated: bool, error: string) returns (run: Run)
    requires Reaches(given, before, s, j, Checking(a)) && a in s.store && secret != ""
    ensures Replay(given, run).Some? && var t := Replay(given, run).value;
      && t.journal == s.journal + [Entry(a, Pending, secret), Entry(a, FailedKept, secret)]
      && t.active == (if activated then s.active + {(a, secret)} else s.active)
      && a in t.store && t.store == s.store[a := t.store[a]] && Noted(s.store[a], "activate_failed: " + error, t.store[a])
  {
    run := ReachesActivation(given, before, s, j, a, secret);
    var s1 := Replay(given, run).value;
    run := StepFrom(given, run, s1, j, ActivateRaises(activated, error));
    var s2 := Worked(s1, j, ActivateRaises(activated, error));
    run := AppendSteps(given, run, s2, j);
    var s3 := Replay(given, run).value;
    assert s3.journal == s.journal + [Entry(a, Pending, secret), Entry(a, FailedKept, secret)];
    run := StepFrom(given, run, s3, j, GivesUp);
    var s4 := Worked(s3, j, GivesUp);
    run := Consumption(given, run, s4, j, a, Result(false, "activate_failed", secret, Short("activate_failed: " + error)));
  }

  /** When the check behind an activation raises, the secret is active and in the journal, and not in the store. */
  lemma UnverifiedIsOnlyJournaled(given: map<Account, Row>, before: Run, s: State, j: nat, a: Account, secret: Secret,
                                  error: string) returns (run: Run)
    requires Reaches(given, before, s, j, Checking(a)) && a in s.store && secret != ""
    ensures Replay(given, run).Some? && var t := Replay(given, run).value;
      && t.journal == s.journal + [Entry(a, Pending, secret)]
      && t.active == s.active + {(a, secret)}
      && a in t.store && t.store == s.store[a := t.store[a]] && Noted(s.store[a], error, t.store[a])
  {
    run := ReachesActivation(given, before, s, j, a, secret);
    var s1 := Replay(given, run).value;
    run := StepFrom(given, run, s1, j, ActivateReturns);
    var s2 := Worked(s1, j, ActivateReturns);
    run := StepFrom(given, run, s2, j, Raises(error));
    var s3 := Worked(s2, j, Raises(error));
    run := StepFrom(given, run, s3, j, GivesUp);
    var s4 := Worked(s3, j, GivesUp);
    run := Consumption(given, run, s4, j, a, Result(false, "exception", "", error));
  }

  lemma FailedAppend(given: map<Account, Row>, before: Run, s: State, j: nat, reached: bool, error: string)
    returns (run: Run)
    requires Replay(given, before) == Some(s) && s.lock == None && s.buffer == None
    requires j < |s.jobs| && s.jobs[j].Journaling? && s.jobs[j].stage == Waiting
    ensures Replay(given, run) == Some(s.(
      jobs := s.jobs[j := Failed(s.jobs[j].account, Result(false, "exception", "", error))],
      journal := if reached then s.journal + [Line(s.jobs[j])] else s.journal))
  {
    run := StepFrom(given, before, s, j, Locks);
    var s1 := Worked(s, j, Locks);
    run := StepFrom(given, run, s1, j, Writes);
    var s2 := Worked(s1, j, Writes);
    run := StepFrom(given, run, s2, j, AppendFails(reached, error));
    assert Worked(s2, j, AppendFails(reached, error)).jobs ==
      s.jobs[j := Failed(s.jobs[j].account, Result(false, "exception", "", error))];
  }

  /** When the append of a secret fails, before or after its line has reached the disk, nothing is activated and the error
      is stored. */
  lemma AppendFailureIsRecorded(given: map<Account, Row>, before: Run, s: State, j: nat, a: Account, secret: Secret,
                                reached: bool, error: string) returns (run: Run)
    requires Reaches(given, before, s, j, Checking(a)) && a in s.store && secret != ""
    ensures Replay(given, run).Some? && var t := Replay(given, run).value;
      && t.journal == (if reached then s.journal + [Entry(a, Pending, secret)] else s.journal) && t.active == s.active
      && a in t.store && t.store == s.store[a := t.store[a]] && Noted(s.store[a], error, t.store[a])
  {
    run := StepFrom(given, before, s, j, GetsSecret(secret));
    var s1 := Worked(s, j, GetsSecret(secret));
    run := FailedAppend(given, run, s1, j, reached, error);
    var s2 := Replay(given, run).value;
    assert Line(s1.jobs[j]) == Entry(a, Pending, secret);
    assert s2.journal == if reached then s.journal + [Entry(a, Pending, secret)] else s.journal;
    run := StepFrom(given, run, s2, j, GivesUp);
    var s3 := Worked(s2, j, GivesUp);
    run := Consumption(given, run, s3, j, a, Result(false, "exception", "", error));
  }

  /** After a crash at any point only the line in the buffer is in doubt, and any account can be taken up again. */
  lemma CrashAndRestart(given: map<Account, Row>, run: Run, reached: bool, a: Account) returns (s: State)
    requires Replay(given, run).Some?
    ensures Reaches(given, Then(Then(run, Crash(reached)), Start(a)), s, 0, Checking(a))
    ensures s.store == Replay(given, run).value.store && s.active == Replay(given, run).value.active
    ensures var old_ := Replay(given, run).value;
      s.journal == if reached && old_.buffer.Some? then old_.journal + [old_.buffer.value] else old_.journal
  {
    var t := After(Replay(given, run).value, Crash(reached));
    assert Replay(given, Then(run, Crash(reached))) == Some(t);
    s := After(t, Start(a));
  }

  /** Any other failure: with retries left the account is checked again, and otherwise its error is stored. */
  lemma ExceptionIsRecorded(given: map<Account, Row>, before: Run, s: State, j: nat, a: Account, error: string)
    returns (again: Run, run: Run)
    requires Reaches(given, before, s, j, Checking(a)) && a in s.store
    ensures Replay(given, again) == Some(s)
    ensures Replay(given, run).Some? && var t := Replay(given, run).value;
      && t.journal == s.journal && t.active == s.active
      && a in t.store && t.store == s.store[a := t.store[a]] && Noted(s.store[a], error, t.store[a])
  {
    var failed := StepFrom(given, before, s, j, Raises(error));
    var s1 := Worked(s, j, Raises(error));
    again := StepFrom(given, failed, s1, j, Retries);
    assert Worked(s1, j, Retries).jobs == s.jobs;
    run := StepFrom(given, failed, s1, j, GivesUp);
    var s2 := Worked(s1, j, GivesUp);
    run := Consumption(given, run, s2, j, a, Result(false, "exception", "", error));
  }

  /** An account that turns out to be enrolled gets the marker, so that it is not tried again, and keeps its secret. */
  lemma MarkerIsRecorded(given: map<Account, Row>, before: Run, s: State, j: nat, a: Account) returns (run: Run)
    requires Reaches(given, before, s, j, Checking(a)) && a in s.store
    ensures Replay(given, run).Some? && var t := Replay(given, run).value;
      && t.journal == s.journal && t.active == s.active && t.store == s.store[a := Row(s.store[a].secret, "already_enrolled")]
  {
    run := StepFrom(given, before, s, j, SeesEnrolled);
    var s1 := Worked(s, j, SeesEnrolled);
    run := Consumption(given, run, s1, j, a, Result(true, "already_enrolled", "", ""));
  }
}
