/**
 What the login limiter answers over every interleaving: each admitted take is stored
 when it commits, so that the attempts of a key are those there were and those admitted,
 and no window in which nothing is cleared admits more than the maximum.
 */
module LoginAnswers {
  import opened Wrappers
  import opened LoginLimiter

  /** A process commits an admitted take of a key whose clock showed a time between the two. */
  predicate Admits(s: System, p: nat, key: Key, lo: int, hi: int)
    requires p < |s.processes|
  {
    var Process(task, phase) := s.processes[p];
    && task.Take? && key in task.keys
    && phase.Counting? && phase.counted == |task.keys| && phase.allowed && lo <= phase.now <= hi
  }

  /** How many takes of a key a run admits whose clocks showed a time between the two. */
  function Admissions(s: System, schedule: seq<Move>, key: Key, lo: int, hi: int, lockOf: Key -> Lock): nat
    decreases |schedule|
  {
    if schedule == [] then 0
    else if schedule[0].process < |s.processes| then
      (if Admits(s, schedule[0].process, key, lo, hi) then 1 else 0)
      + Admissions(Advanced(s, schedule[0].process, schedule[0].now, lockOf), schedule[1..], key, lo, hi, lockOf)
    else Admissions(s, schedule[1..], key, lo, hi, lockOf)
  }

  /** A process is about to clear the attempts of a key. */
  predicate Clears(s: System, p: nat, key: Key)
    requires p < |s.processes|
  {
    var Process(task, phase) := s.processes[p];
    phase.Clearing? && phase.taken < |task.keys| && task.keys[phase.taken] == key
  }

  /** No step of a run clears the attempts of a key. */
  predicate NeverCleared(s: System, schedule: seq<Move>, key: Key, lockOf: Key -> Lock)
    decreases |schedule|
  {
    schedule == []
    || (if schedule[0].process < |s.processes| then
          !Clears(s, schedule[0].process, key)
          && NeverCleared(Advanced(s, schedule[0].process, schedule[0].now, lockOf), schedule[1..], key, lockOf)
        else NeverCleared(s, schedule[1..], key, lockOf))
  }

  /** Nobody has deleted an attempt of the key made since a time, or has read a clock by which it is expired. */
  ghost predicate Untouched(s: System, key: Key, since: int) {
    && (forall r | r in s.rows && r.attempt.key == key && r.attempt.at >= since :: r.deleter.None?)
    && (forall p | 0 <= p < |s.processes| && s.processes[p].phase.Cleaning? ::
          s.processes[p].phase.now - RETENTION <= since)
  }

  // ---- every step -------------------------------------------------------------------------------------------------

  lemma {:induction false} UndeletedAreCounted(rows: seq<Row>, p: nat, key: Key, lo: int, hi: int)
    requires forall r | r in rows && r.attempt.key == key && r.attempt.at >= lo :: r.deleter.None?
    ensures CountIn(Seen(rows, p), key, lo, hi) == CountIn(Attempts(rows), key, lo, hi)
  {
    if rows != [] {
      UndeletedAreCounted(rows[1..], p, key, lo, hi);
      assert rows[0] in rows;
      var seen := Seen(rows[1..], p);
      assert ([rows[0].attempt] + seen)[1..] == seen;
      assert Attempts(rows)[1..] == Attempts(rows[1..]);
    }
  }

  lemma CommitCounts(s: System, p: nat, inserted: seq<Attempt>, key: Key, lo: int, hi: int)
    requires p < |s.processes| && Untouched(s, key, lo)
    ensures Untouched(Committed(s, p, inserted), key, lo)
    ensures CountIn(Attempts(Committed(s, p, inserted).rows), key, lo, hi)
         == CountIn(Attempts(s.rows), key, lo, hi) + CountIn(inserted, key, lo, hi)
  {
    hide Kept, Stored, Seen, Attempts, CountIn;
    KeptRows(s.rows, p);
    StoredIsSeen(inserted, p);
    AttemptsAdd(Kept(s.rows, p), Stored(inserted));
    CountsAdd(Seen(s.rows, p), inserted, key, lo, hi, true);
    UndeletedAreCounted(s.rows, p, key, lo, hi);
  }

  lemma EraseCounts(s: System, p: nat, condition: Condition, phase: Phase, key: Key, since: int)
    requires p < |s.processes| && Untouched(s, key, since) && !phase.Cleaning?
    requires forall a: Attempt | a.key == key && a.at >= since :: !condition(a)
    ensures Untouched(Erased(s, p, condition, phase), key, since)
    ensures Attempts(Erased(s, p, condition, phase).rows) == Attempts(s.rows)
  {
    hide Deleted, Attempts;
    DeletedRows(s.rows, p, p, condition);
    var t := Erased(s, p, condition, phase);
    forall r | r in t.rows && r.attempt.key == key && r.attempt.at >= since ensures r.deleter.None? {
      assert !condition(r.attempt);
    }
  }

  lemma MoveCounts(s: System, p: nat, phase: Phase, key: Key, since: int)
    requires p < |s.processes| && Untouched(s, key, since)
    requires phase.Cleaning? ==> phase.now - RETENTION <= since
    ensures Untouched(Moved(s, p, phase), key, since)
  {
  }

  lemma TakeCommitCounts(s: System, p: nat, key: Key, lo: int, hi: int)
    requires p < |s.processes| && Untouched(s, key, lo)
    requires s.processes[p].phase.Counting? && s.processes[p].phase.counted == |s.processes[p].task.keys|
    requires s.processes[p].task.Take? && Increasing(s.processes[p].task.keys)
    ensures
      var Process(task, Counting(at, _, allowed)) := s.processes[p];
      var t := Committed(s, p, InsertedBy(task, at, allowed));
      && Untouched(t, key, lo)
      && CountIn(Attempts(t.rows), key, lo, hi)
         == CountIn(Attempts(s.rows), key, lo, hi) + if Admits(s, p, key, lo, hi) then 1 else 0
  {
    hide Increasing, Rows, Committed, Untouched;
    var Process(task, Counting(at, _, allowed)) := s.processes[p];
    CommitCounts(s, p, InsertedBy(task, at, allowed), key, lo, hi);
    NewRowsCount(task.keys, task.succeeded, at, key, lo, hi, true);
  }

  /** The steps of a process that is not blocked, but its counting. */
  lemma MovingStepCounts(s: System, p: nat, now: int, key: Key, lo: int, hi: int, lockOf: Key -> Lock)
    requires p < |s.processes| && ValidPhase(s.processes[p]) && !s.processes[p].phase.Counting?
    requires Untouched(s, key, lo) && !Clears(s, p, key) && now - RETENTION <= lo
    ensures
      var t := Stepped(s, p, now, lockOf);
      && Untouched(t, key, lo)
      && CountIn(Attempts(t.rows), key, lo, hi) == CountIn(Attempts(s.rows), key, lo, hi)
  {
    var Process(task, phase) := s.processes[p];
    assert phase.Cleaning? ==> phase.now - RETENTION <= lo;
    hide Erased, Committed, Untouched, CountIn, Attempts;
    match phase
    case Locking(taken) =>
      if taken < |task.keys| {
        LockCounts(s, p, key, lo, lockOf);
      } else if task.Take? {
        MoveCounts(s, p, Cleaning(now), key, lo);
      } else {
        CommitCounts(s, p, [], key, lo, hi);
        NothingCounts(key, lo, hi);
      }
    case Clearing(taken) => EraseCounts(s, p, OfKey(task.keys[taken]), Locking(taken + 1), key, lo);
    case Cleaning(at) => EraseCounts(s, p, ExpiredBefore(at - RETENTION), Counting(at, 0, true), key, lo);
    case Counting(_, _, _) | Finished =>
  }

  lemma CountingStepCounts(s: System, p: nat, now: int, key: Key, lo: int, hi: int, lockOf: Key -> Lock)
    requires p < |s.processes| && ValidPhase(s.processes[p]) && s.processes[p].phase.Counting?
    requires Increasing(s.processes[p].task.keys) && Untouched(s, key, lo)
    ensures
      var t := Stepped(s, p, now, lockOf);
      && Untouched(t, key, lo)
      && CountIn(Attempts(t.rows), key, lo, hi)
         == CountIn(Attempts(s.rows), key, lo, hi) + if Admits(s, p, key, lo, hi) then 1 else 0
  {
    hide Committed, Untouched, Increasing, CountIn, Attempts;
    var Process(task, Counting(at, counted, allowed)) := s.processes[p];
    if counted < |task.keys| {
      var below := Below(s, p, task.keys[counted], at, PolicyOfTask(task));
      MoveCounts(s, p, Counting(at, counted + 1, allowed && below), key, lo);
    } else {
      TakeCommitCounts(s, p, key, lo, hi);
    }
  }

  /**
   An attempt of a key appears exactly when a take of it is admitted, and none goes
   unless it is cleared or expires.
   */
  lemma StepCounts(
    s: System, p: nat, now: int, key: Key, lo: int, hi: int, lockOf: Key -> Lock, policyOf: Key -> Policy)
    requires Valid(s, lockOf, policyOf) && p < |s.processes|
    requires Untouched(s, key, lo) && !Clears(s, p, key) && now - RETENTION <= lo
    ensures
      var t := Advanced(s, p, now, lockOf);
      && Untouched(t, key, lo)
      && CountIn(Attempts(t.rows), key, lo, hi)
         == CountIn(Attempts(s.rows), key, lo, hi) + if Admits(s, p, key, lo, hi) then 1 else 0
  {
    ProcessIsValid(s, p, lockOf, policyOf);
    assert Blocked(s, p, lockOf) ==> !s.processes[p].phase.Counting?;
    hide Valid, Blocked, Stepped, Untouched, Increasing, CountIn, Attempts;
    if !Blocked(s, p, lockOf) {
      if s.processes[p].phase.Counting? {
        CountingStepCounts(s, p, now, key, lo, hi, lockOf);
      } else {
        MovingStepCounts(s, p, now, key, lo, hi, lockOf);
      }
    }
  }

  lemma NothingCounts(key: Key, lo: int, hi: int)
    ensures CountIn([], key, lo, hi) == 0
  {
  }

  lemma LockCounts(s: System, p: nat, key: Key, since: int, lockOf: Key -> Lock)
    requires p < |s.processes| && Untouched(s, key, since)
    requires s.processes[p].phase.Locking? && s.processes[p].phase.taken < |s.processes[p].task.keys|
    ensures Untouched(LockTaken(s, p, lockOf), key, since) && LockTaken(s, p, lockOf).rows == s.rows
  {
    var Process(task, Locking(taken)) := s.processes[p];
    MoveCounts(s, p, if task.Take? then Locking(taken + 1) else Clearing(taken), key, since);
  }

  // ---- every run --------------------------------------------------------------------------------------------------

  /** No clock of a run shows a time by which attempts made since another are expired. */
  ghost predicate ClocksKeep(schedule: seq<Move>, since: int) {
    forall i | 0 <= i < |schedule| :: schedule[i].now - RETENTION <= since
  }

  lemma {:induction false} RunCounts(
    s: System, schedule: seq<Move>, key: Key, lo: int, hi: int, lockOf: Key -> Lock, policyOf: Key -> Policy)
    requires Valid(s, lockOf, policyOf) && Untouched(s, key, lo)
    requires NeverCleared(s, schedule, key, lockOf) && ClocksKeep(schedule, lo)
    ensures Valid(Run(s, schedule, lockOf), lockOf, policyOf)
    ensures CountIn(Attempts(Run(s, schedule, lockOf).rows), key, lo, hi)
         == CountIn(Attempts(s.rows), key, lo, hi) + Admissions(s, schedule, key, lo, hi, lockOf)
    decreases |schedule|
  {
    hide Valid, Untouched, Advanced, Admits, Clears, CountIn, Attempts;
    if schedule != [] {
      var rest := schedule[1..];
      assert ClocksKeep(rest, lo);
      if schedule[0].process < |s.processes| {
        var p, now := schedule[0].process, schedule[0].now;
        StepValid(s, p, now, lockOf, policyOf);
        StepCounts(s, p, now, key, lo, hi, lockOf, policyOf);
        RunCounts(Advanced(s, p, now, lockOf), rest, key, lo, hi, lockOf, policyOf);
      } else {
        RunCounts(s, rest, key, lo, hi, lockOf, policyOf);
      }
    }
  }

  /**
   After any run, in a further run that does not clear a key and whose clocks do not expire
   the attempts of a window, the takes of the key that are admitted with a clock in that
   window are, with the attempts stored before, no more than its maximum.
   */
  lemma AdmitsAtMostTheMaximum(
    s: System, before: seq<Move>, during: seq<Move>, key: Key, t: int, lockOf: Key -> Lock, policyOf: Key -> Policy)
    requires Begins(s, policyOf)
    requires
      var u := Run(s, before, lockOf);
      Untouched(u, key, t) && NeverCleared(u, during, key, lockOf) && ClocksKeep(during, t)
    ensures
      var u := Run(s, before, lockOf);
      InWindow(Attempts(u.rows), key, t) + Admissions(u, during, key, t, t + WINDOW, lockOf) <= policyOf(key).maximum
  {
    hide Valid, Untouched, NeverCleared, Attempts, CountIn, Run;
    BeginsValid(s, lockOf, policyOf);
    RunValid(s, before, lockOf, policyOf);
    var u := Run(s, before, lockOf);
    RunCounts(u, during, key, t, t + WINDOW, lockOf, policyOf);
    LimitsOfValid(Run(u, during, lockOf), key, t, lockOf, policyOf);
  }

  lemma LimitsOfValid(s: System, key: Key, t: int, lockOf: Key -> Lock, policyOf: Key -> Policy)
    requires Valid(s, lockOf, policyOf)
    ensures InWindow(Attempts(s.rows), key, t) <= policyOf(key).maximum
  {
    hide ValidPhases, ValidLocks, ValidRows, CountsStand, RowsCounted, Attempts;
  }

  /** A process that is about to commit has refused its take when one of its keys has had its maximum in the window. */
  lemma FullKeysAreRefused(
    s: System, p: nat, i: nat, lockOf: Key -> Lock, policyOf: Key -> Policy)
    requires Valid(s, lockOf, policyOf) && p < |s.processes| && i < |s.processes[p].task.keys|
    requires s.processes[p].phase.Counting? && s.processes[p].phase.counted == |s.processes[p].task.keys|
    requires
      var key := s.processes[p].task.keys[i];
      CountSince(Seen(s.rows, p), key, s.processes[p].phase.now - WINDOW, policyOf(key).countAll)
      >= policyOf(key).maximum
    ensures !s.processes[p].phase.allowed && forall key, lo, hi :: !Admits(s, p, key, lo, hi)
  {
    hide ValidPhases, ValidLocks, ValidRows, RowsCounted, WithinLimits, Seen, CountSince, Attempts;
    assert CountStands(Seen(s.rows, p), s.processes[p], i, policyOf);
  }

  // ---- clocks that are a day apart --------------------------------------------------------------------------------

  /** A clock more than the retention ahead expires an attempt that still counts, and its key is admitted once more. */
  lemma ClocksApartForget(a: Key, b: Key, t: int)
    requires a != b
    ensures
      var policy := Policy(1, false);
      var one := TakeCommitted([], [a], false, t, true);
      var two := TakeCommitted(one, [b], false, t + RETENTION + 1, true);
      Admissible([], [a], policy, t) && !Admissible(one, [a], policy, t) && Admissible(two, [a], policy, t)
  {
    var one := TakeCommitted([], [a], false, t, true);
    assert one == [Attempt(a, false, t)];
    assert one[1..] == [];
    assert CountSince(one, a, t - WINDOW, false) == 1;
    var two := TakeCommitted(one, [b], false, t + RETENTION + 1, true);
    assert WithoutExpired(one, t + 1) == [];
    assert two == [Attempt(b, false, t + RETENTION + 1)];
    assert two[1..] == [];
    assert CountSince(two, a, t - WINDOW, false) == 0;
  }
}
