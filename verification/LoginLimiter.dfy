/**
 The login rate limiter of `internal/auth/rate_limit.go` as interleaved transactions.
 Each takes the advisory locks of its keys in key order, one at a time, and holds them
 until it commits.  A row that a transaction deletes is its own until it commits: others
 still see the row, and a deletion that meets it waits.  A key is its position in the
 order of the hashed keys.
 */
module LoginLimiter {
  import opened Wrappers

  type Key = nat

  type Lock = int

  const WINDOW := 15 * 60
  const RETENTION := 24 * 60 * 60

  datatype Attempt = Attempt(key: Key, succeeded: bool, at: int)

  datatype Policy = Policy(maximum: nat, countAll: bool)

  datatype Task =
    | Take(keys: seq<Key>, policy: Policy, succeeded: bool)
    | RecordSuccess(keys: seq<Key>)

  // ---- the keys ---------------------------------------------------------------------------------------------------

  ghost predicate Increasing(keys: seq<Key>) {
    forall i, j | 0 <= i < j < |keys| :: keys[i] < keys[j]
  }

  function InsertKey(keys: seq<Key>, key: Key): (inserted: seq<Key>)
    ensures forall k :: k in inserted <==> k in keys || k == key
  {
    if keys == [] then [key] else if key <= keys[0] then [key] + keys else [keys[0]] + InsertKey(keys[1..], key)
  }

  /** `sort.Strings`. */
  function SortKeys(keys: seq<Key>): seq<Key> {
    if keys == [] then [] else InsertKey(SortKeys(keys[1..]), keys[0])
  }

  lemma IncreasingCons(first: Key, rest: seq<Key>)
    requires Increasing(rest) && forall k | k in rest :: first < k
    ensures Increasing([first] + rest)
  {
    var all := [first] + rest;
    forall i, j | 0 <= i < j < |all| ensures all[i] < all[j] {
      assert all[j] == rest[j - 1] && rest[j - 1] in rest;
    }
  }

  lemma IncreasingBounds(keys: seq<Key>)
    requires keys != [] && Increasing(keys)
    ensures Increasing(keys[1..]) && forall k | k in keys[1..] :: keys[0] < k
  {
  }

  lemma {:induction false} InsertKeyIncreases(keys: seq<Key>, key: Key)
    requires Increasing(keys) && key !in keys
    ensures Increasing(InsertKey(keys, key))
  {
    if keys != [] {
      IncreasingBounds(keys);
      if key <= keys[0] {
        assert forall k | k in keys :: k == keys[0] || k in keys[1..];
        IncreasingCons(key, keys);
      } else {
        InsertKeyIncreases(keys[1..], key);
        IncreasingCons(keys[0], InsertKey(keys[1..], key));
      }
    }
  }

  /** Different keys, sorted, are increasing, and still the same keys. */
  lemma {:induction false} SortedKeysIncrease(keys: seq<Key>)
    requires Distinct(keys)
    ensures Increasing(SortKeys(keys)) && forall k :: k in SortKeys(keys) <==> k in keys
  {
    if keys != [] {
      SortedKeysIncrease(keys[1..]);
      assert keys[0] !in keys[1..];
      InsertKeyIncreases(SortKeys(keys[1..]), keys[0]);
    }
  }

  // ---- the rows ---------------------------------------------------------------------------------------------------

  function CountedBy(attempt: Attempt, key: Key, from: int, countAll: bool): nat {
    if attempt.key == key && (countAll || !attempt.succeeded) && attempt.at >= from then 1 else 0
  }

  /** `CountRecentLoginAttempts`, and `CountRecentFailedLoginAttempts` unless `countAll`. */
  function CountSince(attempts: seq<Attempt>, key: Key, from: int, countAll: bool): nat {
    if attempts == [] then 0
    else CountSince(attempts[1..], key, from, countAll) + CountedBy(attempts[0], key, from, countAll)
  }

  /** The attempts of a key in a closed interval, failed or not. */
  function CountIn(attempts: seq<Attempt>, key: Key, lo: int, hi: int): nat {
    if attempts == [] then 0
    else CountIn(attempts[1..], key, lo, hi) + (if attempts[0].key == key && lo <= attempts[0].at <= hi then 1 else 0)
  }

  /** The attempts of a key in the window that starts at a time, ends included. */
  function InWindow(attempts: seq<Attempt>, key: Key, t: int): nat {
    CountIn(attempts, key, t, t + WINDOW)
  }

  function WithoutExpired(attempts: seq<Attempt>, before: int): seq<Attempt> {
    if attempts == [] then []
    else
      var rest := WithoutExpired(attempts[1..], before);
      if attempts[0].at < before then rest else [attempts[0]] + rest
  }

  function WithoutKeys(attempts: seq<Attempt>, keys: seq<Key>): seq<Attempt> {
    if attempts == [] then []
    else
      var rest := WithoutKeys(attempts[1..], keys);
      if attempts[0].key in keys then rest else [attempts[0]] + rest
  }

  function Rows(keys: seq<Key>, succeeded: bool, at: int): seq<Attempt> {
    seq(|keys|, i requires 0 <= i < |keys| => Attempt(keys[i], succeeded, at))
  }

  function Admissible(attempts: seq<Attempt>, keys: seq<Key>, policy: Policy, now: int): bool {
    forall i | 0 <= i < |keys| :: CountSince(attempts, keys[i], now - WINDOW, policy.countAll) < policy.maximum
  }

  /** What a `take` leaves behind when it commits. */
  function TakeCommitted(
    attempts: seq<Attempt>, keys: seq<Key>, succeeded: bool, now: int, allowed: bool): seq<Attempt>
  {
    WithoutExpired(attempts, now - RETENTION) + if allowed then Rows(keys, succeeded, now) else []
  }

  class LoginRateLimiter {
    var attempts: seq<Attempt>

    constructor ()
      ensures attempts == []
    {
      attempts := [];
    }

    /** `take` without others in between. */
    method TakeAlone(rawKeys: seq<Key>, policy: Policy, succeeded: bool, now: int) returns (allowed: bool)
      modifies this
      ensures allowed == Admissible(old(attempts), SortKeys(rawKeys), policy, now)
      ensures attempts == TakeCommitted(old(attempts), SortKeys(rawKeys), succeeded, now, allowed)
      ensures allowed <==> forall key | key in rawKeys ::
                             CountSince(old(attempts), key, now - WINDOW, policy.countAll) < policy.maximum
      ensures Distinct(rawKeys) && (policy.countAll || !succeeded) ==>
                Recorded(old(attempts), attempts, rawKeys, policy, now, allowed)
    {
      var keys := SortKeys(rawKeys);
      attempts := WithoutExpired(attempts, now - RETENTION);
      ghost var cleaned := attempts;
      allowed := true;
      for i := 0 to |keys|
        invariant attempts == cleaned
        invariant allowed <==> Admissible(old(attempts), keys[..i], policy, now)
      {
        var count := CountSince(attempts, keys[i], now - WINDOW, policy.countAll);
        ExpiredAreNotCounted(old(attempts), keys[i], now - WINDOW, policy.countAll, now - RETENTION);
        assert keys[..i + 1] == keys[..i] + [keys[i]];
        AdmissibleOneMore(old(attempts), keys[..i], keys[i], policy, now);
        if count >= policy.maximum {
          allowed := false;
        }
      }
      assert keys[..|keys|] == keys;
      if allowed {
        InsertRows(keys, succeeded, now);
      }
      AdmissibleExactlyWhen(old(attempts), rawKeys, policy, now);
      assert attempts == TakeCommitted(old(attempts), SortKeys(rawKeys), succeeded, now, allowed);
      if Distinct(rawKeys) && (policy.countAll || !succeeded) {
        EachKeyIsRecorded(old(attempts), rawKeys, policy, succeeded, now, allowed);
      }
    }

    method InsertRows(keys: seq<Key>, succeeded: bool, now: int)
      modifies this
      ensures attempts == old(attempts) + Rows(keys, succeeded, now)
    {
      for i := 0 to |keys|
        invariant attempts == old(attempts) + Rows(keys[..i], succeeded, now)
      {
        attempts := attempts + [Attempt(keys[i], succeeded, now)];
        assert Rows(keys[..i + 1], succeeded, now)
          == Rows(keys[..i], succeeded, now) + [Attempt(keys[i], succeeded, now)];
      }
      assert keys[..|keys|] == keys;
    }

    /** `RecordSuccess` without others in between. */
    method RecordSuccessAlone(keys: seq<Key>)
      modifies this
      ensures attempts == WithoutKeys(old(attempts), keys)
      ensures forall a :: multiset(attempts)[a] == if a.key in keys then 0 else multiset(old(attempts))[a]
    {
      WithoutNoKeys(attempts);
      for i := 0 to |keys|
        invariant attempts == WithoutKeys(old(attempts), keys[..i])
      {
        attempts := WithoutKeys(attempts, [keys[i]]);
        WithoutMoreKeys(old(attempts), keys[..i], [keys[i]]);
        assert keys[..i + 1] == keys[..i] + [keys[i]];
      }
      assert keys[..|keys|] == keys;
      forall a ensures multiset(attempts)[a] == if a.key in keys then 0 else multiset(old(attempts))[a] {
        WithoutKeysHolds(old(attempts), keys, a);
      }
    }
  }

  ghost predicate Distinct(keys: seq<Key>) {
    forall i, j | 0 <= i < j < |keys| :: keys[i] != keys[j]
  }

  /** Clearing takes the rows of the keys and no others. */
  lemma {:induction false} WithoutKeysHolds(attempts: seq<Attempt>, keys: seq<Key>, a: Attempt)
    ensures multiset(WithoutKeys(attempts, keys))[a] == if a.key in keys then 0 else multiset(attempts)[a]
  {
    if attempts != [] {
      WithoutKeysHolds(attempts[1..], keys, a);
      assert attempts == [attempts[0]] + attempts[1..];
    }
  }

  /** Cleaning takes the rows made before the time and no others. */
  lemma {:induction false} WithoutExpiredHolds(attempts: seq<Attempt>, before: int, a: Attempt)
    ensures multiset(WithoutExpired(attempts, before))[a] == if a.at < before then 0 else multiset(attempts)[a]
  {
    if attempts != [] {
      WithoutExpiredHolds(attempts[1..], before, a);
      assert attempts == [attempts[0]] + attempts[1..];
    }
  }

  /** A count of a key is of its attempts from a time on, failed ones only unless all are counted. */
  lemma {:induction false} CountsAreOfTheKey(attempts: seq<Attempt>, key: Key, from: int, countAll: bool)
    ensures (forall a | a in attempts :: a.key == key && a.at >= from && (countAll || !a.succeeded)) ==>
              CountSince(attempts, key, from, countAll) == |attempts|
    ensures (forall a | a in attempts :: a.key != key || a.at < from || (!countAll && a.succeeded)) ==>
              CountSince(attempts, key, from, countAll) == 0
  {
    if attempts != [] { CountsAreOfTheKey(attempts[1..], key, from, countAll); }
  }

  lemma AdmissibleExactlyWhen(attempts: seq<Attempt>, rawKeys: seq<Key>, policy: Policy, now: int)
    ensures Admissible(attempts, SortKeys(rawKeys), policy, now)
       <==> forall key | key in rawKeys :: CountSince(attempts, key, now - WINDOW, policy.countAll) < policy.maximum
  {
    hide CountSince;
    var keys := SortKeys(rawKeys);
    SortedAreTheSame(rawKeys);
    forall i | 0 <= i < |keys| ensures keys[i] in rawKeys {}
    forall key | key in rawKeys ensures exists i :: 0 <= i < |keys| && keys[i] == key { assert key in keys; }
  }

  lemma {:induction false} SortedAreTheSame(keys: seq<Key>)
    ensures forall k :: k in SortKeys(keys) <==> k in keys
  {
    if keys != [] { SortedAreTheSame(keys[1..]); }
  }

  /** The counts after a take are those before, and one more for each of its keys if it was admitted. */
  ghost predicate Recorded(
    before: seq<Attempt>, after: seq<Attempt>, rawKeys: seq<Key>, policy: Policy, now: int, allowed: bool)
  {
    forall key :: KeyRecorded(before, after, rawKeys, policy, now, allowed, key)
  }

  predicate KeyRecorded(
    before: seq<Attempt>, after: seq<Attempt>, rawKeys: seq<Key>, policy: Policy, now: int, allowed: bool, key: Key)
  {
    CountSince(after, key, now - WINDOW, policy.countAll)
    == CountSince(before, key, now - WINDOW, policy.countAll) + if allowed && key in rawKeys then 1 else 0
  }

  lemma EachKeyIsRecorded(
    attempts: seq<Attempt>, rawKeys: seq<Key>, policy: Policy, succeeded: bool, now: int, allowed: bool)
    requires Distinct(rawKeys) && (policy.countAll || !succeeded)
    ensures Recorded(attempts, TakeCommitted(attempts, SortKeys(rawKeys), succeeded, now, allowed), rawKeys, policy,
            now,
                     allowed)
  {
    hide CountSince, TakeCommitted, Increasing, Distinct, SortKeys;
    SortedKeysIncrease(rawKeys);
    SortedAreTheSame(rawKeys);
    var keys := SortKeys(rawKeys);
    var after := TakeCommitted(attempts, keys, succeeded, now, allowed);
    forall key ensures KeyRecorded(attempts, after, rawKeys, policy, now, allowed, key) {
      TakeIsRecorded(attempts, keys, policy, succeeded, now, allowed, key);
    }
  }

  /** An admitted take adds one to the count of each of its keys, and a refused one or another key nothing. */
  lemma TakeIsRecorded(
    attempts: seq<Attempt>, keys: seq<Key>, policy: Policy, succeeded: bool, now: int, allowed: bool, key: Key)
    requires Increasing(keys) && (policy.countAll || !succeeded)
    ensures CountSince(TakeCommitted(attempts, keys, succeeded, now, allowed), key, now - WINDOW, policy.countAll)
         == CountSince(attempts, key, now - WINDOW, policy.countAll) + if allowed && key in keys then 1 else 0
  {
    hide CountSince, WithoutExpired, Rows, Increasing;
    var kept := WithoutExpired(attempts, now - RETENTION);
    ExpiredAreNotCounted(attempts, key, now - WINDOW, policy.countAll, now - RETENTION);
    if allowed {
      CountsAdd(kept, Rows(keys, succeeded, now), key, now - WINDOW, now, policy.countAll);
      NewRowsCount(keys, succeeded, now, key, now - WINDOW, now, policy.countAll);
    } else {
      assert kept + [] == kept;
    }
  }

  lemma AdmissibleOneMore(attempts: seq<Attempt>, keys: seq<Key>, key: Key, policy: Policy, now: int)
    ensures Admissible(attempts, keys + [key], policy, now)
       <==> Admissible(attempts, keys, policy, now)
            && CountSince(attempts, key, now - WINDOW, policy.countAll) < policy.maximum
  {
    var more := keys + [key];
    assert more[|keys|] == key;
    assert forall i | 0 <= i < |keys| :: more[i] == keys[i];
  }

  lemma {:induction false} ExpiredAreNotCounted(
    attempts: seq<Attempt>, key: Key, from: int, countAll: bool, before: int)
    requires before <= from
    ensures CountSince(WithoutExpired(attempts, before), key, from, countAll)
            == CountSince(attempts, key, from, countAll)
  {
    if attempts != [] {
      ExpiredAreNotCounted(attempts[1..], key, from, countAll, before);
      var rest := WithoutExpired(attempts[1..], before);
      assert ([attempts[0]] + rest)[1..] == rest;
    }
  }

  lemma {:induction false} WithoutNoKeys(attempts: seq<Attempt>)
    ensures WithoutKeys(attempts, []) == attempts
  {
    if attempts != [] { WithoutNoKeys(attempts[1..]); }
  }

  lemma {:induction false} WithoutMoreKeys(attempts: seq<Attempt>, keys: seq<Key>, more: seq<Key>)
    ensures WithoutKeys(WithoutKeys(attempts, keys), more) == WithoutKeys(attempts, keys + more)
  {
    if attempts != [] {
      WithoutMoreKeys(attempts[1..], keys, more);
      var rest := WithoutKeys(attempts[1..], keys);
      assert ([attempts[0]] + rest)[1..] == rest;
      assert attempts[0].key in keys + more <==> attempts[0].key in keys || attempts[0].key in more;
    }
  }

  // ---- stored rows ------------------------------------------------------------------------------------------------

  /** A stored attempt, and the unfinished transaction that has deleted it, if any. */
  datatype Row = Row(attempt: Attempt, deleter: Option<nat>)

  /** The condition of a deletion. */
  type Condition = Attempt -> bool

  function OfKey(key: Key): Condition {
    (attempt: Attempt) => attempt.key == key
  }

  function ExpiredBefore(before: int): Condition {
    (attempt: Attempt) => attempt.at < before
  }

  function Stored(attempts: seq<Attempt>): seq<Row> {
    if attempts == [] then [] else [Row(attempts[0], None)] + Stored(attempts[1..])
  }

  function Attempts(rows: seq<Row>): seq<Attempt> {
    if rows == [] then [] else [rows[0].attempt] + Attempts(rows[1..])
  }

  /** What a transaction sees: the rows it has not deleted, whoever else has. */
  function Seen(rows: seq<Row>, p: nat): seq<Attempt> {
    if rows == [] then []
    else if rows[0].deleter == Some(p) then Seen(rows[1..], p)
    else [rows[0].attempt] + Seen(rows[1..], p)
  }

  /** What a transaction leaves of the rows when it commits. */
  function Kept(rows: seq<Row>, p: nat): seq<Row> {
    if rows == [] then []
    else if rows[0].deleter == Some(p) then Kept(rows[1..], p)
    else [rows[0]] + Kept(rows[1..], p)
  }

  function DeletedRow(row: Row, p: nat, condition: Condition): Row {
    if condition(row.attempt) && row.deleter.None? then row.(deleter := Some(p)) else row
  }

  function Deleted(rows: seq<Row>, p: nat, condition: Condition): (deleted: seq<Row>)
    ensures |deleted| == |rows|
  {
    if rows == [] then [] else [DeletedRow(rows[0], p, condition)] + Deleted(rows[1..], p, condition)
  }

  /** The deletion meets a row that another transaction has deleted. */
  predicate Meets(rows: seq<Row>, p: nat, condition: Condition) {
    exists r | r in rows :: condition(r.attempt) && r.deleter.Some? && r.deleter.value != p
  }

  // ---- processes --------------------------------------------------------------------------------------------------

  datatype Phase =
    | Locking(taken: nat)
    | Clearing(taken: nat)
    | Cleaning(now: int)
    | Counting(now: int, counted: nat, allowed: bool)
    | Finished

  datatype Process = Process(task: Task, phase: Phase)

  datatype System = System(rows: seq<Row>, holders: map<Lock, nat>, processes: seq<Process>)

  function Released(holders: map<Lock, nat>, p: nat): map<Lock, nat> {
    map l | l in holders && holders[l] != p :: holders[l]
  }

  function LocksTaken(process: Process): nat {
    match process.phase
    case Locking(taken) => taken
    case Clearing(taken) => taken + 1
    case Cleaning(_) => |process.task.keys|
    case Counting(_, _, _) => |process.task.keys|
    case Finished => 0
  }

  /** It waits for an advisory lock; the locks of a transaction are its own to take again. */
  predicate AwaitsLock(s: System, p: nat, lockOf: Key -> Lock)
    requires p < |s.processes|
  {
    var process := s.processes[p];
    && process.phase.Locking? && process.phase.taken < |process.task.keys|
    && lockOf(process.task.keys[process.phase.taken]) in s.holders
    && s.holders[lockOf(process.task.keys[process.phase.taken])] != p
  }

  /** It waits for a row. */
  predicate AwaitsRow(s: System, p: nat)
    requires p < |s.processes|
  {
    var process := s.processes[p];
    match process.phase
    case Clearing(taken) => taken < |process.task.keys| && Meets(s.rows, p, OfKey(process.task.keys[taken]))
    case Cleaning(now) => Meets(s.rows, p, ExpiredBefore(now - RETENTION))
    case _ => false
  }

  predicate Blocked(s: System, p: nat, lockOf: Key -> Lock)
    requires p < |s.processes|
  {
    AwaitsLock(s, p, lockOf) || AwaitsRow(s, p)
  }

  /** The system after a process has moved on to another phase. */
  function Moved(s: System, p: nat, phase: Phase): System
    requires p < |s.processes|
  {
    s.(processes := s.processes[p := s.processes[p].(phase := phase)])
  }

  /** The system after a process has taken a lock. */
  function Acquired(s: System, p: nat, lock: Lock, phase: Phase): System
    requires p < |s.processes|
  {
    Moved(s, p, phase).(holders := s.holders[lock := p])
  }

  /** The system after a process has deleted the rows of a condition. */
  function Erased(s: System, p: nat, condition: Condition, phase: Phase): System
    requires p < |s.processes|
  {
    Moved(s, p, phase).(rows := Deleted(s.rows, p, condition))
  }

  /** The system after a process has committed, with the rows it has inserted. */
  function Committed(s: System, p: nat, inserted: seq<Attempt>): System
    requires p < |s.processes|
  {
    Moved(s, p, Finished).(rows := Kept(s.rows, p) + Stored(inserted), holders := Released(s.holders, p))
  }

  function PolicyOfTask(task: Task): Policy {
    if task.Take? then task.policy else Policy(0, false)
  }

  /** The count of one key, and whether it leaves room. */
  function Below(s: System, p: nat, key: Key, now: int, policy: Policy): bool {
    CountSince(Seen(s.rows, p), key, now - WINDOW, policy.countAll) < policy.maximum
  }

  /** The attempts that a process inserts. */
  function InsertedBy(task: Task, now: int, allowed: bool): seq<Attempt> {
    if task.Take? && allowed then Rows(task.keys, task.succeeded, now) else []
  }

  /** A process takes its next lock. */
  function LockTaken(s: System, p: nat, lockOf: Key -> Lock): System
    requires p < |s.processes| && s.processes[p].phase.Locking?
             && s.processes[p].phase.taken < |s.processes[p].task.keys|
  {
    var Process(task, Locking(taken)) := s.processes[p];
    Acquired(s, p, lockOf(task.keys[taken]), if task.Take? then Locking(taken + 1) else Clearing(taken))
  }

  /** The step of a process that does not wait; `now` is what the clock shows if the step reads it. */
  function Stepped(s: System, p: nat, now: int, lockOf: Key -> Lock): System
    requires p < |s.processes|
  {
    var task, keys := s.processes[p].task, s.processes[p].task.keys;
    match s.processes[p].phase
    case Locking(taken) =>
      if taken < |keys| then LockTaken(s, p, lockOf)
      else if task.Take? then Moved(s, p, Cleaning(now))
      else Committed(s, p, [])
    case Clearing(taken) =>
      if taken < |keys| then Erased(s, p, OfKey(keys[taken]), Locking(taken + 1)) else s
    case Cleaning(at) => Erased(s, p, ExpiredBefore(at - RETENTION), Counting(at, 0, true))
    case Counting(at, counted, allowed) =>
      if counted < |keys| then
        Moved(s, p, Counting(at, counted + 1, allowed && Below(s, p, keys[counted], at, PolicyOfTask(task))))
      else Committed(s, p, InsertedBy(task, at, allowed))
    case Finished => s
  }

  /** One step of one process, which may be to wait. */
  function Advanced(s: System, p: nat, now: int, lockOf: Key -> Lock): System
    requires p < |s.processes|
  {
    if Blocked(s, p, lockOf) then s else Stepped(s, p, now, lockOf)
  }

  // ---- the invariant ----------------------------------------------------------------------------------------------

  /**
   What the sorting and the callers guarantee: there are keys, and they are increasing, a
   key is always used with the same policy, and what a policy does not count is not inserted.
   */
  ghost predicate ValidTask(task: Task, policyOf: Key -> Policy) {
    && task.keys != [] && Increasing(task.keys)
    && (task.Take? ==>
          (task.policy.countAll || !task.succeeded) && forall k | k in task.keys :: policyOf(k) == task.policy)
  }

  ghost predicate ValidPhase(process: Process) {
    match process.phase
    case Locking(taken) => taken <= |process.task.keys|
    case Clearing(taken) => process.task.RecordSuccess? && taken < |process.task.keys|
    case Cleaning(_) => process.task.Take?
    case Counting(_, counted, _) => process.task.Take? && counted <= |process.task.keys|
    case Finished => true
  }

  ghost predicate ValidPhases(processes: seq<Process>, policyOf: Key -> Policy) {
    forall p | 0 <= p < |processes| :: ValidTask(processes[p].task, policyOf) && ValidPhase(processes[p])
  }

  predicate Holds(process: Process, lock: Lock, lockOf: Key -> Lock) {
    exists i | 0 <= i < LocksTaken(process) :: i < |process.task.keys| && lockOf(process.task.keys[i]) == lock
  }

  /** The lock table says who has taken which lock. */
  ghost predicate ValidLocks(s: System, lockOf: Key -> Lock) {
    && (forall p, i | 0 <= p < |s.processes| && 0 <= i < LocksTaken(s.processes[p]) && i < |s.processes[p].task.keys| ::
          lockOf(s.processes[p].task.keys[i]) in s.holders && s.holders[lockOf(s.processes[p].task.keys[i])] == p)
    && (forall l | l in s.holders :: s.holders[l] < |s.processes| && Holds(s.processes[s.holders[l]], l, lockOf))
  }

  /** Only a transaction that holds a lock has deleted rows. */
  ghost predicate ValidRows(s: System) {
    forall r | r in s.rows && r.deleter.Some? ::
      r.deleter.value < |s.processes| && LocksTaken(s.processes[r.deleter.value]) > 0
  }

  /** What a process has counted of a key still holds. */
  ghost predicate CountStands(attempts: seq<Attempt>, process: Process, i: nat, policyOf: Key -> Policy) {
    process.phase.Counting? && process.phase.allowed && i < process.phase.counted && i < |process.task.keys| ==>
      var key := process.task.keys[i];
      CountSince(attempts, key, process.phase.now - WINDOW, policyOf(key).countAll) < policyOf(key).maximum
  }

  ghost predicate AllStand(attempts: seq<Attempt>, process: Process, policyOf: Key -> Policy) {
    forall i: nat :: CountStands(attempts, process, i, policyOf)
  }

  /** Nobody else may add attempts of the keys a process has counted. */
  ghost predicate CountsStand(s: System, policyOf: Key -> Policy) {
    forall p: nat, i: nat | p < |s.processes| :: CountStands(Seen(s.rows, p), s.processes[p], i, policyOf)
  }

  ghost predicate RowsCounted(attempts: seq<Attempt>, policyOf: Key -> Policy) {
    forall a | a in attempts :: policyOf(a.key).countAll || !a.succeeded
  }

  /** No key has more uncleared attempts than its maximum in any interval as long as the window, ends included. */
  ghost predicate WithinLimits(attempts: seq<Attempt>, policyOf: Key -> Policy) {
    forall key: Key, t: int :: InWindow(attempts, key, t) <= policyOf(key).maximum
  }

  ghost predicate Valid(s: System, lockOf: Key -> Lock, policyOf: Key -> Policy) {
    && ValidPhases(s.processes, policyOf) && ValidLocks(s, lockOf) && ValidRows(s) && CountsStand(s, policyOf)
    && RowsCounted(Attempts(s.rows), policyOf) && WithinLimits(Attempts(s.rows), policyOf)
  }

  // ---- rows under deletions and commits ---------------------------------------------------------------------------

  function SeenOf(row: Row, p: nat): seq<Attempt> {
    if row.deleter == Some(p) then [] else [row.attempt]
  }

  lemma SeenFirst(row: Row, rest: seq<Row>, p: nat)
    ensures Seen([row] + rest, p) == SeenOf(row, p) + Seen(rest, p)
  {
    assert ([row] + rest)[1..] == rest;
  }

  lemma Associate(a: seq<Attempt>, b: seq<Attempt>, c: seq<Attempt>)
    ensures a + (b + c) == (a + b) + c
  {
  }

  lemma {:induction false} SeenAdds(one: seq<Row>, other: seq<Row>, p: nat)
    ensures Seen(one + other, p) == Seen(one, p) + Seen(other, p)
  {
    if one == [] {
      assert one + other == other;
    } else {
      hide Seen;
      var rest := one[1..];
      SeenAdds(rest, other, p);
      SeenFirst(one[0], rest, p);
      SeenFirst(one[0], rest + other, p);
      assert [one[0]] + rest == one;
      assert [one[0]] + (rest + other) == one + other;
      Associate(SeenOf(one[0], p), Seen(rest, p), Seen(other, p));
    }
  }

  lemma AttemptsFirst(row: Row, rest: seq<Row>)
    ensures Attempts([row] + rest) == [row.attempt] + Attempts(rest)
  {
    assert ([row] + rest)[1..] == rest;
  }

  lemma {:induction false} AttemptsAdd(one: seq<Row>, other: seq<Row>)
    ensures Attempts(one + other) == Attempts(one) + Attempts(other)
  {
    if one == [] {
      assert one + other == other;
    } else {
      hide Attempts;
      var rest := one[1..];
      AttemptsAdd(rest, other);
      AttemptsFirst(one[0], rest);
      AttemptsFirst(one[0], rest + other);
      assert [one[0]] + rest == one;
      assert [one[0]] + (rest + other) == one + other;
      Associate([one[0].attempt], Attempts(rest), Attempts(other));
    }
  }

  lemma {:induction false} StoredIsSeen(attempts: seq<Attempt>, p: nat)
    ensures Seen(Stored(attempts), p) == attempts
    ensures Attempts(Stored(attempts)) == attempts
    ensures forall r | r in Stored(attempts) :: r.deleter.None? && r.attempt in attempts
  {
    if attempts != [] {
      hide Seen, Attempts;
      var rest := attempts[1..];
      StoredIsSeen(rest, p);
      SeenFirst(Row(attempts[0], None), Stored(rest), p);
      AttemptsFirst(Row(attempts[0], None), Stored(rest));
      assert [attempts[0]] + rest == attempts;
    }
  }

  lemma {:induction false} KeptRows(rows: seq<Row>, p: nat)
    ensures Attempts(Kept(rows, p)) == Seen(rows, p)
    ensures forall r | r in Kept(rows, p) :: r in rows && r.deleter != Some(p)
  {
    if rows != [] {
      KeptRows(rows[1..], p);
      var rest := Kept(rows[1..], p);
      assert ([rows[0]] + rest)[1..] == rest;
    }
  }

  /** Commits and deletions only take from what is counted. */
  lemma {:induction false} SeenCountsNoMore(rows: seq<Row>, p: nat, key: Key, lo: int, hi: int)
    ensures CountIn(Seen(rows, p), key, lo, hi) <= CountIn(Attempts(rows), key, lo, hi)
    ensures forall a | a in Seen(rows, p) :: a in Attempts(rows)
  {
    if rows != [] {
      SeenCountsNoMore(rows[1..], p, key, lo, hi);
      var rest := Seen(rows[1..], p);
      assert ([rows[0].attempt] + rest)[1..] == rest;
      assert Attempts(rows)[1..] == Attempts(rows[1..]);
    }
  }

  lemma {:induction false} KeptSeenCountsNoMore(rows: seq<Row>, p: nat, q: nat, key: Key, from: int, countAll: bool)
    ensures CountSince(Seen(Kept(rows, p), q), key, from, countAll) <= CountSince(Seen(rows, q), key, from, countAll)
  {
    if rows != [] {
      KeptSeenCountsNoMore(rows[1..], p, q, key, from, countAll);
      var kept, seen, left := Kept(rows[1..], p), Seen(rows[1..], q), Seen(Kept(rows[1..], p), q);
      assert ([rows[0]] + kept)[1..] == kept;
      assert ([rows[0].attempt] + seen)[1..] == seen;
      assert ([rows[0].attempt] + left)[1..] == left;
    }
  }

  /** A deletion changes what the deleting transaction sees, and nothing for the others. */
  lemma {:induction false} DeletedRows(rows: seq<Row>, p: nat, q: nat, condition: Condition)
    ensures Attempts(Deleted(rows, p, condition)) == Attempts(rows)
    ensures p != q ==> Seen(Deleted(rows, p, condition), q) == Seen(rows, q)
    ensures forall r | r in Deleted(rows, p, condition) ::
              r in rows || (r.(deleter := None) in rows && condition(r.attempt) && r.deleter == Some(p))
  {
    if rows != [] {
      DeletedRows(rows[1..], p, q, condition);
      var rest := Deleted(rows[1..], p, condition);
      assert ([DeletedRow(rows[0], p, condition)] + rest)[1..] == rest;
      forall r | r in Deleted(rows, p, condition)
        ensures r in rows || (r.(deleter := None) in rows && condition(r.attempt) && r.deleter == Some(p))
      {
        if r in rest {
          assert r in rows[1..] ==> r in rows;
          assert r.(deleter := None) in rows[1..] ==> r.(deleter := None) in rows;
        } else {
          assert rows[0].deleter.None? ==> rows[0].(deleter := None) == rows[0];
        }
      }
    }
  }

  lemma {:induction false} NothingToDelete(rows: seq<Row>, p: nat, condition: Condition)
    requires forall r | r in rows :: !condition(r.attempt)
    ensures Deleted(rows, p, condition) == rows
  {
    if rows != [] { NothingToDelete(rows[1..], p, condition); }
  }

  // ---- counting ---------------------------------------------------------------------------------------------------

  lemma {:induction false} CountsAdd(one: seq<Attempt>, other: seq<Attempt>, key: Key, lo: int, hi: int, countAll: bool)
    ensures CountIn(one + other, key, lo, hi) == CountIn(one, key, lo, hi) + CountIn(other, key, lo, hi)
    ensures CountSince(one + other, key, lo, countAll)
            == CountSince(one, key, lo, countAll) + CountSince(other, key, lo, countAll)
  {
    if one == [] {
      assert one + other == other;
    } else {
      CountsAdd(one[1..], other, key, lo, hi, countAll);
      assert (one + other)[1..] == one[1..] + other;
    }
  }

  /** New rows hold each of their keys once. */
  lemma {:induction false} NewRowsCount(
    keys: seq<Key>, succeeded: bool, at: int, key: Key, lo: int, hi: int, countAll: bool)
    requires Increasing(keys)
    ensures CountIn(Rows(keys, succeeded, at), key, lo, hi) == if key in keys && lo <= at <= hi then 1 else 0
    ensures CountSince(Rows(keys, succeeded, at), key, lo, countAll)
         == if key in keys && at >= lo && (countAll || !succeeded) then 1 else 0
  {
    if keys != [] {
      NewRowsCount(keys[1..], succeeded, at, key, lo, hi, countAll);
      assert Rows(keys, succeeded, at)[1..] == Rows(keys[1..], succeeded, at);
      assert key in keys <==> key == keys[0] || key in keys[1..];
    }
  }

  /** When all rows of a key are counted, an interval holds no more of them than have been made since it began. */
  lemma {:induction false} IntervalIsCounted(
    attempts: seq<Attempt>, key: Key, lo: int, hi: int, from: int, policyOf: Key -> Policy)
    requires RowsCounted(attempts, policyOf) && from <= lo
    ensures CountIn(attempts, key, lo, hi) <= CountSince(attempts, key, from, policyOf(key).countAll)
  {
    if attempts != [] { IntervalIsCounted(attempts[1..], key, lo, hi, from, policyOf); }
  }

  /** An admitted transaction leaves every key within its limit. */
  lemma AdmissionStaysWithinLimits(
    attempts: seq<Attempt>, keys: seq<Key>, succeeded: bool, now: int, policyOf: Key -> Policy)
    requires RowsCounted(attempts, policyOf) && WithinLimits(attempts, policyOf) && Increasing(keys)
    requires forall i | 0 <= i < |keys| ::
               CountSince(attempts, keys[i], now - WINDOW, policyOf(keys[i]).countAll) < policyOf(keys[i]).maximum
    ensures WithinLimits(attempts + Rows(keys, succeeded, now), policyOf)
  {
    hide RowsCounted, CountIn, CountSince, Rows, Increasing;
    var rows := Rows(keys, succeeded, now);
    forall key: Key, t: int ensures InWindow(attempts + rows, key, t) <= policyOf(key).maximum {
      CountsAdd(attempts, rows, key, t, t + WINDOW, true);
      NewRowsCount(keys, succeeded, now, key, t, t + WINDOW, true);
      assert InWindow(attempts, key, t) <= policyOf(key).maximum;
      if key in keys && t <= now <= t + WINDOW {
        var i :| 0 <= i < |keys| && keys[i] == key;
        IntervalIsCounted(attempts, key, t, t + WINDOW, now - WINDOW, policyOf);
      }
    }
  }

  // ---- what every step keeps --------------------------------------------------------------------------------------

  lemma MovingKeepsPhases(s: System, p: nat, phase: Phase, policyOf: Key -> Policy)
    requires ValidPhases(s.processes, policyOf) && p < |s.processes| && ValidPhase(s.processes[p].(phase := phase))
    ensures ValidPhases(Moved(s, p, phase).processes, policyOf)
  {
    hide ValidTask, ValidPhase;
  }

  /** A lock that is still held is held as before. */
  lemma StillHolds(process: Process, phase: Phase, lock: Lock, lockOf: Key -> Lock)
    requires Holds(process, lock, lockOf) && LocksTaken(process) <= LocksTaken(process.(phase := phase))
    ensures Holds(process.(phase := phase), lock, lockOf)
  {
    hide LocksTaken;
    var i :| 0 <= i < LocksTaken(process) && i < |process.task.keys| && lockOf(process.task.keys[i]) == lock;
    assert lockOf(process.(phase := phase).task.keys[i]) == lock;
  }

  lemma MovingKeepsLocks(s: System, p: nat, phase: Phase, lockOf: Key -> Lock)
    requires ValidLocks(s, lockOf) && p < |s.processes|
    requires LocksTaken(s.processes[p].(phase := phase)) == LocksTaken(s.processes[p])
    ensures ValidLocks(Moved(s, p, phase), lockOf)
  {
    hide Holds, LocksTaken;
    var t := Moved(s, p, phase);
    forall l | l in t.holders ensures t.holders[l] < |t.processes| && Holds(t.processes[t.holders[l]], l, lockOf) {
      if s.holders[l] == p { StillHolds(s.processes[p], phase, l, lockOf); }
    }
  }

  lemma AcquiringKeepsLocks(s: System, p: nat, i: nat, phase: Phase, lockOf: Key -> Lock)
    requires ValidLocks(s, lockOf) && p < |s.processes| && i < |s.processes[p].task.keys|
    requires LocksTaken(s.processes[p]) == i && LocksTaken(s.processes[p].(phase := phase)) == i + 1
    requires lockOf(s.processes[p].task.keys[i]) in s.holders ==> s.holders[lockOf(s.processes[p].task.keys[i])] == p
    ensures ValidLocks(Acquired(s, p, lockOf(s.processes[p].task.keys[i]), phase), lockOf)
  {
    hide LocksTaken;
    var lock := lockOf(s.processes[p].task.keys[i]);
    var t := Acquired(s, p, lock, phase);
    forall l | l in t.holders ensures t.holders[l] < |t.processes| && Holds(t.processes[t.holders[l]], l, lockOf) {
      if l == lock {
        assert lockOf(t.processes[p].task.keys[i]) == l;
      } else if s.holders[l] == p {
        StillHolds(s.processes[p], phase, l, lockOf);
      }
    }
  }

  lemma ReleasingKeepsLocks(s: System, p: nat, inserted: seq<Attempt>, lockOf: Key -> Lock)
    requires ValidLocks(s, lockOf) && p < |s.processes|
    ensures ValidLocks(Committed(s, p, inserted), lockOf)
  {
    hide Holds, Kept, Stored;
    var t := Committed(s, p, inserted);
    assert forall q | 0 <= q < |t.processes| && q != p :: t.processes[q] == s.processes[q];
  }

  lemma SameRowsStayValid(s: System, p: nat, phase: Phase)
    requires ValidRows(s) && p < |s.processes|
             && LocksTaken(s.processes[p]) <= LocksTaken(s.processes[p].(phase := phase))
    ensures ValidRows(Moved(s, p, phase))
  {
    hide LocksTaken;
  }

  lemma DeletedRowsStayValid(s: System, p: nat, condition: Condition, phase: Phase)
    requires ValidRows(s) && p < |s.processes|
             && LocksTaken(s.processes[p]) == LocksTaken(s.processes[p].(phase := phase)) > 0
    ensures ValidRows(Erased(s, p, condition, phase))
  {
    hide LocksTaken, Deleted;
    DeletedRows(s.rows, p, p, condition);
  }

  lemma KeptRowsStayValid(s: System, p: nat, inserted: seq<Attempt>)
    requires ValidRows(s) && p < |s.processes|
    ensures ValidRows(Committed(s, p, inserted))
  {
    hide LocksTaken, Kept, Stored;
    KeptRows(s.rows, p);
    StoredIsSeen(inserted, p);
  }

  /** Two processes never hold the same key. */
  lemma KeysExclude(s: System, p: nat, q: nat, key: Key, lockOf: Key -> Lock)
    requires ValidLocks(s, lockOf) && p < |s.processes| && q < |s.processes| && p != q
    requires LocksTaken(s.processes[p]) == |s.processes[p].task.keys|
             && LocksTaken(s.processes[q]) == |s.processes[q].task.keys|
    requires key in s.processes[p].task.keys
    ensures key !in s.processes[q].task.keys
  {
    hide Holds, LocksTaken;
    var i :| 0 <= i < |s.processes[p].task.keys| && s.processes[p].task.keys[i] == key;
    assert s.holders[lockOf(key)] == p;
  }

  /** Moving on leaves the counts, and those of the process itself stand if they do in its new phase. */
  lemma MovingKeepsCounts(s: System, p: nat, phase: Phase, policyOf: Key -> Policy)
    requires CountsStand(s, policyOf) && p < |s.processes|
    requires AllStand(Seen(s.rows, p), s.processes[p].(phase := phase), policyOf)
    ensures CountsStand(Moved(s, p, phase), policyOf)
  {
    hide CountStands, Seen;
  }

  lemma DeletingKeepsCounts(s: System, p: nat, condition: Condition, phase: Phase, policyOf: Key -> Policy)
    requires CountsStand(s, policyOf) && p < |s.processes| && (phase.Counting? ==> phase.counted == 0)
    ensures CountsStand(Erased(s, p, condition, phase), policyOf)
  {
    hide Seen, Deleted, CountSince;
    var t := Erased(s, p, condition, phase);
    forall q: nat, i: nat | q < |t.processes| ensures CountStands(Seen(t.rows, q), t.processes[q], i, policyOf) {
      DeletedRows(s.rows, p, q, condition);
      assert CountStands(Seen(s.rows, q), s.processes[q], i, policyOf);
    }
  }

  /** A commit adds no attempt of a key that is not its own. */
  ghost predicate OnlyOf(inserted: seq<Attempt>, keys: seq<Key>) {
    forall key: Key, from: int, countAll: bool | key !in keys :: CountSince(inserted, key, from, countAll) == 0
  }

  /** A commit changes no count that another process relies on. */
  lemma CommitLeavesOtherCounts(
    s: System, p: nat, inserted: seq<Attempt>, q: nat, i: nat, lockOf: Key -> Lock, policyOf: Key -> Policy)
    requires ValidLocks(s, lockOf) && p < |s.processes| && q < |s.processes| && p != q
    requires CountStands(Seen(s.rows, q), s.processes[q], i, policyOf) && OnlyOf(inserted, s.processes[p].task.keys)
    requires LocksTaken(s.processes[p]) == |s.processes[p].task.keys|
    ensures CountStands(Seen(Kept(s.rows, p) + Stored(inserted), q), s.processes[q], i, policyOf)
  {
    hide ValidLocks, Seen, Kept, Stored, CountSince;
    var process := s.processes[q];
    if process.phase.Counting? && i < |process.task.keys| {
      var key, from := process.task.keys[i], process.phase.now - WINDOW;
      var countAll := policyOf(key).countAll;
      KeysExclude(s, q, p, key, lockOf);
      SeenAdds(Kept(s.rows, p), Stored(inserted), q);
      StoredIsSeen(inserted, q);
      KeptSeenCountsNoMore(s.rows, p, q, key, from, countAll);
      CountsAdd(Seen(Kept(s.rows, p), q), inserted, key, from, from, countAll);
    }
  }

  lemma CommitKeepsCounts(s: System, p: nat, inserted: seq<Attempt>, lockOf: Key -> Lock, policyOf: Key -> Policy)
    requires ValidLocks(s, lockOf) && CountsStand(s, policyOf) && p < |s.processes|
    requires LocksTaken(s.processes[p]) == |s.processes[p].task.keys| && OnlyOf(inserted, s.processes[p].task.keys)
    ensures CountsStand(Committed(s, p, inserted), policyOf)
  {
    hide ValidLocks, Seen, Kept, Stored, CountSince, OnlyOf, LocksTaken;
    var t := Committed(s, p, inserted);
    forall q: nat, i: nat | q < |t.processes| ensures CountStands(Seen(t.rows, q), t.processes[q], i, policyOf) {
      if q != p {
        assert CountStands(Seen(s.rows, q), s.processes[q], i, policyOf);
        CommitLeavesOtherCounts(s, p, inserted, q, i, lockOf, policyOf);
      }
    }
  }

  /** What is left of the rows, before anything is inserted. */
  lemma SeenIsWithinLimits(rows: seq<Row>, p: nat, policyOf: Key -> Policy)
    requires RowsCounted(Attempts(rows), policyOf) && WithinLimits(Attempts(rows), policyOf)
    ensures RowsCounted(Seen(rows, p), policyOf) && WithinLimits(Seen(rows, p), policyOf)
  {
    hide Seen, Attempts, CountIn;
    forall key: Key, t: int ensures InWindow(Seen(rows, p), key, t) <= policyOf(key).maximum {
      SeenCountsNoMore(rows, p, key, t, t + WINDOW);
      assert InWindow(Attempts(rows), key, t) <= policyOf(key).maximum;
    }
    forall a | a in Seen(rows, p) ensures policyOf(a.key).countAll
      || !a.succeeded { SeenCountsNoMore(rows, p, 0, 0, 0); }
  }

  lemma CommitValid(s: System, p: nat, inserted: seq<Attempt>, lockOf: Key -> Lock, policyOf: Key -> Policy)
    requires Valid(s, lockOf, policyOf) && p < |s.processes|
    requires LocksTaken(s.processes[p]) == |s.processes[p].task.keys| && OnlyOf(inserted, s.processes[p].task.keys)
    requires RowsCounted(inserted, policyOf) && WithinLimits(Seen(s.rows, p) + inserted, policyOf)
    ensures Valid(Committed(s, p, inserted), lockOf, policyOf)
  {
    hide ValidPhases, ValidLocks, ValidRows, CountsStand, WithinLimits, OnlyOf, LocksTaken, Seen, Attempts, Kept,
      Stored;
    CommittedPhases(s, p, inserted, policyOf);
    ReleasingKeepsLocks(s, p, inserted, lockOf);
    KeptRowsStayValid(s, p, inserted);
    CommitKeepsCounts(s, p, inserted, lockOf, policyOf);
    SeenIsWithinLimits(s.rows, p, policyOf);
    AttemptsAdd(Kept(s.rows, p), Stored(inserted));
    KeptRows(s.rows, p);
    StoredIsSeen(inserted, p);
  }

  lemma CommittedPhases(s: System, p: nat, inserted: seq<Attempt>, policyOf: Key -> Policy)
    requires ValidPhases(s.processes, policyOf) && p < |s.processes|
    ensures ValidPhases(Committed(s, p, inserted).processes, policyOf)
  {
    hide Kept, Stored;
    MovingKeepsPhases(s, p, Finished, policyOf);
  }

  lemma ErasedValid(s: System, p: nat, condition: Condition, phase: Phase, lockOf: Key -> Lock, policyOf: Key -> Policy)
    requires Valid(s, lockOf, policyOf) && p < |s.processes|
    requires LocksTaken(s.processes[p]) == LocksTaken(s.processes[p].(phase := phase)) > 0
    requires ValidPhase(s.processes[p].(phase := phase)) && (phase.Counting? ==> phase.counted == 0)
    ensures Valid(Erased(s, p, condition, phase), lockOf, policyOf)
  {
    hide ValidPhases, ValidLocks, ValidRows, ValidPhase, CountsStand, WithinLimits, RowsCounted, LocksTaken, Deleted,
      Attempts;
    MovingKeepsPhases(s, p, phase, policyOf);
    MovingKeepsLocks(s, p, phase, lockOf);
    LocksIgnoreRows(Moved(s, p, phase), Deleted(s.rows, p, condition), lockOf);
    DeletedRowsStayValid(s, p, condition, phase);
    DeletingKeepsCounts(s, p, condition, phase, policyOf);
    DeletedRows(s.rows, p, p, condition);
  }

  lemma LocksIgnoreRows(s: System, rows: seq<Row>, lockOf: Key -> Lock)
    requires ValidLocks(s, lockOf)
    ensures ValidLocks(s.(rows := rows), lockOf)
  {
    hide Holds, LocksTaken;
  }

  lemma MovedValid(s: System, p: nat, phase: Phase, lockOf: Key -> Lock, policyOf: Key -> Policy)
    requires Valid(s, lockOf, policyOf) && p < |s.processes|
    requires LocksTaken(s.processes[p]) == LocksTaken(s.processes[p].(phase := phase))
    requires ValidPhase(s.processes[p].(phase := phase))
    requires AllStand(Seen(s.rows, p), s.processes[p].(phase := phase), policyOf)
    ensures Valid(Moved(s, p, phase), lockOf, policyOf)
  {
    hide ValidPhases, ValidLocks, ValidRows, ValidPhase, CountsStand, WithinLimits, RowsCounted, LocksTaken, Attempts;
    hide AllStand, Seen;
    MovingKeepsPhases(s, p, phase, policyOf);
    MovingKeepsLocks(s, p, phase, lockOf);
    SameRowsStayValid(s, p, phase);
    MovingKeepsCounts(s, p, phase, policyOf);
  }

  lemma AcquiredValid(s: System, p: nat, i: nat, phase: Phase, lockOf: Key -> Lock, policyOf: Key -> Policy)
    requires Valid(s, lockOf, policyOf) && p < |s.processes| && i < |s.processes[p].task.keys|
    requires LocksTaken(s.processes[p]) == i && LocksTaken(s.processes[p].(phase := phase)) == i + 1
    requires lockOf(s.processes[p].task.keys[i]) in s.holders ==> s.holders[lockOf(s.processes[p].task.keys[i])] == p
    requires ValidPhase(s.processes[p].(phase := phase)) && !phase.Counting?
    ensures Valid(Acquired(s, p, lockOf(s.processes[p].task.keys[i]), phase), lockOf, policyOf)
  {
    hide ValidPhases, ValidLocks, ValidRows, ValidPhase, CountsStand, WithinLimits, RowsCounted, LocksTaken, Attempts,
      Seen;
    MovingKeepsPhases(s, p, phase, policyOf);
    AcquiringKeepsLocks(s, p, i, phase, lockOf);
    SameRowsStayValid(s, p, phase);
    MovingKeepsCounts(s, p, phase, policyOf);
    LocksAreNotRows(Moved(s, p, phase), s.holders[lockOf(s.processes[p].task.keys[i]) := p], policyOf);
  }

  lemma LocksAreNotRows(s: System, holders: map<Lock, nat>, policyOf: Key -> Policy)
    requires ValidRows(s) && CountsStand(s, policyOf)
    ensures ValidRows(s.(holders := holders)) && CountsStand(s.(holders := holders), policyOf)
  {
    hide LocksTaken, CountStands, Seen;
  }

  lemma ClearCommitValid(s: System, p: nat, lockOf: Key -> Lock, policyOf: Key -> Policy)
    requires Valid(s, lockOf, policyOf) && p < |s.processes|
             && s.processes[p].phase == Locking(|s.processes[p].task.keys|)
    ensures Valid(Committed(s, p, []), lockOf, policyOf)
  {
    hide ValidPhases, ValidLocks, ValidRows, CountsStand, WithinLimits;
    SeenIsWithinLimits(s.rows, p, policyOf);
    assert Seen(s.rows, p) + [] == Seen(s.rows, p);
    CommitValid(s, p, [], lockOf, policyOf);
  }

  lemma TakeCommitValid(s: System, p: nat, lockOf: Key -> Lock, policyOf: Key -> Policy)
    requires Valid(s, lockOf, policyOf) && p < |s.processes|
    requires s.processes[p].phase.Counting? && s.processes[p].phase.counted == |s.processes[p].task.keys|
    ensures
      var process := s.processes[p];
      Valid(Committed(s, p, InsertedBy(process.task, process.phase.now, process.phase.allowed)), lockOf, policyOf)
  {
    var task, now, allowed := s.processes[p].task, s.processes[p].phase.now, s.processes[p].phase.allowed;
    var inserted := InsertedBy(task, now, allowed);
    ProcessIsValid(s, p, lockOf, policyOf);
    hide ValidPhases, ValidLocks, ValidRows, WithinLimits, Seen, CountSince, Rows, Increasing;
    SeenIsWithinLimits(s.rows, p, policyOf);
    RowsAreOnlyOf(task.keys, task.Take? && task.succeeded, now);
    if task.Take? && allowed {
      forall i | 0 <= i < |task.keys|
        ensures CountSince(Seen(s.rows, p), task.keys[i], now - WINDOW, policyOf(task.keys[i]).countAll)
                < policyOf(task.keys[i]).maximum
      {
        assert CountStands(Seen(s.rows, p), s.processes[p], i, policyOf);
      }
      AdmissionStaysWithinLimits(Seen(s.rows, p), task.keys, task.succeeded, now, policyOf);
      InsertedAreCounted(task, now, policyOf);
    } else {
      assert Seen(s.rows, p) + [] == Seen(s.rows, p);
      NoRowsAreOnlyOf(task.keys);
    }
    CommitValid(s, p, inserted, lockOf, policyOf);
  }

  lemma RowsAreOnlyOf(keys: seq<Key>, succeeded: bool, now: int)
    requires Increasing(keys)
    ensures OnlyOf(Rows(keys, succeeded, now), keys)
  {
    hide CountSince, Rows, Increasing;
    forall key: Key, from: int, countAll: bool | key !in keys
      ensures CountSince(Rows(keys, succeeded, now), key, from, countAll) == 0
    {
      NewRowsCount(keys, succeeded, now, key, from, from, countAll);
    }
  }

  lemma NoRowsAreOnlyOf(keys: seq<Key>)
    ensures OnlyOf([], keys)
  {
  }

  lemma InsertedAreCounted(task: Task, now: int, policyOf: Key -> Policy)
    requires ValidTask(task, policyOf) && task.Take?
    ensures RowsCounted(Rows(task.keys, task.succeeded, now), policyOf)
  {
    forall a | a in Rows(task.keys, task.succeeded, now) ensures policyOf(a.key).countAll || !a.succeeded {
      assert a.key in task.keys;
    }
  }

  lemma ProcessIsValid(s: System, p: nat, lockOf: Key -> Lock, policyOf: Key -> Policy)
    requires Valid(s, lockOf, policyOf) && p < |s.processes|
    ensures ValidTask(s.processes[p].task, policyOf) && ValidPhase(s.processes[p])
  {
  }

  lemma LockTakenValid(s: System, p: nat, lockOf: Key -> Lock, policyOf: Key -> Policy)
    requires Valid(s, lockOf, policyOf) && p < |s.processes| && !AwaitsLock(s, p, lockOf)
    requires s.processes[p].phase.Locking? && s.processes[p].phase.taken < |s.processes[p].task.keys|
    ensures Valid(LockTaken(s, p, lockOf), lockOf, policyOf)
  {
    hide Valid;
    var process := s.processes[p];
    var taken := process.phase.taken;
    AcquiredValid(s, p, taken, if process.task.Take? then Locking(taken + 1) else Clearing(taken), lockOf, policyOf);
  }

  lemma LockingStepValid(s: System, p: nat, now: int, lockOf: Key -> Lock, policyOf: Key -> Policy)
    requires Valid(s, lockOf, policyOf) && p < |s.processes| && !AwaitsLock(s, p, lockOf)
             && s.processes[p].phase.Locking?
    ensures Valid(Stepped(s, p, now, lockOf), lockOf, policyOf)
  {
    hide Valid, LockTaken, Committed, Seen;
    ProcessIsValid(s, p, lockOf, policyOf);
    var process := s.processes[p];
    if process.phase.taken < |process.task.keys| {
      LockTakenValid(s, p, lockOf, policyOf);
    } else if process.task.Take? {
      MovedValid(s, p, Cleaning(now), lockOf, policyOf);
    } else {
      ClearCommitValid(s, p, lockOf, policyOf);
    }
  }

  lemma ClearingStepValid(s: System, p: nat, now: int, lockOf: Key -> Lock, policyOf: Key -> Policy)
    requires Valid(s, lockOf, policyOf) && p < |s.processes| && s.processes[p].phase.Clearing?
    ensures Valid(Stepped(s, p, now, lockOf), lockOf, policyOf)
  {
    hide Valid, Committed, Seen, Erased, LockTaken, Below, InsertedBy;
    ProcessIsValid(s, p, lockOf, policyOf);
    var Process(task, Clearing(taken)) := s.processes[p];
    ErasedValid(s, p, OfKey(task.keys[taken]), Locking(taken + 1), lockOf, policyOf);
  }

  lemma CleaningStepValid(s: System, p: nat, now: int, lockOf: Key -> Lock, policyOf: Key -> Policy)
    requires Valid(s, lockOf, policyOf) && p < |s.processes| && s.processes[p].phase.Cleaning?
    ensures Valid(Stepped(s, p, now, lockOf), lockOf, policyOf)
  {
    hide Valid, Committed, Seen, Erased, LockTaken, Below, InsertedBy, Increasing;
    ProcessIsValid(s, p, lockOf, policyOf);
    var at := s.processes[p].phase.now;
    ErasedValid(s, p, ExpiredBefore(at - RETENTION), Counting(at, 0, true), lockOf, policyOf);
  }

  lemma CountedKeyStands(s: System, p: nat, lockOf: Key -> Lock, policyOf: Key -> Policy)
    requires Valid(s, lockOf, policyOf) && p < |s.processes|
    requires s.processes[p].task.Take? && s.processes[p].phase.Counting?
    requires s.processes[p].phase.counted < |s.processes[p].task.keys|
    ensures
      var Counting(at, counted, allowed) := s.processes[p].phase;
      var below := Below(s, p, s.processes[p].task.keys[counted], at, s.processes[p].task.policy);
      AllStand(Seen(s.rows, p), s.processes[p].(phase := Counting(at, counted + 1, allowed && below)), policyOf)
  {
    hide ValidPhases, ValidLocks, ValidRows, WithinLimits, RowsCounted, Attempts, Seen, CountSince, Increasing;
    ProcessIsValid(s, p, lockOf, policyOf);
    var Counting(at, counted, allowed) := s.processes[p].phase;
    var keys := s.processes[p].task.keys;
    var below := Below(s, p, keys[counted], at, s.processes[p].task.policy);
    assert policyOf(keys[counted]) == s.processes[p].task.policy;
    var next := s.processes[p].(phase := Counting(at, counted + 1, allowed && below));
    forall i: nat ensures CountStands(Seen(s.rows, p), next, i, policyOf) {
      assert CountStands(Seen(s.rows, p), s.processes[p], i, policyOf);
    }
  }

  lemma KeyCountedValid(s: System, p: nat, lockOf: Key -> Lock, policyOf: Key -> Policy)
    requires Valid(s, lockOf, policyOf) && p < |s.processes|
    requires s.processes[p].phase.Counting? && s.processes[p].phase.counted < |s.processes[p].task.keys|
    ensures
      var Process(task, Counting(at, counted, allowed)) := s.processes[p];
      var below := Below(s, p, task.keys[counted], at, PolicyOfTask(task));
      Valid(Moved(s, p, Counting(at, counted + 1, allowed && below)), lockOf, policyOf)
  {
    var Process(task, Counting(at, counted, allowed)) := s.processes[p];
    hide Valid, ValidTask, Seen, Below, AllStand, CountsStand, Moved;
    ProcessIsValid(s, p, lockOf, policyOf);
    CountedKeyStands(s, p, lockOf, policyOf);
    MovedValid(s, p, Counting(at, counted + 1, allowed && Below(s, p, task.keys[counted], at, task.policy)), lockOf,
      policyOf);
  }

  lemma CountingStepValid(s: System, p: nat, now: int, lockOf: Key -> Lock, policyOf: Key -> Policy)
    requires Valid(s, lockOf, policyOf) && p < |s.processes| && s.processes[p].phase.Counting?
    ensures Valid(Stepped(s, p, now, lockOf), lockOf, policyOf)
  {
    hide Valid, Moved, Committed, LockTaken, Erased, Below, InsertedBy, PolicyOfTask, ValidTask;
    ProcessIsValid(s, p, lockOf, policyOf);
    if s.processes[p].phase.counted < |s.processes[p].task.keys| {
      KeyCountedValid(s, p, lockOf, policyOf);
    } else {
      TakeCommitValid(s, p, lockOf, policyOf);
    }
  }

  /** Every step of every process keeps the invariant, whatever the clock shows. */
  lemma StepValid(s: System, p: nat, now: int, lockOf: Key -> Lock, policyOf: Key -> Policy)
    requires Valid(s, lockOf, policyOf) && p < |s.processes|
    ensures Valid(Advanced(s, p, now, lockOf), lockOf, policyOf)
  {
    if !Blocked(s, p, lockOf) {
      hide Valid, AwaitsLock, AwaitsRow, Stepped;
      match s.processes[p].phase
      case Locking(_) => LockingStepValid(s, p, now, lockOf, policyOf);
      case Clearing(_) => ClearingStepValid(s, p, now, lockOf, policyOf);
      case Cleaning(_) => CleaningStepValid(s, p, now, lockOf, policyOf);
      case Counting(_, _, _) => CountingStepValid(s, p, now, lockOf, policyOf);
      case Finished => FinishedStays(s, p, now, lockOf);
    }
  }

  lemma FinishedStays(s: System, p: nat, now: int, lockOf: Key -> Lock)
    requires p < |s.processes| && s.processes[p].phase.Finished?
    ensures Stepped(s, p, now, lockOf) == s
  {
  }

  // ---- runs -------------------------------------------------------------------------------------------------------

  datatype Move = Move(process: nat, now: int)

  /** A schedule: which process steps next, and what it reads if it reads the clock. */
  function Run(s: System, schedule: seq<Move>, lockOf: Key -> Lock): System
    decreases |schedule|
  {
    if schedule == [] then s
    else if schedule[0].process < |s.processes| then
      Run(Advanced(s, schedule[0].process, schedule[0].now, lockOf), schedule[1..], lockOf)
    else Run(s, schedule[1..], lockOf)
  }

  ghost predicate Begins(s: System, policyOf: Key -> Policy) {
    && s.holders == map[]
    && (forall p | 0 <= p < |s.processes| ::
          s.processes[p].phase == Locking(0) && ValidTask(s.processes[p].task, policyOf))
    && (forall r | r in s.rows :: r.deleter.None?)
    && RowsCounted(Attempts(s.rows), policyOf) && WithinLimits(Attempts(s.rows), policyOf)
  }

  lemma BeginsValid(s: System, lockOf: Key -> Lock, policyOf: Key -> Policy)
    requires Begins(s, policyOf)
    ensures Valid(s, lockOf, policyOf)
  {
    hide ValidTask, RowsCounted, WithinLimits, Attempts, Seen;
  }

  lemma {:induction false} RunValid(s: System, schedule: seq<Move>, lockOf: Key -> Lock, policyOf: Key -> Policy)
    requires Valid(s, lockOf, policyOf)
    ensures Valid(Run(s, schedule, lockOf), lockOf, policyOf)
    decreases |schedule|
  {
    hide Valid, Advanced;
    if schedule != [] {
      if schedule[0].process < |s.processes| {
        StepValid(s, schedule[0].process, schedule[0].now, lockOf, policyOf);
        RunValid(Advanced(s, schedule[0].process, schedule[0].now, lockOf), schedule[1..], lockOf, policyOf);
      } else {
        RunValid(s, schedule[1..], lockOf, policyOf);
      }
    }
  }

  /**
   However any number of transactions interleave, whatever their clocks show and however
   keys share locks, no window holds more uncleared attempts of a key than its maximum.
   */
  lemma LimitsHoldInEveryRun(s: System, schedule: seq<Move>, lockOf: Key -> Lock, policyOf: Key -> Policy)
    requires Begins(s, policyOf)
    ensures WithinLimits(Attempts(Run(s, schedule, lockOf).rows), policyOf)
  {
    BeginsValid(s, lockOf, policyOf);
    RunValid(s, schedule, lockOf, policyOf);
  }

  // ---- waiting ----------------------------------------------------------------------------------------------------

  /** Some transaction is unfinished, and each unfinished one waits for another. */
  ghost predicate Stuck(s: System, lockOf: Key -> Lock) {
    && (exists p | 0 <= p < |s.processes| :: !s.processes[p].phase.Finished?)
    && forall p | 0 <= p < |s.processes| && !s.processes[p].phase.Finished? :: Blocked(s, p, lockOf)
  }

  ghost predicate NobodyAwaitsRows(s: System) {
    forall p | 0 <= p < |s.processes| :: !AwaitsRow(s, p)
  }

  /** Keys that share a lock stand together in the key order. */
  ghost predicate SharedLocksAreAdjacent(lockOf: Key -> Lock) {
    forall a: Key, b: Key, c: Key | a < b < c && lockOf(a) == lockOf(c) :: lockOf(b) == lockOf(a)
  }

  function WaitsFor(process: Process): Key {
    if process.phase.Locking? && process.phase.taken < |process.task.keys| then process.task.keys[process.phase.taken]
      else 0
  }

  /** The unfinished process that waits for the greatest key. */
  lemma {:induction false} Foremost(processes: seq<Process>) returns (p: nat)
    requires exists q | 0 <= q < |processes| :: !processes[q].phase.Finished?
    ensures p < |processes| && !processes[p].phase.Finished?
    ensures forall q | 0 <= q < |processes|
            && !processes[q].phase.Finished? :: WaitsFor(processes[q]) <= WaitsFor(processes[p])
  {
    var rest := processes[1..];
    if exists q | 0 <= q < |rest| :: !rest[q].phase.Finished? {
      var r := Foremost(rest);
      p := if !processes[0].phase.Finished? && WaitsFor(processes[0]) > WaitsFor(rest[r]) then 0 else r + 1;
      forall q | 0 <= q < |processes| && !processes[q].phase.Finished?
        ensures WaitsFor(processes[q]) <= WaitsFor(processes[p])
      {
        assert q > 0 ==> rest[q - 1] == processes[q];
      }
    } else {
      p := 0;
      assert forall q | 0 < q < |processes| :: rest[q - 1] == processes[q];
    }
  }

  lemma BeyondTheShared(a: Key, b: Key, c: Key, lockOf: Key -> Lock)
    requires SharedLocksAreAdjacent(lockOf) && a < b && lockOf(a) == lockOf(c) != lockOf(b)
    ensures c < b
  {
  }

  /** Whoever holds the lock a process waits for waits, if it waits for a lock, for that of a greater key. */
  lemma HolderWaitsFurtherOn(s: System, p: nat, lockOf: Key -> Lock, policyOf: Key -> Policy)
    requires ValidPhases(s.processes, policyOf) && ValidLocks(s, lockOf) && SharedLocksAreAdjacent(lockOf)
    requires p < |s.processes| && AwaitsLock(s, p, lockOf)
    ensures
      var q := s.holders[lockOf(WaitsFor(s.processes[p]))];
      && q < |s.processes| && !s.processes[q].phase.Finished?
      && (AwaitsLock(s, q, lockOf) ==> WaitsFor(s.processes[p]) < WaitsFor(s.processes[q]))
  {
    hide SharedLocksAreAdjacent;
    var lock := lockOf(WaitsFor(s.processes[p]));
    var q := s.holders[lock];
    assert Holds(s.processes[q], lock, lockOf);
    var i :| 0 <= i < LocksTaken(s.processes[q]) && i < |s.processes[q].task.keys|
      && lockOf(s.processes[q].task.keys[i]) == lock;
    if AwaitsLock(s, q, lockOf) {
      assert ValidTask(s.processes[q].task, policyOf);
      var key, waits := s.processes[q].task.keys[i], WaitsFor(s.processes[q]);
      assert key < waits && lockOf(waits) != lock;
      BeyondTheShared(key, waits, WaitsFor(s.processes[p]), lockOf);
    }
  }

  lemma LocksNeverStick(s: System, lockOf: Key -> Lock, policyOf: Key -> Policy)
    requires ValidPhases(s.processes, policyOf) && ValidLocks(s, lockOf)
    requires SharedLocksAreAdjacent(lockOf) && NobodyAwaitsRows(s)
    ensures !Stuck(s, lockOf)
  {
    hide ValidPhases, ValidLocks, SharedLocksAreAdjacent, AwaitsRow;
    if Stuck(s, lockOf) {
      var p := Foremost(s.processes);
      HolderWaitsFurtherOn(s, p, lockOf, policyOf);
    }
  }

  // ---- when nobody waits for a row --------------------------------------------------------------------------------

  /** All keys have the same lock. */
  ghost predicate OneLock(lockOf: Key -> Lock) {
    forall a: Key, b: Key :: lockOf(a) == lockOf(b)
  }

  predicate ReadsBetween(phase: Phase, lo: int, hi: int) {
    match phase
    case Cleaning(now) => lo <= now <= hi
    case Counting(now, _, _) => lo <= now <= hi
    case _ => true
  }

  predicate Covers(process: Process, key: Key) {
    exists i | 0 <= i < LocksTaken(process) :: i < |process.task.keys| && process.task.keys[i] == key
  }

  ghost predicate MadeSince(rows: seq<Row>, lo: int) {
    forall r | r in rows :: r.attempt.at >= lo
  }

  /** No row is older than a time, no clock is past another, and rows are deleted only by whoever holds their keys. */
  ghost predicate Recent(s: System, lo: int, hi: int) {
    && MadeSince(s.rows, lo)
    && (forall p | 0 <= p < |s.processes| :: ReadsBetween(s.processes[p].phase, lo, hi))
    && (forall r | r in s.rows && r.deleter.Some? ::
          r.deleter.value < |s.processes| && Covers(s.processes[r.deleter.value], r.attempt.key))
  }

  lemma CoversMore(process: Process, phase: Phase, key: Key)
    requires Covers(process, key) && LocksTaken(process) <= LocksTaken(process.(phase := phase))
    ensures Covers(process.(phase := phase), key)
  {
    hide LocksTaken;
    var i :| 0 <= i < LocksTaken(process) && i < |process.task.keys| && process.task.keys[i] == key;
    assert process.(phase := phase).task.keys[i] == key;
  }

  lemma MovingStaysRecent(s: System, p: nat, phase: Phase, lo: int, hi: int)
    requires Recent(s, lo, hi) && p < |s.processes|
    requires LocksTaken(s.processes[p]) <= LocksTaken(s.processes[p].(phase := phase)) && ReadsBetween(phase, lo, hi)
    ensures Recent(Moved(s, p, phase), lo, hi)
  {
    hide LocksTaken, Covers, ReadsBetween;
    forall r | r in s.rows && r.deleter.Some?
      ensures Covers(Moved(s, p, phase).processes[r.deleter.value], r.attempt.key)
    {
      if r.deleter.value == p { CoversMore(s.processes[p], phase, r.attempt.key); }
    }
  }

  lemma ClearingStaysRecent(s: System, p: nat, key: Key, phase: Phase, lo: int, hi: int)
    requires Recent(s, lo, hi) && p < |s.processes|
    requires LocksTaken(s.processes[p]) <= LocksTaken(s.processes[p].(phase := phase)) && ReadsBetween(phase, lo, hi)
    requires Covers(s.processes[p], key)
    ensures Recent(Erased(s, p, OfKey(key), phase), lo, hi)
  {
    hide LocksTaken, Covers, ReadsBetween, Deleted;
    MovingStaysRecent(s, p, phase, lo, hi);
    CoversMore(s.processes[p], phase, key);
    DeletedRows(s.rows, p, p, OfKey(key));
    var t := Erased(s, p, OfKey(key), phase);
    forall r | r in t.rows
      ensures r.attempt.at >= lo
      ensures r.deleter.Some? ==> r.deleter.value < |t.processes| && Covers(t.processes[r.deleter.value], r.attempt.key)
    {
      if r !in s.rows { assert r.(deleter := None) in s.rows; }
    }
  }

  lemma CommittingStaysRecent(s: System, p: nat, inserted: seq<Attempt>, lo: int, hi: int)
    requires Recent(s, lo, hi) && p < |s.processes| && forall a | a in inserted :: a.at >= lo
    ensures Recent(Committed(s, p, inserted), lo, hi)
  {
    hide LocksTaken, Covers, Kept, Stored;
    KeptRows(s.rows, p);
    StoredIsSeen(inserted, p);
  }

  /** Over a period no longer than the retention, nothing expires. */
  lemma NothingExpires(s: System, p: nat, lo: int, hi: int)
    requires Recent(s, lo, hi) && hi - lo <= RETENTION && p < |s.processes| && s.processes[p].phase.Cleaning?
    ensures
      var condition := ExpiredBefore(s.processes[p].phase.now - RETENTION);
      Deleted(s.rows, p, condition) == s.rows && !Meets(s.rows, p, condition)
  {
    hide Deleted, Covers;
    var condition := ExpiredBefore(s.processes[p].phase.now - RETENTION);
    assert ReadsBetween(s.processes[p].phase, lo, hi);
    forall r | r in s.rows ensures !condition(r.attempt) {}
    NothingToDelete(s.rows, p, condition);
  }

  lemma LockingStaysRecent(s: System, p: nat, now: int, lo: int, hi: int, lockOf: Key -> Lock)
    requires Recent(s, lo, hi) && lo <= now <= hi && p < |s.processes| && s.processes[p].phase.Locking?
    requires s.processes[p].phase.taken <= |s.processes[p].task.keys|
    ensures Recent(Stepped(s, p, now, lockOf), lo, hi)
  {
    hide Recent, Committed, Erased, Below, InsertedBy;
    var Process(task, Locking(taken)) := s.processes[p];
    if taken < |task.keys| {
      var phase := if task.Take? then Locking(taken + 1) else Clearing(taken);
      MovingStaysRecent(s, p, phase, lo, hi);
      LocksAreNotRecent(Moved(s, p, phase), s.holders[lockOf(task.keys[taken]) := p], lo, hi);
    } else if task.Take? {
      MovingStaysRecent(s, p, Cleaning(now), lo, hi);
    } else {
      CommittingStaysRecent(s, p, [], lo, hi);
    }
  }

  lemma ClearingStepStaysRecent(s: System, p: nat, now: int, lo: int, hi: int, lockOf: Key -> Lock)
    requires Recent(s, lo, hi) && p < |s.processes| && s.processes[p].phase.Clearing? && ValidPhase(s.processes[p])
    ensures Recent(Stepped(s, p, now, lockOf), lo, hi)
  {
    hide Recent, Committed, LockTaken, Below, InsertedBy, Covers, Erased;
    var Process(task, Clearing(taken)) := s.processes[p];
    CoversLast(s.processes[p]);
    ClearingStaysRecent(s, p, task.keys[taken], Locking(taken + 1), lo, hi);
  }

  lemma CleaningStepStaysRecent(s: System, p: nat, now: int, lo: int, hi: int, lockOf: Key -> Lock)
    requires Recent(s, lo, hi) && hi - lo <= RETENTION && p < |s.processes| && s.processes[p].phase.Cleaning?
    ensures Recent(Stepped(s, p, now, lockOf), lo, hi)
  {
    var at := s.processes[p].phase.now;
    assert ReadsBetween(s.processes[p].phase, lo, hi);
    hide Recent, Committed, LockTaken, Below, InsertedBy, Deleted, Meets;
    NothingExpires(s, p, lo, hi);
    MovingStaysRecent(s, p, Counting(at, 0, true), lo, hi);
  }

  lemma CountingStaysRecent(s: System, p: nat, now: int, lo: int, hi: int, lockOf: Key -> Lock)
    requires Recent(s, lo, hi) && p < |s.processes| && s.processes[p].phase.Counting?
    ensures Recent(Stepped(s, p, now, lockOf), lo, hi)
  {
    var Process(task, Counting(at, counted, allowed)) := s.processes[p];
    assert ReadsBetween(s.processes[p].phase, lo, hi);
    hide Recent, Committed, LockTaken, Erased, Below;
    if counted < |task.keys| {
      var below := Below(s, p, task.keys[counted], at, PolicyOfTask(task));
      MovingStaysRecent(s, p, Counting(at, counted + 1, allowed && below), lo, hi);
    } else {
      CommittingStaysRecent(s, p, InsertedBy(task, at, allowed), lo, hi);
    }
  }

  lemma StepStaysRecent(s: System, p: nat, now: int, lo: int, hi: int, lockOf: Key -> Lock, policyOf: Key -> Policy)
    requires Recent(s, lo, hi) && hi - lo <= RETENTION && lo <= now <= hi
    requires p < |s.processes| && ValidPhases(s.processes, policyOf)
    ensures Recent(Advanced(s, p, now, lockOf), lo, hi)
  {
    assert ValidPhase(s.processes[p]);
    if !Blocked(s, p, lockOf) {
      hide Recent, ValidPhases, Blocked, Stepped;
      match s.processes[p].phase
      case Locking(_) => LockingStaysRecent(s, p, now, lo, hi, lockOf);
      case Clearing(_) => ClearingStepStaysRecent(s, p, now, lo, hi, lockOf);
      case Cleaning(_) => CleaningStepStaysRecent(s, p, now, lo, hi, lockOf);
      case Counting(_, _, _) => CountingStaysRecent(s, p, now, lo, hi, lockOf);
      case Finished => FinishedStays(s, p, now, lockOf);
    }
  }

  lemma CoversLast(process: Process)
    requires process.phase.Clearing? && process.phase.taken < |process.task.keys|
    ensures Covers(process, process.task.keys[process.phase.taken])
  {
  }

  lemma LocksAreNotRecent(s: System, holders: map<Lock, nat>, lo: int, hi: int)
    requires Recent(s, lo, hi)
    ensures Recent(s.(holders := holders), lo, hi)
  {
    hide Covers;
  }

  lemma CoveredIsHeld(s: System, p: nat, key: Key, lockOf: Key -> Lock)
    requires ValidLocks(s, lockOf) && p < |s.processes| && Covers(s.processes[p], key)
    ensures lockOf(key) in s.holders && s.holders[lockOf(key)] == p
  {
    hide Holds, LocksTaken;
  }

  /** Then a deletion only meets rows of keys whose locks its transaction holds, and only it has deleted those. */
  lemma RecentRowsAreFree(s: System, lo: int, hi: int, lockOf: Key -> Lock)
    requires ValidLocks(s, lockOf) && Recent(s, lo, hi) && hi - lo <= RETENTION
    ensures NobodyAwaitsRows(s)
  {
    hide Holds, Deleted;
    forall p: nat | p < |s.processes| ensures !AwaitsRow(s, p) {
      var process := s.processes[p];
      if process.phase.Cleaning? {
        NothingExpires(s, p, lo, hi);
      } else if AwaitsRow(s, p) {
        var key := process.task.keys[process.phase.taken];
        CoversLast(process);
        var r :| r in s.rows && r.attempt.key == key && r.deleter.Some? && r.deleter.value != p;
        CoveredIsHeld(s, p, key, lockOf);
        CoveredIsHeld(s, r.deleter.value, key, lockOf);
      }
    }
  }

  /** With one lock for all keys, whoever deletes rows is alone. */
  lemma OneLockRowsAreFree(s: System, lockOf: Key -> Lock, policyOf: Key -> Policy)
    requires ValidPhases(s.processes, policyOf) && ValidLocks(s, lockOf) && ValidRows(s) && OneLock(lockOf)
    ensures NobodyAwaitsRows(s)
  {
    hide Holds, Increasing;
    forall p: nat | p < |s.processes| ensures !AwaitsRow(s, p) {
      if AwaitsRow(s, p) {
        assert ValidTask(s.processes[p].task, policyOf) && LocksTaken(s.processes[p]) > 0;
        var r :| r in s.rows && r.deleter.Some? && r.deleter.value != p;
        OneLockOneHolder(s, p, r.deleter.value, lockOf, policyOf);
      }
    }
  }

  lemma OneLockOneHolder(s: System, p: nat, q: nat, lockOf: Key -> Lock, policyOf: Key -> Policy)
    requires ValidPhases(s.processes, policyOf) && ValidLocks(s, lockOf) && OneLock(lockOf)
    requires p < |s.processes| && q < |s.processes| && LocksTaken(s.processes[p]) > 0 && LocksTaken(s.processes[q]) > 0
    ensures p == q
  {
    hide Holds, Increasing, LocksTaken;
    assert ValidTask(s.processes[p].task, policyOf) && ValidTask(s.processes[q].task, policyOf);
    assert s.holders[lockOf(s.processes[p].task.keys[0])] == p;
    assert s.holders[lockOf(s.processes[q].task.keys[0])] == q;
  }

  // ---- progress ---------------------------------------------------------------------------------------------------

  /** The order of locks is safe, and nobody can come to wait for a row in a period. */
  ghost predicate Safe(lo: int, hi: int, lockOf: Key -> Lock) {
    OneLock(lockOf) || (SharedLocksAreAdjacent(lockOf) && hi - lo <= RETENTION)
  }

  /** What a safe period needs of the state it is in. */
  ghost predicate Settled(s: System, lo: int, hi: int, lockOf: Key -> Lock) {
    Safe(lo, hi, lockOf) && (!OneLock(lockOf) ==> Recent(s, lo, hi))
  }

  lemma OneLockIsAdjacent(lockOf: Key -> Lock)
    requires OneLock(lockOf)
    ensures SharedLocksAreAdjacent(lockOf)
  {
  }

  /** In a safe period some unfinished transaction can always step. */
  lemma NeverStuck(s: System, lo: int, hi: int, lockOf: Key -> Lock, policyOf: Key -> Policy)
    requires Valid(s, lockOf, policyOf) && Settled(s, lo, hi, lockOf)
    ensures !Stuck(s, lockOf)
  {
    hide ValidPhases, ValidLocks, ValidRows, CountsStand, WithinLimits, RowsCounted, OneLock, Recent;
    hide SharedLocksAreAdjacent, NobodyAwaitsRows, Stuck, Attempts;
    if OneLock(lockOf) {
      OneLockIsAdjacent(lockOf);
      OneLockRowsAreFree(s, lockOf, policyOf);
    } else {
      RecentRowsAreFree(s, lo, hi, lockOf);
    }
    LocksNeverStick(s, lockOf, policyOf);
  }

  lemma StepStaysSettled(s: System, p: nat, now: int, lo: int, hi: int, lockOf: Key -> Lock, policyOf: Key -> Policy)
    requires Valid(s, lockOf, policyOf) && Settled(s, lo, hi, lockOf) && lo <= now <= hi && p < |s.processes|
    ensures Settled(Advanced(s, p, now, lockOf), lo, hi, lockOf)
  {
    hide ValidPhases, ValidLocks, ValidRows, CountsStand, WithinLimits, RowsCounted, OneLock, Recent,
      SharedLocksAreAdjacent;
    hide Advanced, Attempts;
    if !OneLock(lockOf) {
      StepStaysRecent(s, p, now, lo, hi, lockOf, policyOf);
    }
  }

  ghost predicate ClocksBetween(schedule: seq<Move>, lo: int, hi: int) {
    forall i | 0 <= i < |schedule| :: lo <= schedule[i].now <= hi
  }

  lemma {:induction false} RunStaysSettled(
    s: System, schedule: seq<Move>, lo: int, hi: int, lockOf: Key -> Lock, policyOf: Key -> Policy)
    requires Valid(s, lockOf, policyOf) && Settled(s, lo, hi, lockOf) && ClocksBetween(schedule, lo, hi)
    ensures Valid(Run(s, schedule, lockOf), lockOf, policyOf) && Settled(Run(s, schedule, lockOf), lo, hi, lockOf)
    decreases |schedule|
  {
    hide Valid, Settled, Advanced;
    if schedule != [] {
      var rest := schedule[1..];
      assert ClocksBetween(rest, lo, hi);
      if schedule[0].process < |s.processes| {
        var next := Advanced(s, schedule[0].process, schedule[0].now, lockOf);
        StepValid(s, schedule[0].process, schedule[0].now, lockOf, policyOf);
        StepStaysSettled(s, schedule[0].process, schedule[0].now, lo, hi, lockOf, policyOf);
        RunStaysSettled(next, rest, lo, hi, lockOf, policyOf);
      } else {
        RunStaysSettled(s, rest, lo, hi, lockOf, policyOf);
      }
    }
  }

  // ---- deadlock ---------------------------------------------------------------------------------------------------

  /** No transactions get stuck while the rows are no older than a time and the clocks not past another. */
  ghost predicate DeadlockFree(lo: int, hi: int, lockOf: Key -> Lock, policyOf: Key -> Policy) {
    forall s: System, schedule: seq<Move> | Begins(s, policyOf) && MadeSince(s.rows, lo)
      && ClocksBetween(schedule, lo, hi) ::
      !Stuck(Run(s, schedule, lockOf), lockOf)
  }

  lemma {:induction false} RunFirst(s: System, move: Move, rest: seq<Move>, lockOf: Key -> Lock)
    requires move.process < |s.processes|
    ensures Run(s, [move] + rest, lockOf) == Run(Advanced(s, move.process, move.now, lockOf), rest, lockOf)
  {
    assert ([move] + rest)[1..] == rest;
  }

  lemma RunFour(s: System, a: Move, b: Move, c: Move, d: Move, lockOf: Key -> Lock)
    requires a.process < |s.processes| && b.process < |s.processes| && c.process < |s.processes|
             && d.process < |s.processes|
    ensures
      var one := Advanced(s, a.process, a.now, lockOf);
      var two := Advanced(one, b.process, b.now, lockOf);
      var three := Advanced(two, c.process, c.now, lockOf);
      && |one.processes| == |two.processes| == |three.processes| == |s.processes|
      && Run(s, [a, b, c, d], lockOf) == Advanced(three, d.process, d.now, lockOf)
  {
    hide Advanced, Run;
    var one := Advanced(s, a.process, a.now, lockOf);
    StepKeepsProcesses(s, a.process, a.now, lockOf);
    var two := Advanced(one, b.process, b.now, lockOf);
    StepKeepsProcesses(one, b.process, b.now, lockOf);
    var three := Advanced(two, c.process, c.now, lockOf);
    StepKeepsProcesses(two, c.process, c.now, lockOf);
    assert [a, b, c, d] == [a] + ([b] + ([c] + ([d] + [])));
    RunFirst(s, a, [b] + ([c] + ([d] + [])), lockOf);
    RunFirst(one, b, [c] + ([d] + []), lockOf);
    RunFirst(two, c, [d] + [], lockOf);
    RunFirst(three, d, [], lockOf);
    RunNone(Advanced(three, d.process, d.now, lockOf), lockOf);
  }

  lemma RunNone(s: System, lockOf: Key -> Lock)
    ensures Run(s, [], lockOf) == s
  {
  }

  lemma StepKeepsProcesses(s: System, p: nat, now: int, lockOf: Key -> Lock)
    requires p < |s.processes|
    ensures |Advanced(s, p, now, lockOf).processes| == |s.processes|
  {
    hide Blocked, Kept, Stored, Deleted, Below;
  }

  /** Two transactions that clear keys, at their beginning. */
  function TwoClear(one: seq<Key>, other: seq<Key>): System {
    System([], map[], [Process(RecordSuccess(one), Locking(0)), Process(RecordSuccess(other), Locking(0))])
  }

  /** Each clears its first key, and then waits for the lock of its second. */
  lemma ClearTowardsEachOther(one: seq<Key>, other: seq<Key>, now: int, lockOf: Key -> Lock)
    requires |one| == |other| == 2 && lockOf(one[0]) != lockOf(other[0])
    requires lockOf(one[1]) == lockOf(other[0]) && lockOf(other[1]) == lockOf(one[0])
    ensures Stuck(Run(TwoClear(one, other), [Move(0, now), Move(0, now), Move(1, now), Move(1, now)], lockOf), lockOf)
  {
    var s := TwoClear(one, other);
    RunFour(s, Move(0, now), Move(0, now), Move(1, now), Move(1, now), lockOf);
    var first := Advanced(Advanced(s, 0, now, lockOf), 0, now, lockOf);
    assert first == System([], map[lockOf(one[0]) := 0], [Process(RecordSuccess(one), Locking(1)), s.processes[1]]);
    var last := Advanced(Advanced(first, 1, now, lockOf), 1, now, lockOf);
    assert last.processes == [Process(RecordSuccess(one), Locking(1)), Process(RecordSuccess(other), Locking(1))];
    assert last.holders == map[lockOf(one[0]) := 0, lockOf(other[0]) := 1];
    assert !last.processes[0].phase.Finished?;
  }

  lemma TwoClearBegin(one: seq<Key>, other: seq<Key>, policyOf: Key -> Policy)
    requires one != [] && Increasing(one) && other != [] && Increasing(other)
    ensures Begins(TwoClear(one, other), policyOf)
  {
  }

  /** Two transactions over keys a < b and b < c, where a and c share a lock that b does not. */
  lemma CollisionDeadlocks(a: Key, b: Key, c: Key, now: int, lockOf: Key -> Lock, policyOf: Key -> Policy)
    requires a < b < c && lockOf(a) == lockOf(c) != lockOf(b)
    ensures Begins(TwoClear([a, b], [b, c]), policyOf)
    ensures Stuck(Run(TwoClear([a, b], [b, c]), [Move(0, now), Move(0, now), Move(1, now), Move(1, now)], lockOf),
            lockOf)
  {
    TwoClearBegin([a, b], [b, c], policyOf);
    ClearTowardsEachOther([a, b], [b, c], now, lockOf);
  }

  /** Sorting is needed: two transactions over the same two keys deadlock when one takes them in the other order. */
  lemma UnsortedDeadlocks(a: Key, b: Key, now: int, lockOf: Key -> Lock)
    requires lockOf(a) != lockOf(b)
    ensures Stuck(Run(TwoClear([a, b], [b, a]), [Move(0, now), Move(0, now), Move(1, now), Move(1, now)], lockOf),
            lockOf)
  {
    ClearTowardsEachOther([a, b], [b, a], now, lockOf);
  }

  /** One transaction clears keys a and b, another takes b, and a holds an old attempt. */
  function ClearAndTake(a: Key, b: Key, at: int, policy: Policy): System {
    System([Row(Attempt(a, false, at), None)], map[],
           [Process(RecordSuccess([a, b]), Locking(0)), Process(Take([b], policy, false), Locking(0))])
  }

  lemma ClearAndTakeBegin(a: Key, b: Key, at: int, policyOf: Key -> Policy)
    requires a < b && policyOf(a).maximum > 0
    ensures Begins(ClearAndTake(a, b, at, policyOf(b)), policyOf)
  {
    var row := Attempt(a, false, at);
    assert Attempts([Row(row, None)]) == [row];
    forall key: Key, t: int ensures InWindow([row], key, t) <= policyOf(key).maximum {
      assert CountIn([row][1..], key, t, t + WINDOW) == 0;
    }
  }

  /**
   Sorting is not enough: the first transaction deletes the old attempt and waits for the
   lock of b, whose holder is to delete what has expired and waits for that attempt.
   */
  lemma ExpiryDeadlocks(a: Key, b: Key, lo: int, hi: int, lockOf: Key -> Lock, policy: Policy)
    requires lockOf(a) != lockOf(b) && hi - lo > RETENTION
    ensures Stuck(Run(ClearAndTake(a, b, lo, policy), [Move(0, lo), Move(0, lo), Move(1, lo), Move(1, hi)], lockOf),
            lockOf)
  {
    var s := ClearAndTake(a, b, lo, policy);
    RunFour(s, Move(0, lo), Move(0, lo), Move(1, lo), Move(1, hi), lockOf);
    var row := Row(Attempt(a, false, lo), Some(0));
    var first := Advanced(Advanced(s, 0, lo, lockOf), 0, lo, lockOf);
    assert first == System([row], map[lockOf(a) := 0], [Process(RecordSuccess([a, b]), Locking(1)), s.processes[1]]);
    var last := Advanced(Advanced(first, 1, lo, lockOf), 1, hi, lockOf);
    assert last == System([row], map[lockOf(a) := 0, lockOf(b) := 1],
                          [first.processes[0], Process(Take([b], policy, false), Cleaning(hi))]);
    assert row in last.rows && ExpiredBefore(hi - RETENTION)(row.attempt);
    assert !last.processes[0].phase.Finished?;
  }

  lemma SafePeriodIsDeadlockFree(lo: int, hi: int, lockOf: Key -> Lock, policyOf: Key -> Policy)
    requires Safe(lo, hi, lockOf)
    ensures DeadlockFree(lo, hi, lockOf, policyOf)
  {
    hide Safe, Stuck, Run, ClocksBetween, Valid;
    forall s: System, schedule: seq<Move> | Begins(s, policyOf) && MadeSince(s.rows, lo)
      && ClocksBetween(schedule, lo, hi)
      ensures !Stuck(Run(s, schedule, lockOf), lockOf)
    {
      BeginsValid(s, lockOf, policyOf);
      assert Settled(s, lo, hi, lockOf);
      RunStaysSettled(s, schedule, lo, hi, lockOf, policyOf);
      NeverStuck(Run(s, schedule, lockOf), lo, hi, lockOf, policyOf);
    }
  }

  lemma CollisionsAreNotFree(lo: int, hi: int, lockOf: Key -> Lock, policyOf: Key -> Policy)
    requires lo <= hi && !SharedLocksAreAdjacent(lockOf)
    ensures !DeadlockFree(lo, hi, lockOf, policyOf)
  {
    hide Begins, Stuck, Run;
    var a: Key, b: Key, c: Key :| a < b < c && lockOf(a) == lockOf(c) && lockOf(b) != lockOf(a);
    CollisionDeadlocks(a, b, c, lo, lockOf, policyOf);
    assert MadeSince(TwoClear([a, b], [b, c]).rows, lo);
  }

  lemma ExpiryIsNotFree(lo: int, hi: int, lockOf: Key -> Lock, policyOf: Key -> Policy)
    requires (forall key :: policyOf(key).maximum > 0) && !OneLock(lockOf) && hi - lo > RETENTION
    ensures !DeadlockFree(lo, hi, lockOf, policyOf)
  {
    hide Begins, Stuck, Run;
    var x: Key, y: Key :| lockOf(x) != lockOf(y);
    var a, b := if x < y then x else y, if x < y then y else x;
    ClearAndTakeBegin(a, b, lo, policyOf);
    ExpiryDeadlocks(a, b, lo, hi, lockOf, policyOf(b));
    assert MadeSince(ClearAndTake(a, b, lo, policyOf(b)).rows, lo);
  }

  /**
   The transactions of the limiter cannot deadlock, while the stored attempts are no older
   than a time and the clocks not past another, exactly when all keys have one lock, or keys
   that share a lock are adjacent in the key order and the period is too short for an
   attempt to expire.  So 64-bit lock identifiers that collide are one way for them to, and
   attempts that have expired are another, even with a lock for each key.
   */
  lemma DeadlockFreeExactlyWhen(lo: int, hi: int, lockOf: Key -> Lock, policyOf: Key -> Policy)
    requires lo <= hi && forall key :: policyOf(key).maximum > 0
    ensures DeadlockFree(lo, hi, lockOf, policyOf)
       <==> OneLock(lockOf) || (SharedLocksAreAdjacent(lockOf) && hi - lo <= RETENTION)
  {
    hide DeadlockFree, OneLock, SharedLocksAreAdjacent;
    if Safe(lo, hi, lockOf) {
      SafePeriodIsDeadlockFree(lo, hi, lockOf, policyOf);
    } else if !SharedLocksAreAdjacent(lockOf) {
      CollisionsAreNotFree(lo, hi, lockOf, policyOf);
    } else {
      ExpiryIsNotFree(lo, hi, lockOf, policyOf);
    }
  }

  // ---- completion -------------------------------------------------------------------------------------------------

  function Left(process: Process): int {
    var n := |process.task.keys|;
    match process.phase
    case Locking(taken) => 2 * (n - taken) + n + 3
    case Clearing(taken) => 2 * (n - taken) + n + 2
    case Cleaning(_) => n + 2
    case Counting(_, counted, _) => n + 1 - counted
    case Finished => 0
  }

  function TotalLeft(processes: seq<Process>): int {
    if processes == [] then 0 else Left(processes[0]) + TotalLeft(processes[1..])
  }

  lemma {:induction false} TotalChanges(processes: seq<Process>, p: nat, process: Process)
    requires p < |processes|
    ensures TotalLeft(processes[p := process]) == TotalLeft(processes) - Left(processes[p]) + Left(process)
  {
    if p == 0 {
      assert processes[p := process][1..] == processes[1..];
    } else {
      TotalChanges(processes[1..], p - 1, process);
      assert processes[p := process][1..] == processes[1..][p - 1 := process];
    }
  }

  lemma {:induction false} TotalNotNegative(processes: seq<Process>)
    requires forall p | 0 <= p < |processes| :: Left(processes[p]) >= 0
    ensures TotalLeft(processes) >= 0
  {
    if processes != [] { TotalNotNegative(processes[1..]); }
  }

  ghost predicate AllFinished(s: System) {
    forall p | 0 <= p < |s.processes| :: s.processes[p].phase.Finished?
  }

  lemma LeftNotNegative(s: System, policyOf: Key -> Policy)
    requires ValidPhases(s.processes, policyOf)
    ensures TotalLeft(s.processes) >= 0
  {
    hide ValidTask, TotalLeft;
    forall p | 0 <= p < |s.processes| ensures Left(s.processes[p]) >= 0 {
      assert ValidPhase(s.processes[p]);
    }
    TotalNotNegative(s.processes);
  }

  /** A process changes by its own steps only, and comes closer to its end. */
  lemma StepIsItsOwn(s: System, p: nat, now: int, lockOf: Key -> Lock, policyOf: Key -> Policy)
    requires ValidPhases(s.processes, policyOf) && p < |s.processes| && !s.processes[p].phase.Finished?
    ensures
      var next := Stepped(s, p, now, lockOf);
      && |next.processes| == |s.processes| && next.processes == s.processes[p := next.processes[p]]
      && Left(next.processes[p]) < Left(s.processes[p])
  {
    assert ValidPhase(s.processes[p]);
    hide ValidPhases, Kept, Stored, Deleted, Below, Rows;
  }

  lemma StepBringsCloser(s: System, p: nat, now: int, lockOf: Key -> Lock, policyOf: Key -> Policy)
    requires ValidPhases(s.processes, policyOf)
    requires p < |s.processes| && !s.processes[p].phase.Finished? && !Blocked(s, p, lockOf)
    ensures TotalLeft(Advanced(s, p, now, lockOf).processes) < TotalLeft(s.processes)
  {
    hide ValidPhases, Stepped, Left, TotalLeft, AwaitsLock, AwaitsRow;
    StepIsItsOwn(s, p, now, lockOf, policyOf);
    TotalChanges(s.processes, p, Stepped(s, p, now, lockOf).processes[p]);
  }

  lemma SomeoneCanStep(s: System, lo: int, hi: int, lockOf: Key -> Lock, policyOf: Key -> Policy) returns (p: nat)
    requires Valid(s, lockOf, policyOf) && Settled(s, lo, hi, lockOf) && !AllFinished(s)
    ensures p < |s.processes| && !s.processes[p].phase.Finished? && !Blocked(s, p, lockOf)
  {
    hide Valid, Settled, Blocked;
    NeverStuck(s, lo, hi, lockOf, policyOf);
    p :| 0 <= p < |s.processes| && !s.processes[p].phase.Finished? && !Blocked(s, p, lockOf);
  }

  lemma ValidHasPhases(s: System, lockOf: Key -> Lock, policyOf: Key -> Policy)
    requires Valid(s, lockOf, policyOf)
    ensures ValidPhases(s.processes, policyOf)
  {
  }

  /** In a safe period there is, from every valid state, a way for every transaction to finish. */
  lemma {:induction false} EveryoneCanFinish(
    s: System, lo: int, hi: int, lockOf: Key -> Lock, policyOf: Key -> Policy, bound: nat) returns (schedule: seq<Move>)
    requires lo <= hi && Valid(s, lockOf, policyOf) && Settled(s, lo, hi, lockOf) && TotalLeft(s.processes) <= bound
    ensures AllFinished(Run(s, schedule, lockOf)) && |schedule| <= bound && ClocksBetween(schedule, lo, hi)
    decreases bound
  {
    hide Valid, Settled, Advanced, Blocked, TotalLeft, AllFinished, Run;
    if AllFinished(s) {
      schedule := [];
      RunNone(s, lockOf);
    } else {
      var p := SomeoneCanStep(s, lo, hi, lockOf, policyOf);
      var next := Advanced(s, p, lo, lockOf);
      ValidHasPhases(s, lockOf, policyOf);
      StepValid(s, p, lo, lockOf, policyOf);
      StepStaysSettled(s, p, lo, lo, hi, lockOf, policyOf);
      StepBringsCloser(s, p, lo, lockOf, policyOf);
      ValidHasPhases(next, lockOf, policyOf);
      LeftNotNegative(next, policyOf);
      var rest := EveryoneCanFinish(next, lo, hi, lockOf, policyOf, bound - 1);
      schedule := [Move(p, lo)] + rest;
      RunFirst(s, Move(p, lo), rest, lockOf);
    }
  }

  // ---- a transaction on its own -----------------------------------------------------------------------------------

  /** Nothing is held or deleted but by the first process, which is the only one. */
  ghost predicate Alone(s: System) {
    && |s.processes| == 1 && ValidPhase(s.processes[0])
    && (forall l | l in s.holders :: s.holders[l] == 0)
    && (forall r | r in s.rows :: r.deleter.None? || (r.deleter == Some(0) && !s.processes[0].phase.Finished?))
  }

  /** The attempts a process on its own is about to leave, when the clock shows `now`. */
  function Destined(process: Process, seen: seq<Attempt>, now: int): seq<Attempt>
    requires ValidPhase(process)
  {
    var Process(task, phase) := process;
    match phase
    case Locking(taken) =>
      if task.Take? then TakeCommitted(seen, task.keys, task.succeeded, now,
        Admissible(seen, task.keys, task.policy, now))
      else WithoutKeys(seen, task.keys[taken..])
    case Clearing(taken) => WithoutKeys(seen, task.keys[taken..])
    case Cleaning(at) => TakeCommitted(seen, task.keys, task.succeeded, at,
      Admissible(seen, task.keys, task.policy, at))
    case Counting(at, counted, allowed) =>
      seen + InsertedBy(task, at, allowed && Admissible(seen, task.keys[counted..], task.policy, at))
    case Finished => seen
  }

  lemma {:induction false} DeletedByItself(rows: seq<Row>, before: int, key: Key)
    requires forall r | r in rows :: r.deleter.None? || r.deleter == Some(0)
    ensures Seen(Deleted(rows, 0, ExpiredBefore(before)), 0) == WithoutExpired(Seen(rows, 0), before)
    ensures Seen(Deleted(rows, 0, OfKey(key)), 0) == WithoutKeys(Seen(rows, 0), [key])
  {
    if rows != [] {
      var rest := rows[1..];
      DeletedByItself(rest, before, key);
      var seen := Seen(rest, 0);
      assert ([rows[0].attempt] + seen)[1..] == seen;
      SeenFirst(DeletedRow(rows[0], 0, ExpiredBefore(before)), Deleted(rest, 0, ExpiredBefore(before)), 0);
      SeenFirst(DeletedRow(rows[0], 0, OfKey(key)), Deleted(rest, 0, OfKey(key)), 0);
    }
  }

  lemma CleanedIsAsAdmissible(attempts: seq<Attempt>, keys: seq<Key>, policy: Policy, now: int)
    ensures Admissible(WithoutExpired(attempts, now - RETENTION), keys, policy, now)
            == Admissible(attempts, keys, policy, now)
  {
    hide CountSince, WithoutExpired;
    var cleaned := WithoutExpired(attempts, now - RETENTION);
    forall i | 0 <= i < |keys|
      ensures CountSince(cleaned, keys[i], now - WINDOW, policy.countAll)
           == CountSince(attempts, keys[i], now - WINDOW, policy.countAll)
    {
      ExpiredAreNotCounted(attempts, keys[i], now - WINDOW, policy.countAll, now - RETENTION);
    }
  }

  lemma AdmissibleFirst(attempts: seq<Attempt>, keys: seq<Key>, policy: Policy, now: int)
    requires keys != []
    ensures Admissible(attempts, keys, policy, now)
       <==> CountSince(attempts, keys[0], now - WINDOW, policy.countAll) < policy.maximum
            && Admissible(attempts, keys[1..], policy, now)
  {
    hide CountSince;
    forall i | 0 < i < |keys| ensures keys[i] == keys[1..][i - 1] {}
  }

  lemma AloneDoesNotWait(s: System, lockOf: Key -> Lock)
    requires Alone(s)
    ensures !Blocked(s, 0, lockOf)
  {
    forall l | l in s.holders ensures s.holders[l] == 0 {}
    assert !AwaitsRow(s, 0);
  }

  lemma StayingAlone(s: System, now: int, lockOf: Key -> Lock)
    requires Alone(s)
    ensures Alone(Stepped(s, 0, now, lockOf))
  {
    hide Seen, Below, Kept, Stored, Deleted;
    var task := s.processes[0].task;
    KeptRows(s.rows, 0);
    StoredIsSeen([], 0);
    match s.processes[0].phase
    case Clearing(taken) => DeletedRows(s.rows, 0, 0, OfKey(task.keys[taken]));
    case Cleaning(at) => DeletedRows(s.rows, 0, 0, ExpiredBefore(at - RETENTION));
    case Counting(at, _, allowed) => StoredIsSeen(InsertedBy(task, at, allowed), 0);
    case _ =>
  }

  /** What is destined stays so with every step, and is what is left in the end. */
  lemma DestinyStays(s: System, now: int, lockOf: Key -> Lock)
    requires Alone(s)
    ensures
      var next := Stepped(s, 0, now, lockOf);
      && Alone(next)
      && Destined(next.processes[0], Seen(next.rows, 0), now) == Destined(s.processes[0], Seen(s.rows, 0), now)
  {
    hide Seen, Kept, Stored, Deleted, CountSince, WithoutKeys, WithoutExpired, Rows;
    StayingAlone(s, now, lockOf);
    var Process(task, phase) := s.processes[0];
    var seen := Seen(s.rows, 0);
    match phase
    case Locking(taken) =>
      if taken == |task.keys| && task.RecordSuccess? {
        CommitIsSeen(s, []);
        assert seen + [] == seen;
        WithoutNoKeys(seen);
        assert task.keys[taken..] == [];
      }
    case Clearing(taken) =>
      DeletedByItself(s.rows, 0, task.keys[taken]);
      WithoutMoreKeys(seen, [task.keys[taken]], task.keys[taken + 1..]);
      assert task.keys[taken..] == [task.keys[taken]] + task.keys[taken + 1..];
    case Cleaning(at) =>
      DeletedByItself(s.rows, at - RETENTION, 0);
      CleanedIsAsAdmissible(seen, task.keys, task.policy, at);
      assert task.keys[0..] == task.keys;
    case Counting(at, counted, allowed) =>
      if counted < |task.keys| {
        AdmissibleFirst(seen, task.keys[counted..], task.policy, at);
        assert task.keys[counted..][1..] == task.keys[counted + 1..];
      } else {
        CommitIsSeen(s, InsertedBy(task, at, allowed));
      }
    case Finished =>
  }

  lemma CommitIsSeen(s: System, inserted: seq<Attempt>)
    requires |s.processes| == 1
    ensures Seen(Committed(s, 0, inserted).rows, 0) == Seen(s.rows, 0) + inserted
  {
    hide Seen, Kept, Stored;
    SeenAdds(Kept(s.rows, 0), Stored(inserted), 0);
    StoredIsSeen(inserted, 0);
    KeptIsSeen(s.rows, 0);
  }

  lemma {:induction false} KeptIsSeen(rows: seq<Row>, p: nat)
    ensures Seen(Kept(rows, p), p) == Seen(rows, p)
  {
    if rows != [] {
      KeptIsSeen(rows[1..], p);
      SeenFirst(rows[0], Kept(rows[1..], p), p);
    }
  }

  lemma {:induction false} RunsAlone(s: System, now: int, lockOf: Key -> Lock) returns (schedule: seq<Move>)
    requires Alone(s) && |s.processes| == 1
    ensures
      var t := Run(s, schedule, lockOf);
      Alone(t) && |t.processes| == 1 && AllFinished(t)
        && Seen(t.rows, 0) == Destined(s.processes[0], Seen(s.rows, 0), now)
    decreases Left(s.processes[0])
  {
    hide Alone, Destined, Seen, Run, Stepped, Blocked;
    if s.processes[0].phase.Finished? {
      schedule := [];
      RunNone(s, lockOf);
      FinishedDestiny(s, now);
    } else {
      var next := Advanced(s, 0, now, lockOf);
      AloneDoesNotWait(s, lockOf);
      DestinyStays(s, now, lockOf);
      AloneComesCloser(s, now, lockOf);
      var rest := RunsAlone(next, now, lockOf);
      schedule := [Move(0, now)] + rest;
      RunFirst(s, Move(0, now), rest, lockOf);
    }
  }

  lemma {:induction false} UndeletedIsSeen(rows: seq<Row>, p: nat)
    requires forall r | r in rows :: r.deleter.None?
    ensures Seen(rows, p) == Attempts(rows)
  {
    if rows != [] { UndeletedIsSeen(rows[1..], p); }
  }

  /** A transaction that nobody interleaves with runs to its end and leaves what its method leaves. */
  lemma TransactionAlone(
    attempts: seq<Attempt>, task: Task, now: int, lockOf: Key -> Lock)
    returns (schedule: seq<Move>)
    ensures
      var t := Run(System(Stored(attempts), map[], [Process(task, Locking(0))]), schedule, lockOf);
      && AllFinished(t)
      && Attempts(t.rows)
         == if task.Take? then
              TakeCommitted(attempts, task.keys, task.succeeded, now, Admissible(attempts, task.keys, task.policy, now))
            else WithoutKeys(attempts, task.keys)
  {
    hide Run, Seen, Attempts, Stored, TakeCommitted, Admissible, WithoutKeys;
    var s := System(Stored(attempts), map[], [Process(task, Locking(0))]);
    StoredIsSeen(attempts, 0);
    schedule := RunsAlone(s, now, lockOf);
    UndeletedIsSeen(Run(s, schedule, lockOf).rows, 0);
    assert task.keys[0..] == task.keys;
  }

  lemma FinishedDestiny(s: System, now: int)
    requires Alone(s) && s.processes[0].phase.Finished?
    ensures AllFinished(s) && Destined(s.processes[0], Seen(s.rows, 0), now) == Seen(s.rows, 0)
  {
  }

  lemma AloneComesCloser(s: System, now: int, lockOf: Key -> Lock)
    requires Alone(s) && !s.processes[0].phase.Finished?
    ensures |s.processes| == |Stepped(s, 0, now, lockOf).processes| == 1
    ensures 0 <= Left(Stepped(s, 0, now, lockOf).processes[0]) < Left(s.processes[0])
  {
    hide Kept, Stored, Deleted, Below, Rows;
  }
}
