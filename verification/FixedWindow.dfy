/**
 The fixed-window request limiter of `internal/ratelimit/ratelimit.go`.  A time is the
 number of nanoseconds since the zero time of the source, which is what an absent
 bucket's start reads as.
 */
module FixedWindow {

  type Key = string

  datatype Bucket = Bucket(start: nat, count: nat)

  datatype Answer = Answer(allowed: bool, wait: int)

  datatype Call = Call(key: Key, at: nat)

  const PRUNE_THRESHOLD := 10_000

  function Lookup(windows: map<Key, Bucket>, key: Key): Bucket {
    if key in windows then windows[key] else Bucket(0, 0)
  }

  /** The bucket a call counts in: the stored one, or a new one when the stored one's window has passed. */
  function Current(stored: Bucket, at: nat, window: int): Bucket {
    if at - stored.start >= window then Bucket(at, 0) else stored
  }

  function AnswerOf(current: Bucket, at: nat, limit: int, window: int): Answer {
    if current.count >= limit then Answer(false, current.start + window - at) else Answer(true, 0)
  }

  function Kept(windows: map<Key, Bucket>, at: nat, window: int): map<Key, Bucket> {
    map key | key in windows && at - windows[key].start < window :: windows[key]
  }

  function Counted(windows: map<Key, Bucket>, call: Call, limit: int, window: int): map<Key, Bucket> {
    var current := Current(Lookup(windows, call.key), call.at, window);
    if current.count >= limit then windows else windows[call.key := current.(count := current.count + 1)]
  }

  /** The buckets a call looks at: those of the limiter, pruned when there are many. */
  function Seen(windows: map<Key, Bucket>, at: nat, window: int, threshold: int): map<Key, Bucket> {
    if |windows| > threshold then Kept(windows, at, window) else windows
  }

  class Window {
    const limit: int
    const window: int
    var windows: map<Key, Bucket>

    constructor (limit: int, window: int)
      ensures this.limit == limit && this.window == window && windows == map[]
    {
      this.limit, this.window, windows := limit, window, map[];
    }

    method Prune(at: nat)
      modifies this`windows
      ensures windows == Kept(old(windows), at, window)
    {
      var remaining := windows.Keys;
      while remaining != {}
        invariant remaining <= windows.Keys <= old(windows.Keys)
        invariant forall key | key in old(windows) ::
                    key in windows <==> key in remaining || at - old(windows)[key].start < window
        invariant forall key | key in windows :: windows[key] == old(windows)[key]
        decreases |remaining|
      {
        var key :| key in remaining;
        remaining := remaining - {key};
        if at - windows[key].start >= window {
          windows := windows - {key};
        }
      }
    }

    method Allow(key: Key, at: nat) returns (allowed: bool, wait: int)
      modifies this`windows
      ensures
        var seen := Seen(old(windows), at, window, PRUNE_THRESHOLD);
        && Answer(allowed, wait) == AnswerOf(Current(Lookup(seen, key), at, window), at, limit, window)
        && windows == Counted(seen, Call(key, at), limit, window)
    {
      if |windows| > PRUNE_THRESHOLD {
        Prune(at);
      }
      var current := if key in windows then windows[key] else Bucket(0, 0);
      if at - current.start >= window {
        current := Bucket(at, 0);
      }
      if current.count >= limit {
        return false, current.start + window - at;
      }
      current := current.(count := current.count + 1);
      windows := windows[key := current];
      return true, 0;
    }
  }

  // ---- runs -------------------------------------------------------------------------------------------------------

  ghost predicate Clocked(trace: seq<Call>, from: nat) {
    (forall i | 0 <= i < |trace| :: from <= trace[i].at)
    && (forall i, j | 0 <= i < j < |trace| :: trace[i].at <= trace[j].at)
  }

  /** The answers to a sequence of calls, of a limiter that prunes above a threshold. */
  function Answers(
    windows: map<Key, Bucket>, trace: seq<Call>, limit: int, window: int, threshold: int): (answers: seq<Answer>)
    ensures |answers| == |trace|
    decreases |trace|
  {
    if trace == [] then []
    else
      var call := trace[0];
      var seen := Seen(windows, call.at, window, threshold);
      [AnswerOf(Current(Lookup(seen, call.key), call.at, window), call.at, limit, window)]
      + Answers(Counted(seen, call, limit, window), trace[1..], limit, window, threshold)
  }

  /** The answers of a limiter that never deletes a bucket. */
  function ReferenceAnswers(
    windows: map<Key, Bucket>, trace: seq<Call>, limit: int, window: int): (answers: seq<Answer>)
    ensures |answers| == |trace|
    decreases |trace|
  {
    if trace == [] then []
    else
      var call := trace[0];
      [AnswerOf(Current(Lookup(windows, call.key), call.at, window), call.at, limit, window)]
      + ReferenceAnswers(Counted(windows, call, limit, window), trace[1..], limit, window)
  }

  // ---- pruning is invisible ---------------------------------------------------------------------------------------

  /** Two sets of buckets that no call from a time on can tell apart. */
  ghost predicate Alike(one: map<Key, Bucket>, other: map<Key, Bucket>, from: nat, window: int) {
    forall key: Key, at: nat | from <= at ::
      Current(Lookup(one, key), at, window) == Current(Lookup(other, key), at, window)
  }

  lemma PrunedAlike(one: map<Key, Bucket>, other: map<Key, Bucket>, from: nat, window: int, threshold: int)
    requires Alike(one, other, from, window)
    ensures Alike(Seen(one, from, window, threshold), other, from, window)
  {
    forall key: Key, at: nat | from <= at
      ensures Current(Lookup(Seen(one, from, window, threshold), key), at, window)
              == Current(Lookup(other, key), at, window)
    {
      assert Current(Lookup(one, key), at, window) == Current(Lookup(other, key), at, window);
    }
  }

  lemma CountedAlike(one: map<Key, Bucket>, other: map<Key, Bucket>, call: Call, limit: int, window: int)
    requires Alike(one, other, call.at, window)
    ensures Alike(Counted(one, call, limit, window), Counted(other, call, limit, window), call.at, window)
  {
    assert Current(Lookup(one, call.key), call.at, window) == Current(Lookup(other, call.key), call.at, window);
    var after, otherAfter := Counted(one, call, limit, window), Counted(other, call, limit, window);
    forall key: Key, at: nat | call.at <= at
      ensures Current(Lookup(after, key), at, window) == Current(Lookup(otherAfter, key), at, window)
    {
      assert Current(Lookup(one, key), at, window) == Current(Lookup(other, key), at, window);
    }
  }

  /**
   Whenever the buckets are alike, the limiter that prunes and the one that never does
   answer alike, whatever the threshold.
   */
  lemma {:induction false} PruningIsInvisible(
    one: map<Key, Bucket>, other: map<Key, Bucket>, trace: seq<Call>, from: nat, limit: int, window: int,
    threshold: int)
    requires Clocked(trace, from) && Alike(one, other, from, window)
    ensures Answers(one, trace, limit, window, threshold) == ReferenceAnswers(other, trace, limit, window)
    decreases |trace|
  {
    if trace != [] {
      var call := trace[0];
      var seen := Seen(one, call.at, window, threshold);
      assert Alike(one, other, call.at, window);
      PrunedAlike(one, other, call.at, window, threshold);
      assert Current(Lookup(seen, call.key), call.at, window) == Current(Lookup(other, call.key), call.at, window);
      CountedAlike(seen, other, call, limit, window);
      PruningIsInvisible(
        Counted(seen, call, limit, window), Counted(other, call, limit, window), trace[1..], call.at, limit, window,
        threshold);
    }
  }

  // ---- how many calls are admitted --------------------------------------------------------------------------------

  /** The calls of a key that were allowed at a time from `lo` up to but not including `hi`. */
  function Admitted(trace: seq<Call>, answers: seq<Answer>, key: Key, lo: int, hi: int): nat
    requires |answers| == |trace|
  {
    if trace == [] then 0
    else (if trace[0].key == key && answers[0].allowed && lo <= trace[0].at < hi then 1 else 0)
         + Admitted(trace[1..], answers[1..], key, lo, hi)
  }

  function AtLeastZero(n: int): nat {
    if n < 0 then 0 else n
  }

  /**
   What can still be admitted in an interval as long as the window, given the key's
   bucket: inside the bucket's own window only what is left of it; when the interval
   reaches beyond it, a full further bucket; and afterwards two buckets, less the call
   that started the first of them.
   */
  function Room(bucket: Bucket, lo: int, limit: int, window: int): nat {
    if lo <= bucket.start then AtLeastZero(limit - bucket.count)
    else if lo < bucket.start + window then AtLeastZero(limit - bucket.count) + AtLeastZero(limit)
    else AtLeastZero(2 * limit - 1)
  }

  lemma {:induction false} NoneBefore(trace: seq<Call>, answers: seq<Answer>, key: Key, from: nat, lo: int, hi: int)
    requires |answers| == |trace| && Clocked(trace, from) && hi <= from
    ensures Admitted(trace, answers, key, lo, hi) == 0
  {
    if trace != [] { NoneBefore(trace[1..], answers[1..], key, trace[0].at, lo, hi); }
  }

  /** A call takes from the room what it is admitted for. */
  lemma CallFitsTheRoom(windows: map<Key, Bucket>, call: Call, key: Key, lo: int, limit: int, window: int)
    requires Lookup(windows, key).start <= call.at < lo + window
    ensures
      var answer := AnswerOf(Current(Lookup(windows, call.key), call.at, window), call.at, limit, window);
      var after := Lookup(Counted(windows, call, limit, window), key);
      && after.start <= call.at
      && (if call.key == key && answer.allowed && lo <= call.at then 1 else 0) + Room(after, lo, limit, window)
         <= Room(Lookup(windows, key), lo, limit, window)
  {
  }

  lemma {:induction false} AdmittedFitsTheRoom(
    windows: map<Key, Bucket>, trace: seq<Call>, key: Key, from: nat, lo: int, limit: int, window: int)
    requires Clocked(trace, from) && Lookup(windows, key).start <= from
    ensures Admitted(trace, ReferenceAnswers(windows, trace, limit, window), key, lo, lo + window)
         <= Room(Lookup(windows, key), lo, limit, window)
    decreases |trace|
  {
    if trace != [] {
      if lo + window <= trace[0].at {
        NoneBefore(trace, ReferenceAnswers(windows, trace, limit, window), key, trace[0].at, lo, lo + window);
      } else {
        hide Room, Counted, Lookup, Current, AnswerOf;
        var call := trace[0];
        var after := Counted(windows, call, limit, window);
        assert ReferenceAnswers(windows, trace, limit, window)[1..]
          == ReferenceAnswers(after, trace[1..], limit, window);
        CallFitsTheRoom(windows, call, key, lo, limit, window);
        AdmittedFitsTheRoom(after, trace[1..], key, call.at, lo, limit, window);
      }
    }
  }

  /**
   Over every run, and in every interval as long as the window, a key is admitted at most
   twice the limit, and one time fewer unless the interval starts within a window of the
   zero time.
   */
  lemma AtMostTwiceTheLimit(trace: seq<Call>, key: Key, lo: int, limit: int, window: int, threshold: int)
    requires Clocked(trace, 0)
    ensures
      var admitted := Admitted(trace, Answers(map[], trace, limit, window, threshold), key, lo, lo + window);
      && admitted <= 2 * AtLeastZero(limit)
      && (lo >= window ==> admitted <= AtLeastZero(2 * limit - 1))
  {
    PruningIsInvisible(map[], map[], trace, 0, limit, window, threshold);
    AdmittedFitsTheRoom(map[], trace, key, 0, lo, limit, window);
  }

  /**
   After a denial, whatever else is called in between, every call of the key before the
   announced wait is over is denied, and the first one after it is allowed.
   */
  lemma DenialLastsExactlyTheWait(
    windows: map<Key, Bucket>, trace: seq<Call>, limit: int, window: int, threshold: int, i: nat)
    requires Clocked(trace, 0) && limit > 0 && 0 < i < |trace| && trace[i].key == trace[0].key
    requires !Answers(windows, trace, limit, window, threshold)[0].allowed
    ensures
      var answers := Answers(windows, trace, limit, window, threshold);
      var over := trace[0].at + answers[0].wait;
      && answers[0].wait > 0
      && (trace[i].at < over ==> !answers[i].allowed && trace[i].at + answers[i].wait == over)
      && (trace[i].at >= over && (forall j | 0 < j < i && trace[j].key == trace[0].key :: trace[j].at < over)
         ==> answers[i].allowed)
  {
    PruningIsInvisible(windows, windows, trace, 0, limit, window, threshold);
    var bucket := Lookup(windows, trace[0].key);
    assert ReferenceAnswers(windows, trace, limit, window)[1..] == ReferenceAnswers(windows, trace[1..], limit, window);
    FullBucketDenies(windows, trace[1..], trace[0].key, limit, window, i - 1);
  }

  lemma {:induction false} FullBucketDenies(
    windows: map<Key, Bucket>, trace: seq<Call>, key: Key, limit: int, window: int, i: nat)
    requires Clocked(trace, 0) && limit > 0 && i < |trace| && trace[i].key == key
    requires Lookup(windows, key).count >= limit
    ensures
      var answers := ReferenceAnswers(windows, trace, limit, window);
      var over := Lookup(windows, key).start + window;
      && (trace[i].at < over ==> answers[i] == Answer(false, over - trace[i].at))
      && (trace[i].at >= over && (forall j | 0 <= j < i && trace[j].key == key :: trace[j].at < over)
         ==> answers[i].allowed)
    decreases |trace|
  {
    if i > 0 {
      var after := Counted(windows, trace[0], limit, window);
      assert ReferenceAnswers(windows, trace, limit, window)[i]
        == ReferenceAnswers(after, trace[1..], limit, window)[i - 1];
      if trace[0].key != key || trace[0].at < Lookup(windows, key).start + window {
        assert Lookup(after, key) == Lookup(windows, key);
        FullBucketDenies(after, trace[1..], key, limit, window, i - 1);
      }
    }
  }

  // ---- each key has a limit of its own ----------------------------------------------------------------------------

  function Own(trace: seq<Call>, key: Key): seq<Call> {
    if trace == [] then [] else (if trace[0].key == key then [trace[0]] else []) + Own(trace[1..], key)
  }

  function OwnAnswers(trace: seq<Call>, answers: seq<Answer>, key: Key): seq<Answer>
    requires |trace| == |answers|
  {
    if trace == [] then []
    else (if trace[0].key == key then [answers[0]] else []) + OwnAnswers(trace[1..], answers[1..], key)
  }

  /** The answers to the calls of a key are those there would be if no other key had been used. */
  lemma {:induction false} OtherKeysDoNotMatter(
    windows: map<Key, Bucket>, alone: map<Key, Bucket>, trace: seq<Call>, key: Key, limit: int, window: int)
    requires Lookup(windows, key) == Lookup(alone, key)
    ensures OwnAnswers(trace, ReferenceAnswers(windows, trace, limit, window), key)
         == ReferenceAnswers(alone, Own(trace, key), limit, window)
    decreases |trace|
  {
    if trace != [] {
      var call, rest := trace[0], Own(trace[1..], key);
      var after := Counted(windows, call, limit, window);
      var answers := ReferenceAnswers(windows, trace, limit, window);
      assert answers[1..] == ReferenceAnswers(after, trace[1..], limit, window);
      if call.key == key {
        assert ([call] + rest)[1..] == rest;
        OtherKeysDoNotMatter(after, Counted(alone, call, limit, window), trace[1..], key, limit, window);
      } else {
        OtherKeysDoNotMatter(after, alone, trace[1..], key, limit, window);
        assert Own(trace, key) == rest;
      }
    }
  }

  lemma {:induction false} BucketFills(
    windows: map<Key, Bucket>, trace: seq<Call>, key: Key, limit: int, window: int, i: nat)
    requires forall j | 0 <= j < |trace| :: trace[j].key == key && trace[j].at < Lookup(windows, key).start + window
    requires i < |trace|
    ensures
      var answer := ReferenceAnswers(windows, trace, limit, window)[i];
      && (answer.allowed <==> Lookup(windows, key).count + i < limit)
      && answer.wait == if answer.allowed then 0 else Lookup(windows, key).start + window - trace[i].at
    decreases |trace|
  {
    if i > 0 {
      var after := Counted(windows, trace[0], limit, window);
      assert Lookup(after, key).start == Lookup(windows, key).start;
      BucketFills(after, trace[1..], key, limit, window, i - 1);
    }
  }

  /**
   From the call of a key that opens a window the first calls up to the limit are admitted
   and all others of the window are denied, with the rest of the window to wait.
   */
  lemma EachWindowAdmitsTheLimit(
    windows: map<Key, Bucket>, trace: seq<Call>, key: Key, limit: nat, window: nat, i: nat)
    requires forall j | 0 <= j < |trace| :: trace[j].key == key && trace[j].at < trace[0].at + window
    requires limit > 0 && i < |trace| && Lookup(windows, key).start + window <= trace[0].at
    ensures
      var answer := ReferenceAnswers(windows, trace, limit, window)[i];
      && (answer.allowed <==> i < limit)
      && answer.wait == if answer.allowed then 0 else trace[0].at + window - trace[i].at
  {
    if i > 0 {
      var first := Counted(windows, trace[0], limit, window);
      assert first[key] == Bucket(trace[0].at, 1);
      BucketFills(first, trace[1..], key, limit, window, i - 1);
    }
  }

  /** So it is for a key not seen before when the clock is within a window of the zero time, which opens its window. */
  lemma FirstWindowAdmitsTheLimit(
    windows: map<Key, Bucket>, trace: seq<Call>, key: Key, limit: nat, window: nat, i: nat)
    requires key !in windows && i < |trace|
    requires forall j | 0 <= j < |trace| :: trace[j].key == key && trace[j].at < window
    ensures
      var answer := ReferenceAnswers(windows, trace, limit, window)[i];
      && (answer.allowed <==> i < limit)
      && answer.wait == if answer.allowed then 0 else window - trace[i].at
  {
    BucketFills(windows, trace, key, limit, window, i);
  }

  /** Pruning takes the buckets that no later call counts in, and only when there are many. */
  lemma PruningTakesWhatHasPassed(windows: map<Key, Bucket>, at: nat, window: int, threshold: int, key: Key)
    requires key in windows && window > 0
    ensures
      var seen := Seen(windows, at, window, threshold);
      && (key in seen <==> |windows| <= threshold || Current(windows[key], at, window) == windows[key])
      && (key in seen ==> seen[key] == windows[key])
  {
  }

  // ---- the bound is met -------------------------------------------------------------------------------------------

  function Repeated(call: Call, n: nat): seq<Call> {
    seq(n, _ => call)
  }

  lemma {:induction false} RepeatedCallsFillTheBucket(
    windows: map<Key, Bucket>, key: Key, at: nat, n: nat, rest: seq<Call>, limit: int, window: int, lo: int, hi: int)
    requires key in windows && windows[key].start <= at < windows[key].start + window
    requires windows[key].count + n <= limit && lo <= at < hi
    ensures
      var after := windows[key := windows[key].(count := windows[key].count + n)];
      var trace := Repeated(Call(key, at), n) + rest;
      Admitted(trace, ReferenceAnswers(windows, trace, limit, window), key, lo, hi)
      == n + Admitted(rest, ReferenceAnswers(after, rest, limit, window), key, lo, hi)
    decreases n
  {
    var call := Call(key, at);
    var bucket := windows[key];
    if n == 0 {
      assert windows[key := bucket.(count := bucket.count + n)] == windows;
      assert Repeated(call, n) + rest == rest;
    } else {
      var trace := Repeated(call, n) + rest;
      assert trace[1..] == Repeated(call, n - 1) + rest && trace[0] == call;
      var next := Counted(windows, call, limit, window);
      assert next == windows[key := bucket.(count := bucket.count + 1)];
      RepeatedCallsFillTheBucket(next, key, at, n - 1, rest, limit, window, lo, hi);
      assert next[key := next[key].(count := next[key].count + (n - 1))]
        == windows[key := bucket.(count := bucket.count + n)];
    }
  }

  /** The call that opens a window and then as many as the rest of the limit: all are admitted. */
  lemma OpeningAndRest(
    windows: map<Key, Bucket>, key: Key, opening: nat, late: nat, rest: seq<Call>, limit: nat, window: nat, lo: int,
    hi: int)
    requires limit > 0 && Lookup(windows, key).start + window <= opening <= late < opening + window && lo <= late < hi
    ensures
      var trace := [Call(key, opening)] + (Repeated(Call(key, late), limit - 1) + rest);
      var full := windows[key := Bucket(opening, limit)];
      Admitted(trace, ReferenceAnswers(windows, trace, limit, window), key, lo, hi)
      == (if lo <= opening then 1 else 0) + (limit - 1)
        + Admitted(rest, ReferenceAnswers(full, rest, limit, window), key, lo, hi)
  {
    var tail := Repeated(Call(key, late), limit - 1) + rest;
    var trace := [Call(key, opening)] + tail;
    assert trace[1..] == tail;
    var started := windows[key := Bucket(opening, 1)];
    assert Counted(windows, trace[0], limit, window) == started;
    RepeatedCallsFillTheBucket(started, key, late, limit - 1, rest, limit, window, lo, hi);
    assert started[key := Bucket(opening, limit)] == windows[key := Bucket(opening, limit)];
  }

  function SecondHalf(key: Key, limit: nat, window: nat): seq<Call>
    requires limit > 0
  {
    [Call(key, 2 * window)] + (Repeated(Call(key, 2 * window), limit - 1) + [])
  }

  function Burst(key: Key, limit: nat, window: nat): seq<Call>
    requires limit > 0 && window > 0
  {
    [Call(key, window)] + (Repeated(Call(key, 2 * window - 1), limit - 1) + SecondHalf(key, limit, window))
  }

  lemma BurstClocked(key: Key, limit: nat, window: nat)
    requires limit > 0 && window > 0
    ensures Clocked(Burst(key, limit, window), 0)
  {
    var trace := Burst(key, limit, window);
    assert forall i | 0 <= i < |trace| ::
        trace[i].at == if i == 0 then window else if i < limit then 2 * window - 1 else 2 * window;
  }

  /** A burst at the end of one window and the start of the next: the sharper bound is reached, for every limit. */
  lemma BoundIsReached(key: Key, limit: nat, window: nat) returns (trace: seq<Call>, lo: int)
    requires limit > 0 && window > 1
    ensures lo >= window && Clocked(trace, 0)
    ensures Admitted(trace, Answers(map[], trace, limit, window, PRUNE_THRESHOLD), key, lo, lo + window)
            == 2 * limit - 1
  {
    trace := Burst(key, limit, window);
    lo := 2 * window - 1;
    BurstClocked(key, limit, window);
    PruningIsInvisible(map[], map[], trace, 0, limit, window, PRUNE_THRESHOLD);
    OpeningAndRest(map[], key, window, 2 * window - 1, SecondHalf(key, limit, window), limit, window, lo, lo + window);
    OpeningAndRest(map[key := Bucket(window, limit)], key, 2 * window, 2 * window, [], limit, window, lo, lo + window);
  }
}
