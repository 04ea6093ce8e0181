/** The sliding-window limit of access keys: pruned queues that decide like the full history. */
module RateLimit {
  import opened Options

  type Key = string

  const WINDOW: real := 60.0

  datatype Call = Call(key: Key, limit: Option<int>, now: real)

  // The admissions of every key since the start, oldest first.
  type History = map<Key, seq<real>>

  function Of(h: History, k: Key): seq<real> {
    if k in h then h[k] else []
  }

  /** How many of `times` lie in the window that ends at `now`. */
  function CountInWindow(times: seq<real>, now: real): (n: nat)
    ensures n <= |times|
  {
    if times == [] then 0
    else CountInWindow(times[..|times| - 1], now) + if now - WINDOW < times[|times| - 1] <= now then 1 else 0
  }

  /** The reference: a call is admitted when its key is unlimited, or when the window that ends now
      holds fewer admissions than the limit. */
  predicate Admits(h: History, c: Call) {
    c.limit.None? || (c.limit.value > 0 && CountInWindow(Of(h, c.key), c.now) < c.limit.value)
  }

  // Unlimited calls are not recorded.
  function Recorded(h: History, c: Call): History {
    if c.limit.Some? && Admits(h, c) then h[c.key := Of(h, c.key) + [c.now]] else h
  }

  // --- The window bound ---

  predicate Sorted(times: seq<real>) {
    forall i, j :: 0 <= i <= j < |times| ==> times[i] <= times[j]
  }

  function HistoryOf(calls: seq<Call>): History {
    if calls == [] then map[] else Recorded(HistoryOf(calls[..|calls| - 1]), calls[|calls| - 1])
  }

  predicate InOrder(calls: seq<Call>) {
    forall i, j :: 0 <= i <= j < |calls| ==> calls[i].now <= calls[j].now
  }

  /** All calls of `k` come with the same limit. */
  predicate FixedLimit(calls: seq<Call>, k: Key, limit: int) {
    forall i :: 0 <= i < |calls| && calls[i].key == k ==> calls[i].limit == Some(limit)
  }

  // A later window that contains no new admission holds no more of the old ones.
  lemma {:induction false} WindowMoves(times: seq<real>, a: real, t: real)
    requires forall i :: 0 <= i < |times| ==> times[i] <= a
    ensures a <= t ==> CountInWindow(times, t) <= CountInWindow(times, a)
    decreases |times|
  {
    if times != [] {
      WindowMoves(times[..|times| - 1], a, t);
    }
  }

  lemma {:induction false} HistoryBounded(calls: seq<Call>, k: Key, now: real)
    requires InOrder(calls) && forall i :: 0 <= i < |calls| ==> calls[i].now <= now
    ensures Sorted(Of(HistoryOf(calls), k))
    ensures forall i :: 0 <= i < |Of(HistoryOf(calls), k)| ==> Of(HistoryOf(calls), k)[i] <= now
    decreases |calls|
  {
    if calls != [] {
      var last := calls[|calls| - 1];
      assert forall i :: 0 <= i < |calls| ==> calls[i].now <= last.now;
      HistoryBounded(calls[..|calls| - 1], k, last.now);
    }
  }

  /** For a clock that never goes back and a fixed limit, no window of a minute ever contains more
      admissions of a key than the limit allows. */
  lemma {:induction false} NoWindowOverLimit(calls: seq<Call>, k: Key, limit: int, t: real)
    requires InOrder(calls) && FixedLimit(calls, k, limit)
    ensures CountInWindow(Of(HistoryOf(calls), k), t) <= if limit > 0 then limit else 0
    decreases |calls|
  {
    if calls != [] {
      var before, last := calls[..|calls| - 1], calls[|calls| - 1];
      NoWindowOverLimit(before, k, limit, t);
      var times := Of(HistoryOf(before), k);
      if Of(HistoryOf(calls), k) != times {
        assert Of(HistoryOf(calls), k) == times + [last.now];
        assert (times + [last.now])[..|times|] == times;
        HistoryBounded(before, k, last.now);
        WindowMoves(times, last.now, t);
      }
    }
  }

  // Without the admissions up to a minute ago or with the `n` last ones inside, the count is below or above.
  lemma NthLast(times: seq<real>, now: real, n: nat)
    requires Sorted(times) && (forall i :: 0 <= i < |times| ==> times[i] <= now) && n > 0
    ensures CountInWindow(times, now) >= n <==> |times| >= n && now - times[|times| - n] < 60.0
  {
    if |times| >= n {
      var k := |times| - n;
      if now - times[k] < 60.0 {
        CountSplits(times[..k], times[k..], now);
        CountAll(times[k..], now, true);
        assert times == times[..k] + times[k..];
      } else {
        CountSplits(times[..k + 1], times[k + 1..], now);
        CountAll(times[..k + 1], now, false);
        assert times == times[..k + 1] + times[k + 1..];
      }
    }
  }

  /** A call with a limit of `n` is refused exactly if the `n`-th last admission of its key is less than a minute
      old, or `n` is not positive; only an admitted call is recorded, and only for its own key. */
  lemma RefusedExactlyWhen(calls: seq<Call>, c: Call)
    requires InOrder(calls + [c]) && c.limit.Some?
    ensures var times, after, n := Of(HistoryOf(calls), c.key), HistoryOf(calls + [c]), c.limit.value;
      && (!Admits(HistoryOf(calls), c) <==>
          n <= 0 || (|times| >= n && c.now - times[|times| - n] < 60.0))
      && Of(after, c.key) == (if Admits(HistoryOf(calls), c) then times + [c.now] else times)
      && forall k: Key :: k != c.key ==> Of(after, k) == Of(HistoryOf(calls), k)
  {
    assert (calls + [c])[..|calls|] == calls;
    assert forall i :: 0 <= i < |calls| ==> (calls + [c])[i] == calls[i] && (calls + [c])[|calls|] == c;
    HistoryBounded(calls, c.key, c.now);
    if c.limit.value > 0 {
      NthLast(Of(HistoryOf(calls), c.key), c.now, c.limit.value);
    }
  }

  // --- The implementation ---

  /** `queue` is what is left of `times` when some old ones at the front are dropped. */
  predicate Pruned(queue: seq<real>, times: seq<real>, cutoff: real) {
    && |queue| <= |times| && queue == times[|times| - |queue|..]
    && forall i :: 0 <= i < |times| - |queue| ==> times[i] <= cutoff
  }

  lemma {:induction false} CountSplits(a: seq<real>, b: seq<real>, now: real)
    ensures CountInWindow(a + b, now) == CountInWindow(a, now) + CountInWindow(b, now)
    decreases |b|
  {
    if b == [] {
      assert a + b == a;
    } else {
      assert (a + b)[..|a + b| - 1] == a + b[..|b| - 1];
      CountSplits(a, b[..|b| - 1], now);
    }
  }

  lemma {:induction false} CountAll(times: seq<real>, now: real, inside: bool)
    requires forall i :: 0 <= i < |times| ==> (now - WINDOW < times[i] <= now) == inside
    ensures CountInWindow(times, now) == if inside then |times| else 0
    decreases |times|
  {
    if times != [] {
      CountAll(times[..|times| - 1], now, inside);
    }
  }

  /** The queue of one key fits its history at time `now`. */
  predicate Fits(queue: seq<real>, times: seq<real>, now: real) {
    && Pruned(queue, times, now - WINDOW) && Sorted(times)
    && forall i :: 0 <= i < |times| ==> times[i] <= now
  }

  lemma FitsLater(queue: seq<real>, times: seq<real>, clock: real, now: real)
    requires Fits(queue, times, clock) && clock <= now
    ensures Fits(queue, times, now)
  {
  }

  lemma FitsAppended(queue: seq<real>, times: seq<real>, now: real)
    requires Fits(queue, times, now)
    ensures Fits(queue + [now], times + [now], now)
  {
    assert (times + [now])[|times| - |queue|..] == times[|times| - |queue|..] + [now];
  }

  lemma PrunedEntries(queue: seq<real>, times: seq<real>, now: real)
    requires Fits(queue, times, now) && (queue != [] ==> queue[0] > now - WINDOW)
    ensures forall i :: 0 <= i < |queue| ==> now - WINDOW < queue[i] <= now
  {
  }

  // A queue pruned up to the window start has exactly the admissions in the window.
  lemma PrunedCounts(queue: seq<real>, times: seq<real>, now: real)
    requires Fits(queue, times, now) && (queue != [] ==> queue[0] > now - WINDOW)
    ensures CountInWindow(times, now) == |queue|
  {
    var dropped := times[..|times| - |queue|];
    assert times == dropped + queue;
    PrunedEntries(queue, times, now);
    hide CountInWindow;
    CountSplits(dropped, queue, now);
    CountAll(dropped, now, false);
    CountAll(queue, now, true);
  }

  /** Drops what is no younger than a window from the front. */
  method PopOld(queue0: seq<real>, now: real, ghost times: seq<real>) returns (queue: seq<real>)
    requires Fits(queue0, times, now)
    ensures Fits(queue, times, now) && (queue != [] ==> queue[0] > now - WINDOW)
  {
    queue := queue0;
    while queue != [] && queue[0] <= now - WINDOW
      invariant Fits(queue, times, now)
    {
      assert queue[0] == times[|times| - |queue|];
      queue := queue[1..];
    }
  }

  class RateLimiter {
    var requests: map<Key, seq<real>>
    var lastSweep: real
    // All admissions, and the time of the last call.
    ghost var history: History
    ghost var clock: real

    ghost predicate Tracks(now: real)
      reads this
    {
      forall k: Key :: Fits(Of(requests, k), Of(history, k), now)
    }

    ghost predicate Valid()
      reads this
    {
      Tracks(clock)
    }

    constructor (clock: real)
      ensures Valid() && history == map[] && this.clock == clock
    {
      requests, lastSweep, history, this.clock := map[], 0.0, map[], clock;
    }

    method Sweep(now: real)
      requires Tracks(now)
      modifies this`requests, this`lastSweep
      ensures Tracks(now)
    {
      hide Fits;
      var todo := requests.Keys;
      while todo != {}
        invariant Tracks(now)
        decreases |todo|
      {
        var k: Key :| k in todo;
        todo := todo - {k};
        var queue := PopOld(Of(requests, k), now, Of(history, k));
        requests := if queue == [] then requests - {k} else requests[k := queue];
      }
      lastSweep := now;
    }

    /** False is the refusal with status 429. */
    method EnforceAccessKeyRateLimit(c: Call) returns (admitted: bool)
      requires Valid() && clock <= c.now
      modifies this
      ensures Valid() && clock == c.now
      ensures admitted == Admits(old(history), c)
      ensures history == Recorded(old(history), c)
    {
      hide Fits, CountInWindow;
      forall k: Key ensures Fits(Of(requests, k), Of(history, k), c.now) {
        FitsLater(Of(requests, k), Of(history, k), clock, c.now);
      }
      clock := c.now;
      if c.limit.None? {
        return true;
      }
      if c.limit.value <= 0 {
        return false;
      }
      if c.now - lastSweep >= WINDOW {
        Sweep(c.now);
      }
      admitted := CheckKey(c.key, c.limit.value, c.now);
    }

    method CheckKey(k: Key, limit: int, now: real) returns (admitted: bool)
      requires Tracks(now)
      modifies this`requests, this`history
      ensures Tracks(now)
      ensures admitted <==> CountInWindow(Of(old(history), k), now) < limit
      ensures history == if admitted then old(history)[k := Of(old(history), k) + [now]] else old(history)
    {
      hide Fits, CountInWindow;
      var queue := PopOld(Of(requests, k), now, Of(history, k));
      requests := requests[k := queue];
      PrunedCounts(queue, Of(history, k), now);
      if |queue| >= limit {
        return false;
      }
      ghost var times := Of(history, k);
      FitsAppended(queue, times, now);
      requests := requests[k := queue + [now]];
      history := history[k := times + [now]];
      assert Of(requests, k) == queue + [now] && Of(history, k) == times + [now];
      assert forall x: Key ::
        x != k ==> Of(requests, x) == Of(old(requests), x) && Of(history, x) == Of(old(history), x);
      return true;
    }
  }
}
