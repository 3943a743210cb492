/** The in-memory fallback of the rate limiter (`core/ratelimit.py`): fixed windows, with an opportunistic
    purge of old buckets. Times are seconds of a monotone clock. */
module RateLimit {
  import opened Options

  datatype Bucket = Bucket(count: nat, start: real)

  type Buckets = map<string, Bucket>

  const MEM_MAX_KEYS := 10000
  const STALE_AFTER := 3600.0

  datatype Call = Call(key: string, limit: int, window: real, now: real)

  function Lookup(m: Buckets, key: string): Option<Bucket> {
    if key in m then Some(m[key]) else None
  }

  /** The bucket once the call is counted. */
  function Hit(b: Option<Bucket>, window: real, now: real): Bucket {
    if b.None? || now - b.value.start >= window then Bucket(1, now)
    else b.value.(count := b.value.count + 1)
  }

  predicate Allowed(m: Buckets, c: Call) {
    Hit(Lookup(m, c.key), c.window, c.now).count <= c.limit
  }

  function Kept(m: Buckets, c: Call): Buckets {
    m[c.key := Hit(Lookup(m, c.key), c.window, c.now)]
  }

  function Purged(m: Buckets, now: real): Buckets {
    map k | k in m && now - m[k].start <= STALE_AFTER :: m[k]
  }

  function Counted(m: Buckets, c: Call, maxKeys: nat): Buckets {
    var n := Kept(m, c);
    if |n| > maxKeys then Purged(n, c.now) else n
  }

  class MemoryLimiter {
    var buckets: Buckets

    constructor ()
      ensures buckets == map[]
    {
      buckets := map[];
    }

    method AllowInMemory(c: Call) returns (ok: bool)
      modifies this
      ensures ok == Allowed(old(buckets), c)
      ensures buckets == Counted(old(buckets), c, MEM_MAX_KEYS)
      ensures c.key !in old(buckets) || c.now - old(buckets)[c.key].start >= c.window ==> (ok <==> 1 <= c.limit)
      ensures c.key in old(buckets) && c.now - old(buckets)[c.key].start < c.window ==>
                (ok <==> old(buckets)[c.key].count < c.limit)
      ensures c.key in buckets ==>
                buckets[c.key] == if c.key !in old(buckets) || c.now - old(buckets)[c.key].start >= c.window
                                  then Bucket(1, c.now)
                                  else Bucket(old(buckets)[c.key].count + 1, old(buckets)[c.key].start)
      ensures forall k | k in buckets && k != c.key :: k in old(buckets) && buckets[k] == old(buckets)[k]
    {
      var count, start := 0, c.now;
      if c.key in buckets {
        count, start := buckets[c.key].count, buckets[c.key].start;
      }
      if c.now - start >= c.window {
        count, start := 0, c.now;
      }
      count := count + 1;
      buckets := buckets[c.key := Bucket(count, start)];
      if |buckets| > MEM_MAX_KEYS {
        EvictStale(c.now);
      }
      return count <= c.limit;
    }

    method EvictStale(now: real)
      modifies this
      ensures buckets == Purged(old(buckets), now)
    {
      var stale := set k | k in buckets && now - buckets[k].start > STALE_AFTER;
      ghost var all, before := stale, buckets;
      while stale != {}
        invariant stale <= all
        invariant forall k :: k in buckets <==> k in before && k !in all - stale
        invariant forall k | k in buckets :: buckets[k] == before[k]
        decreases |stale|
      {
        var k :| k in stale;
        buckets := buckets - {k};
        stale := stale - {k};
      }
      assert forall k | k in before :: k in all <==> now - before[k].start > STALE_AFTER;
      assert buckets == Purged(before, now);
    }
  }

  // ---- Eviction changes no decision ---------------------------------------------------------------

  /** The clock never goes back. */
  ghost predicate Monotone(calls: seq<Call>) {
    forall i, j | 0 <= i < j < |calls| :: calls[i].now <= calls[j].now
  }

  /** The table after the calls, each counted by `count`. */
  function Tables(count: (Buckets, Call) -> Buckets, calls: seq<Call>): Buckets {
    if calls == [] then map[] else count(Tables(count, calls[..|calls| - 1]), calls[|calls| - 1])
  }

  /** Calls of `key` let through at times in `[lo, hi)`. */
  function Passed(count: (Buckets, Call) -> Buckets, calls: seq<Call>, key: string, lo: real, hi: real): nat {
    if calls == [] then 0
    else
      var r, c := calls[..|calls| - 1], calls[|calls| - 1];
      Passed(count, r, key, lo, hi) + if c.key == key && lo <= c.now < hi && Allowed(Tables(count, r), c) then 1 else 0
  }

  function Purging(maxKeys: nat): (Buckets, Call) -> Buckets {
    (m, c) => Counted(m, c, maxKeys)
  }

  /** The limiter as it is, purging beyond `maxKeys` keys. */
  function Evicting(calls: seq<Call>, maxKeys: nat): Buckets {
    Tables(Purging(maxKeys), calls)
  }

  function Accepted(calls: seq<Call>, maxKeys: nat, key: string, lo: real, hi: real): nat {
    Passed(Purging(maxKeys), calls, key, lo, hi)
  }

  /** A limiter that never purges. */
  function Keeping(calls: seq<Call>): Buckets {
    Tables(Kept, calls)
  }

  function Recalled(calls: seq<Call>, key: string, lo: real, hi: real): nat {
    Passed(Kept, calls, key, lo, hi)
  }

  lemma OneMore(count: (Buckets, Call) -> Buckets, calls: seq<Call>, c: Call, key: string, lo: real, hi: real)
    ensures Tables(count, calls + [c]) == count(Tables(count, calls), c)
    ensures Passed(count, calls + [c], key, lo, hi) == Passed(count, calls, key, lo, hi)
            + if c.key == key && lo <= c.now < hi && Allowed(Tables(count, calls), c) then 1 else 0
  {
    assert (calls + [c])[..|calls|] == calls;
  }

  /** The purged table knows of `key` what the full one knows, or has dropped a bucket more than an hour old. */
  ghost predicate Forgot(e: Buckets, k: Buckets, key: string, now: real) {
    || Lookup(e, key) == Lookup(k, key)
    || (key !in e && key in k && now - k[key].start > STALE_AFTER)
  }

  /** The windows of `key` are of an hour at most; those of other keys are free. */
  ghost predicate ShortWindows(calls: seq<Call>, key: string) {
    forall i | 0 <= i < |calls| && calls[i].key == key :: calls[i].window <= STALE_AFTER
  }

  lemma {:induction false} ForgotInRuns(calls: seq<Call>, maxKeys: nat, key: string, now: real)
    requires Monotone(calls) && ShortWindows(calls, key)
    requires calls != [] ==> calls[|calls| - 1].now <= now
    ensures Forgot(Evicting(calls, maxKeys), Keeping(calls), key, now)
  {
    if calls != [] {
      var r, c := calls[..|calls| - 1], calls[|calls| - 1];
      assert r != [] ==> r[|r| - 1] == calls[|r| - 1];
      ForgotInRuns(r, maxKeys, key, c.now);
    }
  }

  /** The limiter that purges decides every call of a key whose windows are of at most an hour like one that never
      forgets, whatever the other keys and the number of keys that triggers the purge. */
  lemma EvictionIsInvisible(calls: seq<Call>, maxKeys: nat, i: nat)
    requires Monotone(calls) && i < |calls| && ShortWindows(calls, calls[i].key)
    ensures Allowed(Evicting(calls[..i], maxKeys), calls[i]) <==> Allowed(Keeping(calls[..i]), calls[i])
  {
    ForgotInRuns(calls[..i], maxKeys, calls[i].key, calls[i].now);
  }

  /** Forgetting the bucket does not change the decision of this call. */
  predicate ForgettingIsHarmless(b: Bucket, window: real, now: real, limit: int) {
    Hit(None, window, now).count <= limit <==> Hit(Some(b), window, now).count <= limit
  }

  /** One hour is the exact frontier: forgetting purgeable buckets is harmless for a window `w` if and only
      if `w` is at most 3600 seconds. */
  lemma HourIsTheFrontier(w: real)
    ensures (forall b: Bucket, now, limit | now - b.start > STALE_AFTER :: ForgettingIsHarmless(b, w, now, limit))
            <==> w <= STALE_AFTER
  {
    if w > STALE_AFTER {
      var b, now := Bucket(1, 0.0), (STALE_AFTER + w) / 2.0;
      assert now - b.start > STALE_AFTER && now - b.start < w;
      assert !ForgettingIsHarmless(b, w, now, 1);
    }
  }

  // ---- How many calls a span may hold ---------------------------------------------------------------

  lemma {:induction false} AcceptedIsRecalled(calls: seq<Call>, maxKeys: nat, key: string, lo: real, hi: real)
    requires Monotone(calls) && ShortWindows(calls, key)
    ensures Accepted(calls, maxKeys, key, lo, hi) == Recalled(calls, key, lo, hi)
  {
    if calls != [] {
      var r, c := calls[..|calls| - 1], calls[|calls| - 1];
      AcceptedIsRecalled(r, maxKeys, key, lo, hi);
      if c.key == key {
        EvictionIsInvisible(calls, maxKeys, |r|);
      }
    }
  }

  /** All the calls of one key come from one limiter. */
  ghost predicate SameLimiter(calls: seq<Call>, key: string, limit: int, window: real) {
    forall i | 0 <= i < |calls| && calls[i].key == key :: calls[i].limit == limit && calls[i].window == window
  }

  function Min(a: int, b: int): int {
    if a < b then a else b
  }

  /** What the bucket of a key says of the calls accepted from `lo` on: in the current window all but its
      first call come after its start, and the window before it can add `limit - 1` more. */
  ghost predicate Charged(b: Option<Bucket>, accepted: int, limit: int, window: real, lo: real) {
    match b
    case None => accepted == 0
    case Some(x) =>
      && x.count >= 1
      && (lo > x.start ==> accepted <= Min(x.count, limit) - 1)
      && (x.start - window < lo <= x.start ==> accepted <= limit - 1 + Min(x.count, limit))
  }

  lemma {:induction false} NoneAfter(calls: seq<Call>, key: string, lo: real, hi: real)
    requires forall i | 0 <= i < |calls| :: calls[i].now < lo
    ensures Recalled(calls, key, lo, hi) == 0
  {
    if calls != [] {
      NoneAfter(calls[..|calls| - 1], key, lo, hi);
    }
  }

  lemma {:induction false} BucketCharges(calls: seq<Call>, key: string, limit: int, window: real, lo: real, hi: real)
    requires Monotone(calls) && SameLimiter(calls, key, limit, window) && limit >= 1 && window > 0.0
    requires forall i | 0 <= i < |calls| :: calls[i].now < hi
    ensures Charged(Lookup(Keeping(calls), key), Recalled(calls, key, lo, hi), limit, window, lo)
  {
    if calls != [] {
      var r, c := calls[..|calls| - 1], calls[|calls| - 1];
      assert forall i | 0 <= i < |r| :: r[i] == calls[i] && r[i].now <= c.now;
      BucketCharges(r, key, limit, window, lo, hi);
      if c.key == key {
        var b := Lookup(Keeping(r), key);
        if b.Some? && c.now - b.value.start >= window {
          BucketCharges(r, key, limit, window, lo, hi);
        }
        if lo > c.now {
          NoneAfter(r, key, lo, hi);
        }
      }
    }
  }

  /** Any half-open span as long as the window holds at most `2 * limit - 1` calls that a limiter without purges lets
      through. */
  lemma {:induction false} RecalledBound(calls: seq<Call>, key: string, limit: int, window: real, t: real)
    requires Monotone(calls) && SameLimiter(calls, key, limit, window) && limit >= 1 && window > 0.0
    ensures Recalled(calls, key, t, t + window) <= 2 * limit - 1
    decreases |calls|
  {
    if calls != [] {
      var r, c := calls[..|calls| - 1], calls[|calls| - 1];
      if c.now >= t + window {
        RecalledBound(r, key, limit, window, t);
      } else {
        assert forall i | 0 <= i < |calls| :: calls[i].now <= c.now;
        BucketCharges(calls, key, limit, window, t, t + window);
        StartsInPast(calls, key);
      }
    }
  }

  /** With a window of at most an hour, any half-open span of that length holds at most `2 * limit - 1` accepted calls
      of a key, purges included. */
  lemma SpanBound(calls: seq<Call>, maxKeys: nat, key: string, limit: int, window: real, t: real)
    requires Monotone(calls) && SameLimiter(calls, key, limit, window) && limit >= 1 && 0.0 < window <= STALE_AFTER
    ensures Accepted(calls, maxKeys, key, t, t + window) <= 2 * limit - 1
  {
    AcceptedIsRecalled(calls, maxKeys, key, t, t + window);
    RecalledBound(calls, key, limit, window, t);
  }

  lemma {:induction false} StartsInPast(calls: seq<Call>, key: string)
    requires Monotone(calls) && calls != []
    ensures key in Keeping(calls) ==> Keeping(calls)[key].start <= calls[|calls| - 1].now
  {
    var r := calls[..|calls| - 1];
    assert Keeping(calls) == Kept(Keeping(r), calls[|calls| - 1]);
    if r != [] {
      StartsInPast(r, key);
      assert r[|r| - 1] == calls[|r| - 1];
    }
  }

  // ---- The bound is reached ---------------------------------------------------------------------------

  function Burst(c: Call, n: nat): seq<Call> {
    seq(n, _ => c)
  }

  function Counting(b: Bucket, n: nat): Bucket {
    b.(count := b.count + n)
  }

  lemma {:induction false} BurstAccepted(calls: seq<Call>, c: Call, n: nat, b: Bucket, lo: real, hi: real)
    requires Lookup(Keeping(calls), c.key) == Some(b) && c.now - b.start < c.window
    requires b.count + n <= c.limit && lo <= c.now < hi
    ensures Lookup(Keeping(calls + Burst(c, n)), c.key) == Some(Counting(b, n))
    ensures Recalled(calls + Burst(c, n), c.key, lo, hi) == Recalled(calls, c.key, lo, hi) + n
  {
    if n == 0 {
      assert calls + Burst(c, n) == calls;
    } else {
      BurstAccepted(calls, c, n - 1, b, lo, hi);
      assert calls + Burst(c, n) == calls + Burst(c, n - 1) + [c];
    }
  }

  lemma RecalledIsReached(first: Call, middle: Call, next: Call, limit: nat, t: real) returns (calls: seq<Call>)
    requires limit >= 1 && first.key == middle.key == next.key && first.limit == middle.limit == next.limit == limit
    requires first.window == middle.window == next.window > 0.0
    requires first.now == 0.0 && middle.now == t == first.window / 2.0 && next.now == first.window
    ensures Monotone(calls) && SameLimiter(calls, first.key, limit, first.window)
    ensures Recalled(calls, first.key, t, t + first.window) == 2 * limit - 1
  {
    var opening := [first] + Burst(middle, limit - 1);
    OpeningBurst(first, middle, limit, t, t + first.window);
    ClosingBurst(opening, next, 0.0, limit, t, t + first.window);
    BurstsInOrder(first, middle, next, limit - 1);
    calls := opening + [next] + Burst(next, limit - 1);
  }

  /** One call opens a window, `limit - 1` come at its middle, `limit` just as the next one opens: all are
      accepted, and all but the first fall in one span of the window's length. */
  lemma BoundIsReached(limit: nat, window: real, maxKeys: nat) returns (calls: seq<Call>, t: real)
    requires limit >= 1 && 0.0 < window <= STALE_AFTER
    ensures Monotone(calls) && SameLimiter(calls, "k", limit, window)
    ensures Accepted(calls, maxKeys, "k", t, t + window) == 2 * limit - 1
  {
    t := window / 2.0;
    var first, middle := Call("k", limit, window, 0.0), Call("k", limit, window, t);
    calls := RecalledIsReached(first, middle, Call("k", limit, window, window), limit, t);
    AcceptedIsRecalled(calls, maxKeys, "k", t, t + window);
  }

  lemma BurstsInOrder(a: Call, b: Call, c: Call, n: nat)
    requires a.now <= b.now <= c.now && a.key == b.key == c.key
    requires a.limit == b.limit == c.limit && a.window == b.window == c.window
    ensures var calls := [a] + Burst(b, n) + [c] + Burst(c, n);
            Monotone(calls) && SameLimiter(calls, a.key, a.limit, a.window)
  {
    var calls := [a] + Burst(b, n) + [c] + Burst(c, n);
    assert forall i | 0 <= i < |calls| :: calls[i] == if i == 0 then a else if i <= n then b else c;
  }

  lemma ClosingBurst(calls: seq<Call>, c: Call, start: real, limit: nat, lo: real, hi: real)
    requires Lookup(Keeping(calls), c.key) == Some(Bucket(limit, start)) && c.limit == limit && limit >= 1
    requires c.now - start >= c.window && c.window > 0.0 && lo <= c.now < hi
    ensures Recalled(calls + [c] + Burst(c, limit - 1), c.key, lo, hi) == Recalled(calls, c.key, lo, hi) + limit
  {
    OneMore(Kept, calls, c, c.key, lo, hi);
    BurstAccepted(calls + [c], c, limit - 1, Bucket(1, c.now), lo, hi);
  }

  lemma OpeningBurst(first: Call, middle: Call, limit: nat, lo: real, hi: real)
    requires first.key == middle.key && first.limit == middle.limit == limit && limit >= 1
    requires first.now < lo <= middle.now < hi && middle.now - first.now < middle.window
    ensures var c1 := [first] + Burst(middle, limit - 1);
            && Lookup(Keeping(c1), first.key) == Some(Bucket(limit, first.now))
            && Recalled(c1, first.key, lo, hi) == limit - 1
  {
    OneMore(Kept, [], first, first.key, lo, hi);
    assert [] + [first] == [first];
    BurstAccepted([first], middle, limit - 1, Bucket(1, first.now), lo, hi);
  }

  // ---- Windows of more than an hour -----------------------------------------------------------------------------

  /** Keys that are not "k", all different. */
  function OtherKey(i: nat): (key: string)
    ensures |key| == i + 2
  {
    if i == 0 then "xx" else OtherKey(i - 1) + "x"
  }

  function Filler(i: nat, now: real): Call {
    Call(OtherKey(i), 1, 1.0, now)
  }

  function Fillers(n: nat, now: real): seq<Call> {
    seq(n, i requires 0 <= i < n => Filler(i, now))
  }

  /** The first `n` fillers are in the table, counted at `now`. */
  ghost predicate Holds(t: Buckets, n: nat, now: real) {
    forall i: nat | i < n :: OtherKey(i) in t && t[OtherKey(i)].start == now
  }

  lemma {:induction false} HeldKeys(keys: set<string>, n: nat)
    requires "k" in keys && forall i: nat | i < n :: OtherKey(i) in keys
    ensures |keys| >= n + 1
  {
    if n == 0 {
      assert {"k"} <= keys;
      assert keys == {"k"} + (keys - {"k"});
    } else {
      HeldKeys(keys - {OtherKey(n - 1)}, n - 1);
    }
  }

  /** After `n` fillers at time `now`: they are in the table, nothing else is but the old bucket, and that one only
      if the table is still small. */
  ghost predicate Filled(t: Buckets, maxKeys: nat, n: nat, now: real, former: Bucket) {
    && Holds(t, n, now) && (forall x | x in t :: x == "k" || |x| < n + 2)
    && ("k" in t ==> t["k"] == former && (n == 0 || n + 1 <= maxKeys))
  }

  lemma HoldsOneMore(t: Buckets, n: nat, now: real)
    requires Holds(t, n, now) && forall x | x in t :: x == "k" || |x| < n + 2
    ensures Holds(Kept(t, Filler(n, now)), n + 1, now)
  {
    var k := Kept(t, Filler(n, now));
    assert OtherKey(n) !in t;
    forall i: nat | i < n + 1
      ensures OtherKey(i) in k && k[OtherKey(i)].start == now
    {
      if i < n {
        assert |OtherKey(i)| != |OtherKey(n)|;
      }
    }
  }

  lemma FilledStep(t: Buckets, maxKeys: nat, n: nat, now: real, former: Bucket)
    requires Filled(t, maxKeys, n, now, former) && now - former.start > STALE_AFTER
    ensures Filled(Counted(t, Filler(n, now), maxKeys), maxKeys, n + 1, now, former)
  {
    var k := Kept(t, Filler(n, now));
    HoldsOneMore(t, n, now);
    if "k" in k {
      HeldKeys(k.Keys, n + 1);
    }
    if |k| > maxKeys {
      PurgeKeepsFillers(k, n + 1, now);
    }
  }

  lemma PurgeKeepsFillers(k: Buckets, n: nat, now: real)
    requires Holds(k, n, now)
    ensures Holds(Purged(k, now), n, now)
  {
  }

  /** The table after `n` fillers. */
  function FilledTable(count: (Buckets, Call) -> Buckets, t: Buckets, n: nat, now: real): Buckets {
    if n == 0 then t else count(FilledTable(count, t, n - 1, now), Filler(n - 1, now))
  }

  lemma {:induction false} FilledTableIs(t: Buckets, maxKeys: nat, n: nat, now: real, former: Bucket)
    requires Filled(t, maxKeys, 0, now, former) && now - former.start > STALE_AFTER
    ensures Filled(FilledTable(Purging(maxKeys), t, n, now), maxKeys, n, now, former)
  {
    if n > 0 {
      FilledTableIs(t, maxKeys, n - 1, now, former);
      FilledStep(FilledTable(Purging(maxKeys), t, n - 1, now), maxKeys, n - 1, now, former);
    }
  }

  lemma FillersSnoc(calls: seq<Call>, n: nat, now: real)
    requires n > 0
    ensures calls + Fillers(n, now) == calls + Fillers(n - 1, now) + [Filler(n - 1, now)]
  {
  }

  lemma {:induction false} FillersFill(count: (Buckets, Call) -> Buckets, calls: seq<Call>, n: nat, now: real,
                                       lo: real, hi: real)
    ensures Tables(count, calls + Fillers(n, now)) == FilledTable(count, Tables(count, calls), n, now)
    ensures Passed(count, calls + Fillers(n, now), "k", lo, hi) == Passed(count, calls, "k", lo, hi)
  {
    if n == 0 {
      assert calls + Fillers(n, now) == calls;
    } else {
      FillersFill(count, calls, n - 1, now, lo, hi);
      FillersSnoc(calls, n, now);
      OneMore(count, calls + Fillers(n - 1, now), Filler(n - 1, now), "k", lo, hi);
    }
  }

  /** Enough fillers make the table drop the old bucket. */
  lemma FillersForget(calls: seq<Call>, maxKeys: nat, now: real, former: Bucket, lo: real, hi: real)
    requires Filled(Evicting(calls, maxKeys), maxKeys, 0, now, former) && now - former.start > STALE_AFTER
    ensures "k" !in Evicting(calls + Fillers(maxKeys + 1, now), maxKeys)
    ensures Accepted(calls + Fillers(maxKeys + 1, now), maxKeys, "k", lo, hi) == Accepted(calls, maxKeys, "k", lo, hi)
  {
    FillersFill(Purging(maxKeys), calls, maxKeys + 1, now, lo, hi);
    FilledTableIs(Evicting(calls, maxKeys), maxKeys, maxKeys + 1, now, former);
  }

  function FreshBucket(n: nat, now: real): Option<Bucket> {
    if n == 0 then None else Some(Bucket(n, now))
  }

  lemma FreshStep(before: seq<Call>, all: seq<Call>, maxKeys: nat, c: Call, n: nat, lo: real, hi: real)
    requires n > 0 && all == before + [c] && c.key == "k" && n <= c.limit && c.window > 0.0 && lo <= c.now < hi
    requires Lookup(Evicting(before, maxKeys), "k") == FreshBucket(n - 1, c.now)
    ensures Lookup(Evicting(all, maxKeys), "k") == FreshBucket(n, c.now)
    ensures Accepted(all, maxKeys, "k", lo, hi) == Accepted(before, maxKeys, "k", lo, hi) + 1
  {
    OneMore(Purging(maxKeys), before, c, "k", lo, hi);
  }

  /** A burst on a bucket the table does not hold is accepted up to the limit. */
  lemma {:induction false} FreshBurst(calls: seq<Call>, maxKeys: nat, c: Call, n: nat, lo: real, hi: real)
    requires c.key == "k" && "k" !in Evicting(calls, maxKeys) && n <= c.limit && c.window > 0.0 && lo <= c.now < hi
    ensures Lookup(Evicting(calls + Burst(c, n), maxKeys), "k") == FreshBucket(n, c.now)
    ensures Accepted(calls + Burst(c, n), maxKeys, "k", lo, hi) == Accepted(calls, maxKeys, "k", lo, hi) + n
  {
    if n == 0 {
      assert calls + Burst(c, n) == calls;
    } else {
      FreshBurst(calls, maxKeys, c, n - 1, lo, hi);
      assert calls + Burst(c, n) == calls + Burst(c, n - 1) + [c];
      FreshStep(calls + Burst(c, n - 1), calls + Burst(c, n), maxKeys, c, n, lo, hi);
    }
  }

  /** The table holds nothing but the keys of the calls. */
  lemma {:induction false} OnlyOneKey(calls: seq<Call>, maxKeys: nat)
    requires forall i | 0 <= i < |calls| :: calls[i].key == "k"
    ensures forall x | x in Evicting(calls, maxKeys) :: x == "k"
  {
    if calls != [] {
      var r, c := calls[..|calls| - 1], calls[|calls| - 1];
      OnlyOneKey(r, maxKeys);
      assert Evicting(calls, maxKeys) == Counted(Evicting(r, maxKeys), c, maxKeys);
    }
  }

  lemma OpeningOf(first: Call, limit: nat, maxKeys: nat, now: real, lo: real, hi: real)
    requires limit >= 1 && first.key == "k" && first.limit == limit && first.window > 0.0 && lo <= first.now < hi
    ensures Filled(Evicting(Burst(first, limit), maxKeys), maxKeys, 0, now, Bucket(limit, first.now))
    ensures Accepted(Burst(first, limit), maxKeys, "k", lo, hi) == limit
  {
    assert [] + Burst(first, limit) == Burst(first, limit);
    FreshBurst([], maxKeys, first, limit, lo, hi);
    OnlyOneKey(Burst(first, limit), maxKeys);
  }

  /** A window of more than an hour is forgotten before it is over, once enough other keys have come: twice the limit in
      one span. */
  lemma LongWindowIsForgotten(limit: nat, window: real, maxKeys: nat) returns (calls: seq<Call>)
    requires limit >= 1 && window > STALE_AFTER
    ensures Monotone(calls) && SameLimiter(calls, "k", limit, window)
    ensures Accepted(calls, maxKeys, "k", 0.0, 0.0 + window) == 2 * limit
  {
    var now := (STALE_AFTER + window) / 2.0;
    var first, again := Call("k", limit, window, 0.0), Call("k", limit, window, now);
    OpeningOf(first, limit, maxKeys, now, 0.0, window);
    FillersForget(Burst(first, limit), maxKeys, now, Bucket(limit, 0.0), 0.0, window);
    var filled := Burst(first, limit) + Fillers(maxKeys + 1, now);
    FreshBurst(filled, maxKeys, again, limit, 0.0, window);
    calls := filled + Burst(again, limit);
    ForgetfulRun(first, again, limit, maxKeys + 1, now);
  }

  lemma ForgetfulRun(first: Call, again: Call, limit: nat, n: nat, now: real)
    requires first.now <= now == again.now && first.key == again.key == "k"
    requires first.limit == again.limit && first.window == again.window
    ensures var calls := Burst(first, limit) + Fillers(n, now) + Burst(again, limit);
            Monotone(calls) && SameLimiter(calls, "k", first.limit, first.window)
  {
    var calls := Burst(first, limit) + Fillers(n, now) + Burst(again, limit);
    assert forall i | 0 <= i < |calls| ::
        calls[i] == if i < limit then first else if i < limit + n then Fillers(n, now)[i - limit] else again;
    assert forall i | 0 <= i < n :: Fillers(n, now)[i].key == OtherKey(i) && |OtherKey(i)| != |"k"|;
  }

  ghost predicate SpanHolds(calls: seq<Call>, maxKeys: nat, limit: nat, window: real, t: real) {
    Monotone(calls) && SameLimiter(calls, "k", limit, window)
    ==> Accepted(calls, maxKeys, "k", t, t + window) <= 2 * limit - 1
  }

  /** The bound holds for the limiter with its purge, if and only if the window is of at most an hour. */
  lemma SpanBoundIff(limit: nat, window: real, maxKeys: nat)
    requires limit >= 1 && window > 0.0
    ensures (forall calls, t :: SpanHolds(calls, maxKeys, limit, window, t)) <==> window <= STALE_AFTER
  {
    if window <= STALE_AFTER {
      forall calls, t
        ensures SpanHolds(calls, maxKeys, limit, window, t)
      {
        if Monotone(calls) && SameLimiter(calls, "k", limit, window) {
          SpanBound(calls, maxKeys, "k", limit, window, t);
        }
      }
    } else {
      var calls := LongWindowIsForgotten(limit, window, maxKeys);
      assert !SpanHolds(calls, maxKeys, limit, window, 0.0);
    }
  }
}
