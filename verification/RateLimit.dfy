/** Fixed-window admission on the store's counters (middleware.py, `RateLimitMiddleware.dispatch`). */
module RateLimit {
  import opened Basics
  import opened LruOrder
  import opened StoreSpec
  import opened StoreRuns
  import opened CacheStore

  datatype Decision = Admitted | Rejected(retryAfter: int) | Unavailable

  /** What the middleware makes of a counter: no counter at all refuses auth paths and lets the rest through. */
  function Decide(r: Result, maxRequests: int, authPath: bool): Decision {
    match r
    case Hits(count, left) => if count > maxRequests then Rejected(left) else Admitted
    case _ => if authPath then Unavailable else Admitted
  }

  /** Count the request in its bucket and admit it while the count is within the limit; a disabled limiter, a preflight
      request and the health probes pass without touching the store. */
  method Dispatch(store: MemoryStore, bucket: Key, maxRequests: int, window: nat, now: real, authPath: bool,
                  enabled: bool, preflight: bool, probe: bool)
    returns (d: Decision)
    requires store.Valid()
    modifies store`data, store`order
    ensures store.Valid()
    ensures !enabled || preflight || probe ==> d == Admitted && store.State() == old(store.State())
    ensures enabled && !preflight && !probe ==>
              (d, store.State()) == DispatchStep(old(store.State()), bucket, maxRequests, window, now, authPath)
  {
    if !enabled || preflight || probe {
      return Admitted;
    }
    var r := store.Hit(bucket, window, now);
    match r
    case Hits(current, retryAfter) => d := if current > maxRequests then Rejected(retryAfter) else Admitted;
    case _ => d := if authPath then Unavailable else Admitted;
  }

  /** One counted request: the store performs a hit and the decision is read off its result. */
  function DispatchStep(s: Store, bucket: Key, maxRequests: int, window: nat, now: real,
                        authPath: bool): (Decision, Store) {
    var (r, t) := StoreSpec.Step(s, Hit(bucket, window), now);
    (Decide(r, maxRequests, authPath), t)
  }

  // ---- One bucket over time ----

  ghost predicate Ordered(times: seq<real>) {
    forall i, j | 0 <= i < j < |times| :: times[i] <= times[j]
  }

  /** Index of the hit that opened the window hit i falls into. */
  function Opened(times: seq<real>, w: real, i: nat): (o: nat)
    requires i < |times|
    ensures o <= i
  {
    if i == 0 then 0
    else
      var o := Opened(times, w, i - 1);
      if times[i] < times[o] + w then o else i
  }

  /** Which store results the bucket sees, as long as it is not evicted in between. */
  ghost predicate HoldsWindow(s: Store, k: Key, times: seq<real>, w: nat, hits: nat)
    requires hits <= |times|
  {
    if hits == 0 then k !in s.data
    else
      var o := Opened(times, w as real, hits - 1);
      k in s.data && s.data[k] == Entry(Counter(hits - o), times[o] + w as real)
  }

  /** Absent eviction, `hit` returns exactly the number of hits since the window opened,
      and a hit never moves the end of its window. */
  lemma HitCounts(s: Store, k: Key, times: seq<real>, w: nat, i: nat)
    requires s.Valid() && s.max > 0 && i < |times|
    requires HoldsWindow(s, k, times, w, i)
    ensures var (r, t) := HitStep(s, k, w, times[i]);
            var o := Opened(times, w as real, i);
            && r.Hits? && r.count == i - o + 1
            && HoldsWindow(t, k, times, w, i + 1)
  {
    ProbeValid(s, k, times[i]);
    PutValid(Probe(s, k, times[i]), k, HitWrite(s, k, w, times[i]).value);
  }

  /** Times of the hits on one bucket within a run of store operations. */
  function HitTimes(calls: seq<Call>, k: Key): seq<real> {
    if calls == [] then []
    else
      var n := |calls| - 1;
      var before := HitTimes(calls[..n], k);
      if calls[n].op.Hit? && calls[n].op.key == k then before + [calls[n].at] else before
  }

  /** Call n leaves the bucket to `hit` with this window, and the store keeps it from its first hit on. */
  ghost predicate UndisturbedAt(s: Store, calls: seq<Call>, k: Key, w: nat, n: nat)
    requires n < |calls|
  {
    && (calls[n].op.Hit? && calls[n].op.key == k ==> calls[n].op.window == w)
    && !(calls[n].op.Get? && calls[n].op.key == k)
    && !(calls[n].op.Set? && calls[n].op.key == k)
    && (HitTimes(calls[..n + 1], k) != [] ==> k in Run(s, calls[..n + 1]).data)
  }

  ghost predicate Undisturbed(s: Store, calls: seq<Call>, k: Key, w: nat) {
    forall n: nat | n < |calls| :: UndisturbedAt(s, calls, k, w, n)
  }

  lemma UndisturbedFront(s: Store, calls: seq<Call>, k: Key, w: nat)
    requires calls != [] && Undisturbed(s, calls, k, w)
    ensures Undisturbed(s, calls[..|calls| - 1], k, w)
  {
    var front := calls[..|calls| - 1];
    forall n: nat | n < |front|
      ensures UndisturbedAt(s, front, k, w, n)
    {
      assert UndisturbedAt(s, calls, k, w, n);
      assert front[..n + 1] == calls[..n + 1];
    }
  }

  lemma {:induction false} OpenedPrefix(times: seq<real>, longer: seq<real>, w: real, i: nat)
    requires i < |times| && times <= longer
    ensures Opened(times, w, i) == Opened(longer, w, i)
  {
    if i > 0 {
      OpenedPrefix(times, longer, w, i - 1);
    }
  }

  lemma HoldsPrefix(s: Store, k: Key, times: seq<real>, longer: seq<real>, w: nat)
    requires times <= longer
    ensures HoldsWindow(s, k, times, w, |times|) <==> HoldsWindow(s, k, longer, w, |times|)
  {
    if times != [] {
      OpenedPrefix(times, longer, w as real, |times| - 1);
    }
  }

  /** Over any run that leaves the bucket undisturbed, its entry is the count of hits since the window opened,
      however many other keys are used in between. */
  lemma {:induction false} BucketRun(s: Store, calls: seq<Call>, k: Key, w: nat)
    requires s.Valid() && s.max > 0 && k !in s.data && Undisturbed(s, calls, k, w)
    ensures HoldsWindow(Run(s, calls), k, HitTimes(calls, k), w, |HitTimes(calls, k)|)
  {
    if calls != [] {
      var n := |calls| - 1;
      UndisturbedFront(s, calls, k, w);
      BucketRun(s, calls[..n], k, w);
      BucketStep(s, calls, k, w);
    }
  }

  lemma BucketStep(s: Store, calls: seq<Call>, k: Key, w: nat)
    requires s.Valid() && s.max > 0 && calls != [] && UndisturbedAt(s, calls, k, w, |calls| - 1)
    requires var front := calls[..|calls| - 1];
             HoldsWindow(Run(s, front), k, HitTimes(front, k), w, |HitTimes(front, k)|)
    ensures HoldsWindow(Run(s, calls), k, HitTimes(calls, k), w, |HitTimes(calls, k)|)
  {
    var last := calls[|calls| - 1];
    if last.op.Hit? && last.op.key == k {
      assert last.op == Hit(k, w);
      RunHit(s, calls, k, w);
      RunValid(s, calls[..|calls| - 1]);
      HitExtends(Run(s, calls[..|calls| - 1]), k, HitTimes(calls[..|calls| - 1], k), last.at, w);
    } else {
      BucketIdle(s, calls, k, w);
    }
  }

  lemma RunHit(s: Store, calls: seq<Call>, k: Key, w: nat)
    requires calls != [] && calls[|calls| - 1].op == Hit(k, w)
    ensures var front, at := calls[..|calls| - 1], calls[|calls| - 1].at;
            Run(s, calls) == HitStep(Run(s, front), k, w, at).1 && HitTimes(calls, k) == HitTimes(front, k) + [at]
  {}

  lemma HitExtends(before: Store, k: Key, hits: seq<real>, at: real, w: nat)
    requires before.Valid() && before.max > 0 && HoldsWindow(before, k, hits, w, |hits|)
    ensures HoldsWindow(HitStep(before, k, w, at).1, k, hits + [at], w, |hits| + 1)
  {
    HoldsPrefix(before, k, hits, hits + [at], w);
    HitCounts(before, k, hits + [at], w, |hits|);
  }

  lemma BucketIdle(s: Store, calls: seq<Call>, k: Key, w: nat)
    requires s.Valid() && s.max > 0 && calls != [] && UndisturbedAt(s, calls, k, w, |calls| - 1)
    requires !(calls[|calls| - 1].op.Hit? && calls[|calls| - 1].op.key == k)
    requires var front := calls[..|calls| - 1];
             HoldsWindow(Run(s, front), k, HitTimes(front, k), w, |HitTimes(front, k)|)
    ensures HoldsWindow(Run(s, calls), k, HitTimes(calls, k), w, |HitTimes(calls, k)|)
  {
    var n := |calls| - 1;
    var front := calls[..n];
    RunValid(s, front);
    assert calls[..n + 1] == calls;
    BucketUntouched(Run(s, front), calls[n].op, calls[n].at, k);
    IdleHolds(Run(s, front), Run(s, calls), k, HitTimes(calls, k), w);
  }

  lemma IdleHolds(before: Store, after: Store, k: Key, hits: seq<real>, w: nat)
    requires HoldsWindow(before, k, hits, w, |hits|) && (hits != [] ==> k in after.data)
    requires k in after.data ==> k in before.data && after.data[k] == before.data[k]
    ensures HoldsWindow(after, k, hits, w, |hits|)
  {}

  /** Operations that do not name the bucket neither create nor rewrite it. */
  lemma BucketUntouched(s: Store, op: Op, now: real, k: Key)
    requires s.Valid()
    requires !(op.Hit? && op.key == k) && !(op.Set? && op.key == k)
    ensures var t := Step(s, op, now).1; k in t.data ==> k in s.data && t.data[k] == s.data[k]
  {
    if k in Step(s, op, now).1.data {
      StepWrites(s, op, now, k);
    }
  }

  // ---- The admission bound ----

  /** Hit i was admitted: fewer than `max` hits came before it in its window. */
  predicate IsAdmitted(times: seq<real>, w: real, max: nat, i: nat)
    requires i < |times|
  {
    i - Opened(times, w, i) + 1 <= max
  }

  lemma {:induction false} LaterWindow(times: seq<real>, w: real, i: nat, j: nat)
    requires i <= j < |times|
    ensures Opened(times, w, j) == Opened(times, w, i) || Opened(times, w, j) > i
    decreases j
  {
    if i < j {
      LaterWindow(times, w, i, j - 1);
    }
  }

  /** Different windows open at least one window length apart. */
  lemma {:induction false} WindowsApart(times: seq<real>, w: real, i: nat, j: nat)
    requires i <= j < |times| && Ordered(times) && w >= 0.0
    ensures Opened(times, w, j) != Opened(times, w, i)
            ==> times[Opened(times, w, j)] >= times[Opened(times, w, i)] + w
    decreases j
  {
    if i < j {
      WindowsApart(times, w, i, j - 1);
    }
  }

  ghost function AdmittedIn(times: seq<real>, w: real, max: nat, a: real): set<nat> {
    set i: nat | i < |times| && a <= times[i] < a + w && IsAdmitted(times, w, max, i)
  }

  /** Admitted hits of the window opened by hit o. */
  ghost function AdmittedOf(times: seq<real>, w: real, max: nat, o: nat): set<nat> {
    set i: nat | i < |times| && Opened(times, w, i) == o && IsAdmitted(times, w, max, i)
  }

  /** At most `max` requests are admitted per window. */
  lemma WindowBound(times: seq<real>, w: real, max: nat, o: nat)
    ensures |AdmittedOf(times, w, max, o)| <= max
  {
    IntervalSize(AdmittedOf(times, w, max, o), o, max);
  }

  /** Two hits in one interval of a window length lie in the same window or in consecutive ones,
      and then the first window opened before the interval. */
  lemma TwoWindows(times: seq<real>, w: real, a: real, i: nat, j: nat, k: nat)
    requires Ordered(times) && w >= 0.0 && i <= j <= k < |times|
    requires a <= times[i] && times[k] < a + w
    requires Opened(times, w, j) != Opened(times, w, i)
    ensures Opened(times, w, k) == Opened(times, w, j)
    ensures times[Opened(times, w, i)] < a
  {
    LaterWindow(times, w, i, j);
    WindowsApart(times, w, j, k);
    WindowsApart(times, w, i, j);
    var oj, ok := Opened(times, w, j), Opened(times, w, k);
    assert times[i] <= times[oj];
    assert ok == k || times[ok] <= times[k];
    assert oj == j || times[oj] <= times[j];
    assert j == k || times[j] <= times[k];
  }

  lemma Least(S: set<nat>) returns (m: nat)
    requires S != {}
    ensures m in S && forall i | i in S :: m <= i
    decreases |S|
  {
    var x := Basics.Pick(S);
    assert forall i | i in S :: i == x || i in S - {x};
    if S - {x} == {} {
      m := x;
    } else {
      var y := Least(S - {x});
      m := if x <= y then x else y;
    }
  }

  /** In any half-open interval of one window length at most 2 * max - 1 requests are admitted. */
  lemma IntervalBound(times: seq<real>, w: real, max: nat, a: real)
    requires Ordered(times) && w >= 0.0 && max > 0
    ensures |AdmittedIn(times, w, max, a)| <= 2 * max - 1
  {
    var S := AdmittedIn(times, w, max, a);
    if S != {} {
      var i := Least(S);
      var first := AdmittedOf(times, w, max, Opened(times, w, i));
      WindowBound(times, w, max, Opened(times, w, i));
      var rest := S - first;
      assert forall k | k in S :: k in first || k in rest;
      if rest == {} {
        SubsetSize(S, first);
      } else {
        var j := Least(rest);
        TwoWindowBound(times, w, max, a, i, j);
      }
    }
  }

  /** The interval spans two windows: the later one gives at most `max`, the earlier one at most `max - 1`. */
  lemma TwoWindowBound(times: seq<real>, w: real, max: nat, a: real, i: nat, j: nat)
    requires Ordered(times) && w >= 0.0 && max > 0
    requires i in AdmittedIn(times, w, max, a) && forall k | k in AdmittedIn(times, w, max, a) :: i <= k
    requires var rest := AdmittedIn(times, w, max, a) - AdmittedOf(times, w, max, Opened(times, w, i));
             j in rest && forall k | k in rest :: j <= k
    ensures |AdmittedIn(times, w, max, a)| <= 2 * max - 1
  {
    var S := AdmittedIn(times, w, max, a);
    var first, second := AdmittedOf(times, w, max, Opened(times, w, i)), AdmittedOf(times, w, max, Opened(times, w, j));
    var rest := S - first;
    WindowBound(times, w, max, Opened(times, w, j));
    forall k | k in rest
      ensures k in second
    {
      TwoWindows(times, w, a, i, j, k);
    }
    SubsetSize(rest, second);
    TwoWindows(times, w, a, i, j, j);
    EarlierShare(times, w, max, a, i);
    assert S == S * first + rest;
  }

  /** A window opened before the interval has given away at least its first admission. */
  lemma EarlierShare(times: seq<real>, w: real, max: nat, a: real, i: nat)
    requires i < |times| && max > 0 && times[Opened(times, w, i)] < a
    ensures |AdmittedIn(times, w, max, a) * AdmittedOf(times, w, max, Opened(times, w, i))| <= max - 1
  {
    var o := Opened(times, w, i);
    IntervalSize(AdmittedIn(times, w, max, a) * AdmittedOf(times, w, max, o), o + 1, max - 1);
  }

  // ---- The requests of a run ----

  /** The decision on the request that is call n of a run of store operations. */
  function DecisionAt(s: Store, calls: seq<Call>, n: nat, max: int, authPath: bool): Decision
    requires n < |calls|
  {
    Decide(StoreSpec.Step(Run(s, calls[..n]), calls[n].op, calls[n].at).0, max, authPath)
  }

  /** Place of call n among the hits on the bucket. */
  function PlaceOf(calls: seq<Call>, k: Key, n: nat): nat
    requires n <= |calls|
  {
    |HitTimes(calls[..n], k)|
  }

  lemma UndisturbedPrefix(s: Store, calls: seq<Call>, k: Key, w: nat, n: nat)
    requires Undisturbed(s, calls, k, w) && n <= |calls|
    ensures Undisturbed(s, calls[..n], k, w)
  {
    forall m: nat | m < n
      ensures UndisturbedAt(s, calls[..n], k, w, m)
    {
      assert UndisturbedAt(s, calls, k, w, m);
      assert calls[..n][..m + 1] == calls[..m + 1];
    }
  }

  lemma HitTimesNext(calls: seq<Call>, k: Key, n: nat)
    requires n < |calls|
    ensures HitTimes(calls[..n + 1], k)
            == HitTimes(calls[..n], k) + if calls[n].op.Hit? && calls[n].op.key == k then [calls[n].at] else []
  {
    assert calls[..n + 1][..n] == calls[..n];
  }

  /** The hits of a prefix are a prefix of the hits. */
  lemma {:induction false} HitTimesPrefix(calls: seq<Call>, k: Key, n: nat)
    requires n <= |calls|
    ensures HitTimes(calls[..n], k) <= HitTimes(calls, k)
    decreases |calls| - n
  {
    if n == |calls| {
      assert calls[..n] == calls;
    } else {
      HitTimesNext(calls, k, n);
      HitTimesPrefix(calls, k, n + 1);
    }
  }

  /** The request that is call n hits its own place, at its own time. */
  lemma PlaceAndTime(calls: seq<Call>, k: Key, n: nat)
    requires n < |calls| && calls[n].op.Hit? && calls[n].op.key == k
    ensures PlaceOf(calls, k, n) < |HitTimes(calls, k)|
    ensures HitTimes(calls, k)[PlaceOf(calls, k, n)] == calls[n].at
    ensures PlaceOf(calls, k, n + 1) == PlaceOf(calls, k, n) + 1
  {
    HitTimesNext(calls, k, n);
    HitTimesPrefix(calls, k, n + 1);
  }

  /** The counter of call n: the hits of its window up to and including itself. */
  lemma CountAt(s: Store, calls: seq<Call>, k: Key, w: nat, n: nat)
    requires s.Valid() && s.max > 0 && k !in s.data && Undisturbed(s, calls, k, w)
    requires n < |calls| && calls[n].op == Hit(k, w)
    ensures PlaceOf(calls, k, n) < |HitTimes(calls, k)|
    ensures var r := StoreSpec.Step(Run(s, calls[..n]), calls[n].op, calls[n].at).0;
            r.Hits? && r.count == PlaceOf(calls, k, n) - Opened(HitTimes(calls, k), w as real, PlaceOf(calls, k, n)) + 1
  {
    var times, front := HitTimes(calls, k), calls[..n];
    PlaceAndTime(calls, k, n);
    HitTimesPrefix(calls, k, n);
    UndisturbedPrefix(s, calls, k, w, n);
    BucketRun(s, front, k, w);
    RunValid(s, front);
    HoldsPrefix(Run(s, front), k, HitTimes(front, k), times, w);
    HitCounts(Run(s, front), k, times, w, PlaceOf(calls, k, n));
  }

  /** In any run that leaves the bucket undisturbed, a request is admitted exactly when fewer than `max` requests
      came before it in its window. */
  lemma AdmittedIff(s: Store, calls: seq<Call>, k: Key, w: nat, n: nat, max: nat, authPath: bool)
    requires s.Valid() && s.max > 0 && k !in s.data && Undisturbed(s, calls, k, w)
    requires n < |calls| && calls[n].op == Hit(k, w)
    ensures PlaceOf(calls, k, n) < |HitTimes(calls, k)|
    ensures DecisionAt(s, calls, n, max, authPath) == Admitted
            <==> IsAdmitted(HitTimes(calls, k), w as real, max, PlaceOf(calls, k, n))
  {
    CountAt(s, calls, k, w, n);
  }

  /** The requests of the bucket admitted within [a, a + w). */
  ghost function AdmittedCalls(s: Store, calls: seq<Call>, k: Key, w: nat, max: nat, authPath: bool,
                               a: real): set<nat> {
    set n: nat | n < |calls| && calls[n].op == Hit(k, w) && a <= calls[n].at < a + w as real
                 && DecisionAt(s, calls, n, max, authPath) == Admitted
  }

  ghost predicate InOrder(calls: seq<Call>) {
    forall i, j | 0 <= i < j < |calls| :: calls[i].at <= calls[j].at
  }

  lemma {:induction false} HitTimesFrom(calls: seq<Call>, k: Key, i: nat) returns (n: nat)
    requires i < |HitTimes(calls, k)|
    ensures n < |calls| && calls[n].at == HitTimes(calls, k)[i]
  {
    var last := |calls| - 1;
    if i < |HitTimes(calls[..last], k)| {
      n := HitTimesFrom(calls[..last], k, i);
    } else {
      n := last;
    }
  }

  lemma OrderedAppend(times: seq<real>, x: real)
    requires Ordered(times) && forall i | 0 <= i < |times| :: times[i] <= x
    ensures Ordered(times + [x])
  {}

  lemma {:induction false} HitTimesOrdered(calls: seq<Call>, k: Key)
    requires InOrder(calls)
    ensures Ordered(HitTimes(calls, k))
  {
    if calls != [] {
      var front := calls[..|calls| - 1];
      HitTimesOrdered(front, k);
      var times := HitTimes(front, k);
      forall i | 0 <= i < |times|
        ensures times[i] <= calls[|calls| - 1].at
      {
        var n := HitTimesFrom(front, k, i);
        assert calls[n].at <= calls[|calls| - 1].at;
      }
      OrderedAppend(times, calls[|calls| - 1].at);
      assert HitTimes(calls, k) == times || HitTimes(calls, k) == times + [calls[|calls| - 1].at];
    }
  }

  lemma {:induction false} LaterPlace(calls: seq<Call>, k: Key, m: nat, n: nat)
    requires m <= n <= |calls|
    ensures PlaceOf(calls, k, m) <= PlaceOf(calls, k, n)
    decreases n
  {
    if m < n {
      LaterPlace(calls, k, m, n - 1);
      HitTimesNext(calls, k, n - 1);
    }
  }

  /** Different requests take different places, so there are no more requests than places. */
  lemma {:induction false} NoMoreThanPlaces(calls: seq<Call>, k: Key, S: set<nat>, T: set<nat>)
    requires forall n | n in S :: n < |calls| && calls[n].op.Hit? && calls[n].op.key == k && PlaceOf(calls, k, n) in T
    ensures |S| <= |T|
    decreases S
  {
    if S != {} {
      var m := Basics.Pick(S);
      forall n | n in S - {m}
        ensures PlaceOf(calls, k, n) in T - {PlaceOf(calls, k, m)}
      {
        PlaceAndTime(calls, k, m);
        PlaceAndTime(calls, k, n);
        if n < m {
          LaterPlace(calls, k, n + 1, m);
        } else {
          LaterPlace(calls, k, m + 1, n);
        }
      }
      NoMoreThanPlaces(calls, k, S - {m}, T - {PlaceOf(calls, k, m)});
    }
  }

  /** In any run that leaves the bucket undisturbed, at most 2 * max - 1 of its requests are admitted in any half-open
      interval of one window length. */
  lemma RunIntervalBound(s: Store, calls: seq<Call>, k: Key, w: nat, max: nat, authPath: bool, a: real)
    requires s.Valid() && s.max > 0 && k !in s.data && Undisturbed(s, calls, k, w)
    requires InOrder(calls) && max > 0
    ensures |AdmittedCalls(s, calls, k, w, max, authPath, a)| <= 2 * max - 1
  {
    var times := HitTimes(calls, k);
    var S, T := AdmittedCalls(s, calls, k, w, max, authPath, a), AdmittedIn(times, w as real, max, a);
    forall n | n in S
      ensures PlaceOf(calls, k, n) in T
    {
      PlaceAndTime(calls, k, n);
      AdmittedIff(s, calls, k, w, n, max, authPath);
    }
    NoMoreThanPlaces(calls, k, S, T);
    HitTimesOrdered(calls, k);
    IntervalBound(times, w as real, max, a);
  }

  /** Requests of the bucket admitted in the window that the hit at place o opened. */
  ghost function AdmittedInWindow(s: Store, calls: seq<Call>, k: Key, w: nat, max: nat, authPath: bool,
                                  o: nat): set<nat> {
    set n: nat | n < |calls| && calls[n].op == Hit(k, w) && PlaceOf(calls, k, n) < |HitTimes(calls, k)|
                 && Opened(HitTimes(calls, k), w as real, PlaceOf(calls, k, n)) == o
                 && DecisionAt(s, calls, n, max, authPath) == Admitted
  }

  /** At most `max` requests are admitted per window. */
  lemma RunWindowBound(s: Store, calls: seq<Call>, k: Key, w: nat, max: nat, authPath: bool, o: nat)
    requires s.Valid() && s.max > 0 && k !in s.data && Undisturbed(s, calls, k, w)
    ensures |AdmittedInWindow(s, calls, k, w, max, authPath, o)| <= max
  {
    var S, T := AdmittedInWindow(s, calls, k, w, max, authPath, o), AdmittedOf(HitTimes(calls, k), w as real, max, o);
    forall n | n in S
      ensures PlaceOf(calls, k, n) in T
    {
      AdmittedIff(s, calls, k, w, n, max, authPath);
    }
    NoMoreThanPlaces(calls, k, S, T);
    WindowBound(HitTimes(calls, k), w as real, max, o);
  }

  /** A run of hits on the bucket alone leaves it undisturbed. */
  lemma {:induction false} OnlyHitsUndisturbed(s: Store, calls: seq<Call>, k: Key, w: nat)
    requires s.Valid() && s.max > 0 && k !in s.data && forall n | 0 <= n < |calls| :: calls[n].op == Hit(k, w)
    ensures Undisturbed(s, calls, k, w)
  {
    if calls != [] {
      var n := |calls| - 1;
      var front := calls[..n];
      OnlyHitsUndisturbed(s, front, k, w);
      HitLeavesBucket(s, calls, k, w);
      UndisturbedAppend(s, calls, k, w);
    }
  }

  lemma HitLeavesBucket(s: Store, calls: seq<Call>, k: Key, w: nat)
    requires s.Valid() && s.max > 0 && k !in s.data && calls != [] && calls[|calls| - 1].op == Hit(k, w)
    requires Undisturbed(s, calls[..|calls| - 1], k, w)
    ensures UndisturbedAt(s, calls, k, w, |calls| - 1)
  {
    var front, at := calls[..|calls| - 1], calls[|calls| - 1].at;
    BucketRun(s, front, k, w);
    RunValid(s, front);
    RunHit(s, calls, k, w);
    HitExtends(Run(s, front), k, HitTimes(front, k), at, w);
    assert calls[..|calls|] == calls;
  }

  lemma UndisturbedAppend(s: Store, calls: seq<Call>, k: Key, w: nat)
    requires calls != [] && Undisturbed(s, calls[..|calls| - 1], k, w) && UndisturbedAt(s, calls, k, w, |calls| - 1)
    ensures Undisturbed(s, calls, k, w)
  {
    var front := calls[..|calls| - 1];
    forall m: nat | m < |front|
      ensures UndisturbedAt(s, calls, k, w, m)
    {
      assert UndisturbedAt(s, front, k, w, m);
      assert front[..m + 1] == calls[..m + 1];
    }
  }

  /** Call n uses the bucket through `hit` with this window alone and does not delete it. */
  ghost predicate HitsOnly(s: Store, calls: seq<Call>, k: Key, w: nat, n: nat)
    requires n < |calls|
  {
    var op := calls[n].op;
    && (op.Hit? && op.key == k ==> op.window == w)
    && !(op.Get? && op.key == k) && !(op.Set? && op.key == k)
    && !Removes(Run(s, calls[..n]), op, calls[n].at, k)
  }

  /** Nothing but requests of the bucket uses it, and fewer than `max` other keys are touched. */
  ghost predicate FewBuckets(s: Store, calls: seq<Call>, k: Key, w: nat) {
    && (forall n: nat | n < |calls| :: HitsOnly(s, calls, k, w, n))
    && |TouchedIn(s, calls) - {k}| < s.max
  }

  lemma FewBucketsFront(s: Store, calls: seq<Call>, k: Key, w: nat)
    requires calls != [] && FewBuckets(s, calls, k, w)
    ensures FewBuckets(s, calls[..|calls| - 1], k, w)
  {
    var front := calls[..|calls| - 1];
    forall n: nat | n < |front|
      ensures HitsOnly(s, front, k, w, n)
    {
      assert HitsOnly(s, calls, k, w, n);
      assert front[..n] == calls[..n];
    }
    SubsetSize(TouchedIn(s, front) - {k}, TouchedIn(s, calls) - {k});
  }

  /** The first request creates the bucket, as the most recent key. */
  lemma FirstHitStays(s: Store, k: Key, w: nat, now: real)
    requires s.Valid() && s.max > 0 && k !in s.data
    ensures k in HitStep(s, k, w, now).1.data && Newer(HitStep(s, k, w, now).1, k) == {}
  {
    PutSurvives(s, k, HitWrite(s, k, w, now).value, k);
  }

  /** From its first request on the bucket stays, and everything newer was touched in the run. */
  lemma {:induction false} BucketStays(s: Store, calls: seq<Call>, k: Key, w: nat)
    requires s.Valid() && k !in s.data && FewBuckets(s, calls, k, w)
    ensures HitTimes(calls, k) != [] ==>
              k in Run(s, calls).data && Newer(Run(s, calls), k) <= TouchedIn(s, calls) - {k}
    ensures HitTimes(calls, k) == [] ==> k !in Run(s, calls).data
  {
    if calls != [] {
      var n := |calls| - 1;
      var front, before := calls[..n], Run(s, calls[..n]);
      FewBucketsFront(s, calls, k, w);
      BucketStays(s, front, k, w);
      RunValid(s, front);
      assert HitsOnly(s, calls, k, w, n);
      if HitTimes(front, k) != [] {
        var all := TouchedIn(s, calls) - {k};
        SubsetSize(Newer(before, k) + (Touched(before, calls[n].op, calls[n].at) - {k}), all);
        StepSurvives(before, calls[n].op, calls[n].at, k);
      } else if calls[n].op == Hit(k, w) {
        FirstHitStays(before, k, w, calls[n].at);
      } else {
        BucketUntouched(before, calls[n].op, calls[n].at, k);
      }
    }
  }

  /** A run that touches fewer than `max` other keys leaves the bucket undisturbed: nothing evicts it. */
  lemma {:induction false} FewBucketsUndisturbed(s: Store, calls: seq<Call>, k: Key, w: nat)
    requires s.Valid() && k !in s.data && FewBuckets(s, calls, k, w)
    ensures Undisturbed(s, calls, k, w)
  {
    if calls != [] {
      FewBucketsFront(s, calls, k, w);
      FewBucketsUndisturbed(s, calls[..|calls| - 1], k, w);
      BucketStays(s, calls, k, w);
      assert HitsOnly(s, calls, k, w, |calls| - 1);
      assert calls[..|calls|] == calls;
      UndisturbedAppend(s, calls, k, w);
    }
  }

  /** With fewer than `max` other keys touched, the bounds hold without any assumption on evictions. */
  lemma FewBucketsBounds(s: Store, calls: seq<Call>, k: Key, w: nat, max: nat, authPath: bool, a: real, o: nat)
    requires s.Valid() && k !in s.data && FewBuckets(s, calls, k, w) && InOrder(calls) && max > 0
    ensures |AdmittedInWindow(s, calls, k, w, max, authPath, o)| <= max
    ensures |AdmittedCalls(s, calls, k, w, max, authPath, a)| <= 2 * max - 1
  {
    FewBucketsUndisturbed(s, calls, k, w);
    RunWindowBound(s, calls, k, w, max, authPath, o);
    RunIntervalBound(s, calls, k, w, max, authPath, a);
  }

  /** Requests at 0, 9, 10 and 10. */
  function BusyRun(k: Key): seq<Call> {
    [Call(Hit(k, 10), 0.0), Call(Hit(k, 10), 9.0), Call(Hit(k, 10), 10.0), Call(Hit(k, 10), 10.0)]
  }

  lemma BusyTimes(k: Key)
    ensures HitTimes(BusyRun(k)[..0], k) == []
    ensures HitTimes(BusyRun(k)[..1], k) == [0.0]
    ensures HitTimes(BusyRun(k)[..2], k) == [0.0, 9.0]
    ensures HitTimes(BusyRun(k)[..3], k) == [0.0, 9.0, 10.0]
    ensures HitTimes(BusyRun(k), k) == [0.0, 9.0, 10.0, 10.0]
  {
    var calls := BusyRun(k);
    HitTimesNext(calls, k, 0);
    HitTimesNext(calls, k, 1);
    HitTimesNext(calls, k, 2);
    HitTimesNext(calls, k, 3);
    assert calls[..4] == calls;
  }

  lemma BusyWindows()
    ensures var times := [0.0, 9.0, 10.0, 10.0];
            && Opened(times, 10.0, 0) == 0 && Opened(times, 10.0, 1) == 0
            && Opened(times, 10.0, 2) == 2 && Opened(times, 10.0, 3) == 2
  {
    var times := [0.0, 9.0, 10.0, 10.0];
    assert Opened(times, 10.0, 0) == 0;
    assert Opened(times, 10.0, 1) == 0;
    assert Opened(times, 10.0, 2) == 2;
  }

  /** The bound is reached: with limit 2 and window 10 that run admits three requests within [9, 19). */
  lemma IntervalBoundReached(s: Store, k: Key, authPath: bool)
    requires s.Valid() && s.max > 0 && k !in s.data
    ensures InOrder(BusyRun(k)) && Undisturbed(s, BusyRun(k), k, 10)
    ensures AdmittedCalls(s, BusyRun(k), k, 10, 2, authPath, 9.0) == {1, 2, 3}
  {
    var calls := BusyRun(k);
    OnlyHitsUndisturbed(s, calls, k, 10);
    BusyTimes(k);
    BusyWindows();
    forall n: nat | n < 4
      ensures n in AdmittedCalls(s, calls, k, 10, 2, authPath, 9.0) <==> n in {1, 2, 3}
    {
      AdmittedIff(s, calls, k, 10, n, 2, authPath);
      assert PlaceOf(calls, k, n) == n;
    }
  }

  // ---- Waiting ----

  /** The seconds reported are the whole seconds left of the window, at least one. */
  lemma SecondsLeft(s: Store, k: Key, window: nat, now: real)
    requires s.Valid() && s.max > 0
    ensures var (r, t) := HitStep(s, k, window, now);
            r.Hits? ==>
              && k in t.data && t.data[k].value == Counter(r.count) && r.left >= 1
              && (t.data[k].expires - now >= 1.0 ==> r.left as real <= t.data[k].expires - now)
              && t.data[k].expires < now + r.left as real + 1.0
  {
    var written := HitWrite(s, k, window, now);
    if written.Some? {
      ProbeValid(s, k, now);
      PutValid(Probe(s, k, now), k, written.value);
    }
  }

  /** A new bucket, and one whose window has run out, starts over with one request and the whole window. */
  lemma NewWindow(s: Store, k: Key, window: nat, now: real)
    requires s.Valid() && s.max > 0 && (k in s.data ==> s.data[k].expires <= now)
    ensures var (r, t) := HitStep(s, k, window, now);
            && r == Hits(1, if window >= 1 then window else 1)
            && k in t.data && t.data[k] == Entry(Counter(1), now + window as real)
  {
    ProbeValid(s, k, now);
    PutValid(Probe(s, k, now), k, Entry(Counter(1), now + window as real));
    assert now + window as real - now == window as real;
  }

  /** A client that was refused, waits the seconds it was told and one more, and finds its bucket as it left it, is
      admitted. */
  lemma RetryAdmitted(s: Store, bucket: Key, maxRequests: int, window: nat, now: real, later: real, authPath: bool)
    requires s.Valid() && s.max > 0 && maxRequests >= 1
    ensures var (d, t) := DispatchStep(s, bucket, maxRequests, window, now, authPath);
            d.Rejected? && later >= now + d.retryAfter as real + 1.0 ==>
              DispatchStep(t, bucket, maxRequests, window, later, authPath).0 == Admitted
  {
    var (d, t) := DispatchStep(s, bucket, maxRequests, window, now, authPath);
    SecondsLeft(s, bucket, window, now);
    HitValid(s, bucket, window, now);
    if d.Rejected? && later >= now + d.retryAfter as real + 1.0 {
      NewWindow(t, bucket, window, later);
    }
  }

  /** Only a counter that cannot be read is unavailable: such a request is refused on an auth path and admitted
      elsewhere. */
  lemma FailsClosedIff(s: Store, bucket: Key, maxRequests: int, window: nat, now: real, authPath: bool)
    ensures var unreadable := bucket in s.data && now < s.data[bucket].expires && s.data[bucket].value.Text?;
            var d := DispatchStep(s, bucket, maxRequests, window, now, authPath).0;
            && (d == Unavailable <==> unreadable && authPath)
            && (unreadable && !authPath ==> d == Admitted)
  {}
}
