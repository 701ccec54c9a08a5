// The sliding-window limiter: one deque of admitted timestamps per source, and
// the proof that this deque agrees with the whole admission history.
module RateLimiter {
  import opened Prelude

  datatype Config = Config(enabled: bool, maxRequests: int, windowMs: int)

  datatype Call = Call(source: string, at: int)

  type Buckets = map<string, seq<int>>

  function Bucket(buckets: Buckets, source: string): seq<int> {
    if source in buckets then buckets[source] else []
  }

  predicate Tracked(c: Config, source: string) {
    c.enabled && source != ""
  }

  // The eviction loop: pops from the front while the front is too old.
  function Evict(q: seq<int>, now: int, windowMs: int): seq<int> {
    if q != [] && now - q[0] > windowMs then Evict(q[1..], now, windowMs) else q
  }

  // The answer `allow` gives to one call.
  predicate Decide(c: Config, buckets: Buckets, call: Call) {
    Tracked(c, call.source) ==>
      |Evict(Bucket(buckets, call.source), call.at, c.windowMs)| < c.maxRequests
  }

  // The deques after one call.
  function Next(c: Config, buckets: Buckets, call: Call): Buckets {
    if Tracked(c, call.source) then
      var q := Evict(Bucket(buckets, call.source), call.at, c.windowMs);
      buckets[call.source := if |q| < c.maxRequests then q + [call.at] else q]
    else
      buckets
  }

  // The deques after a whole run.
  function Run(c: Config, calls: seq<Call>): Buckets {
    if calls == [] then map[]
    else
      var n := |calls| - 1;
      Next(c, Run(c, calls[..n]), calls[n])
  }

  // Everything `allow` answered during a run.
  function Decisions(c: Config, calls: seq<Call>): (r: seq<bool>)
    ensures |r| == |calls|
  {
    if calls == [] then []
    else
      var n := |calls| - 1;
      Decisions(c, calls[..n]) + [Decide(c, Run(c, calls[..n]), calls[n])]
  }

  // ------------------------------------------------------------------
  // The history, told without any deque

  // Times of the calls of `source` that `pick` lets through, in order.
  function Chosen(calls: seq<Call>, pick: seq<bool>, source: string): seq<int>
    requires |pick| == |calls|
  {
    if calls == [] then []
    else
      var n := |calls| - 1;
      var before := Chosen(calls[..n], pick[..n], source);
      if calls[n].source == source && pick[n] then before + [calls[n].at] else before
  }

  // What the limiter admitted.
  function Admitted(c: Config, calls: seq<Call>, source: string): seq<int> {
    Chosen(calls, Decisions(c, calls), source)
  }

  // The members of `times` that are no older than `windowMs` at `now`.
  function Recent(times: seq<int>, now: int, windowMs: int): seq<int> {
    if times == [] then []
    else
      var n := |times| - 1;
      var before := Recent(times[..n], now, windowMs);
      if now - times[n] <= windowMs then before + [times[n]] else before
  }

  // How many members of `times` lie in the closed interval [lo, hi].
  function CountIn(times: seq<int>, lo: int, hi: int): nat {
    if times == [] then 0
    else
      var n := |times| - 1;
      CountIn(times[..n], lo, hi) + if lo <= times[n] <= hi then 1 else 0
  }

  // The clock never runs backwards for `source`.
  ghost predicate Monotone(calls: seq<Call>, source: string) {
    forall i, j :: 0 <= i < j < |calls| && calls[i].source == source && calls[j].source == source
      ==> calls[i].at <= calls[j].at
  }

  ghost predicate Sorted(times: seq<int>) {
    forall i, j :: 0 <= i < j < |times| ==> times[i] <= times[j]
  }

  // What a window may hold: a negative maximum admits nothing.
  function Cap(c: Config): nat {
    if c.maxRequests < 0 then 0 else c.maxRequests
  }

  // Every closed window of the configured length holds at most maxRequests.
  ghost predicate WithinLimit(times: seq<int>, c: Config) {
    forall lo: int :: WindowCount(times, lo, c.windowMs) <= c.maxRequests
  }

  // How many members of `times` lie in the closed window of length `w` that opens at `lo`.
  function WindowCount(times: seq<int>, lo: int, w: int): nat {
    CountIn(times, lo, lo + w)
  }

  // ------------------------------------------------------------------
  // The deque refines the history

  lemma {:induction false} RecentConcat(a: seq<int>, b: seq<int>, now: int, w: int)
    ensures Recent(a + b, now, w) == Recent(a, now, w) + Recent(b, now, w)
  {
    if b == [] {
      assert a + b == a;
    } else {
      var n := |b| - 1;
      RecentConcat(a, b[..n], now, w);
      assert (a + b)[..|a| + n] == a + b[..n];
    }
  }

  lemma {:induction false} RecentIsAll(q: seq<int>, now: int, w: int)
    requires forall i :: 0 <= i < |q| ==> now - q[i] <= w
    ensures Recent(q, now, w) == q
  {
    if q != [] {
      RecentIsAll(q[..|q| - 1], now, w);
    }
  }

  // On a sorted deque, popping the front is filtering.
  lemma {:induction false} EvictIsRecent(q: seq<int>, now: int, w: int)
    requires Sorted(q)
    ensures Evict(q, now, w) == Recent(q, now, w)
  {
    if q == [] {
    } else if now - q[0] > w {
      EvictIsRecent(q[1..], now, w);
      assert q == [q[0]] + q[1..];
      RecentConcat([q[0]], q[1..], now, w);
    } else {
      RecentIsAll(q, now, w);
    }
  }

  // Filtering at an earlier time first changes nothing.
  lemma {:induction false} RecentTwice(times: seq<int>, earlier: int, now: int, w: int)
    requires earlier <= now
    ensures Recent(Recent(times, earlier, w), now, w) == Recent(times, now, w)
  {
    if times != [] {
      var n := |times| - 1;
      RecentTwice(times[..n], earlier, now, w);
    }
  }

  lemma {:induction false} RecentMembers(times: seq<int>, now: int, w: int, bound: int)
    requires Sorted(times)
    requires forall i :: 0 <= i < |times| ==> times[i] <= bound
    ensures Sorted(Recent(times, now, w))
    ensures forall i :: 0 <= i < |Recent(times, now, w)| ==> Recent(times, now, w)[i] <= bound
  {
    if times != [] {
      var n := |times| - 1;
      RecentMembers(times[..n], now, w, times[n]);
    }
  }

  lemma {:induction false} ChosenSorted(calls: seq<Call>, pick: seq<bool>, source: string, bound: int)
    requires |pick| == |calls|
    requires Monotone(calls, source)
    requires forall i :: 0 <= i < |calls| && calls[i].source == source ==> calls[i].at <= bound
    ensures Sorted(Chosen(calls, pick, source))
    ensures forall i :: 0 <= i < |Chosen(calls, pick, source)| ==> Chosen(calls, pick, source)[i] <= bound
  {
    if calls != [] {
      var n := |calls| - 1;
      ChosenSorted(calls[..n], pick[..n], source, if calls[n].source == source then calls[n].at else bound);
    }
  }

  // One more call, seen from the history and from the deques.
  lemma RunSnoc(c: Config, calls: seq<Call>, call: Call, source: string)
    ensures Run(c, calls + [call]) == Next(c, Run(c, calls), call)
    ensures Decisions(c, calls + [call]) == Decisions(c, calls) + [Decide(c, Run(c, calls), call)]
    ensures Admitted(c, calls + [call], source)
         == Admitted(c, calls, source)
            + if call.source == source && Decide(c, Run(c, calls), call) then [call.at] else []
  {
    var all := calls + [call];
    assert all[..|calls|] == calls;
    assert Decisions(c, all)[..|calls|] == Decisions(c, calls);
  }

  // Main result 1. However the calls of all sources interleave, what the deque of
  // `source` holds after eviction at any later time is exactly the part of the whole
  // admission history that is still inside the window.
  lemma {:induction false} DequeIsHistory(c: Config, calls: seq<Call>, source: string, now: int)
    requires Tracked(c, source)
    requires Monotone(calls, source)
    requires forall i :: 0 <= i < |calls| && calls[i].source == source ==> calls[i].at <= now
    ensures Sorted(Bucket(Run(c, calls), source))
    ensures forall i :: 0 <= i < |Bucket(Run(c, calls), source)| ==> Bucket(Run(c, calls), source)[i] <= now
    ensures Evict(Bucket(Run(c, calls), source), now, c.windowMs) == Recent(Admitted(c, calls, source), now, c.windowMs)
  {
    if calls != [] {
      var n := |calls| - 1;
      var prefix, call := calls[..n], calls[n];
      assert calls == prefix + [call];
      RunSnoc(c, prefix, call, source);
      if call.source == source {
        DequeIsHistory(c, prefix, source, call.at);
        ChosenSorted(prefix, Decisions(c, prefix), source, call.at);
        DequeStep(c, Run(c, prefix), Admitted(c, prefix, source), call, now);
      } else {
        DequeIsHistory(c, prefix, source, now);
      }
    }
  }

  // One call of the source itself keeps the deque in step with the history.
  lemma DequeStep(c: Config, buckets: Buckets, adm: seq<int>, call: Call, now: int)
    requires Tracked(c, call.source)
    requires call.at <= now
    requires Sorted(adm) && forall i :: 0 <= i < |adm| ==> adm[i] <= call.at
    requires Evict(Bucket(buckets, call.source), call.at, c.windowMs) == Recent(adm, call.at, c.windowMs)
    ensures
      var adm' := if Decide(c, buckets, call) then adm + [call.at] else adm;
      var q' := Bucket(Next(c, buckets, call), call.source);
      && Sorted(q')
      && (forall i :: 0 <= i < |q'| ==> q'[i] <= call.at)
      && Evict(q', now, c.windowMs) == Recent(adm', now, c.windowMs)
  {
    KeepIsRecent(adm, call.at, now, c.windowMs);
    PushIsRecent(adm, call.at, now, c.windowMs);
  }

  lemma KeepIsRecent(adm: seq<int>, t: int, now: int, w: int)
    requires t <= now
    requires Sorted(adm) && forall i :: 0 <= i < |adm| ==> adm[i] <= t
    ensures var q := Recent(adm, t, w);
      Sorted(q) && (forall i :: 0 <= i < |q| ==> q[i] <= t) && Evict(q, now, w) == Recent(adm, now, w)
  {
    RecentMembers(adm, t, w, t);
    RecentTwice(adm, t, now, w);
    EvictIsRecent(Recent(adm, t, w), now, w);
  }

  lemma PushIsRecent(adm: seq<int>, t: int, now: int, w: int)
    requires t <= now
    requires Sorted(adm) && forall i :: 0 <= i < |adm| ==> adm[i] <= t
    ensures var q := Recent(adm, t, w) + [t];
      Sorted(q) && (forall i :: 0 <= i < |q| ==> q[i] <= t) && Evict(q, now, w) == Recent(adm + [t], now, w)
  {
    var kept := Recent(adm, t, w);
    RecentMembers(adm, t, w, t);
    assert Sorted(kept + [t]);
    EvictIsRecent(kept + [t], now, w);
    assert Recent(kept + [t], now, w) == Recent(adm + [t], now, w) by {
      RecentTwice(adm, t, now, w);
      RecentConcat(kept, [t], now, w);
      RecentConcat(adm, [t], now, w);
    }
  }

  // Main result 2. `allow` answers yes exactly when fewer than maxRequests admissions
  // of the whole history are still inside the window.
  lemma {:induction false} DecideByHistory(c: Config, calls: seq<Call>, call: Call)
    requires Tracked(c, call.source)
    requires Monotone(calls + [call], call.source)
    ensures Decide(c, Run(c, calls), call)
       <==> |Recent(Admitted(c, calls, call.source), call.at, c.windowMs)| < c.maxRequests
  {
    InOrder(calls, call);
    DequeIsHistory(c, calls, call.source, call.at);
  }

  // A call leaves every other source's deque alone.
  lemma OtherSourcesUntouched(c: Config, buckets: Buckets, call: Call, other: string)
    requires other != call.source
    ensures (other in Next(c, buckets, call)) == (other in buckets)
    ensures Bucket(Next(c, buckets, call), other) == Bucket(buckets, other)
  {
  }

  // ------------------------------------------------------------------
  // No window is ever over-full

  lemma {:induction false} WindowInsideRecent(times: seq<int>, lo: int, hi: int, now: int, w: int)
    requires now - w <= lo
    ensures CountIn(times, lo, hi) <= |Recent(times, now, w)|
  {
    if times != [] {
      WindowInsideRecent(times[..|times| - 1], lo, hi, now, w);
    }
  }

  // Over a run with a clock that never runs backwards, whatever the configuration.
  lemma {:induction false} NotOverfullInOrder(c: Config, calls: seq<Call>, source: string, lo: int)
    requires Tracked(c, source)
    requires Monotone(calls, source)
    ensures WindowCount(Admitted(c, calls, source), lo, c.windowMs) <= Cap(c)
  {
    if calls != [] {
      var n := |calls| - 1;
      var prefix, call := calls[..n], calls[n];
      assert calls == prefix + [call];
      RunSnoc(c, prefix, call, source);
      NotOverfullInOrder(c, prefix, source, lo);
      var adm := Admitted(c, prefix, source);
      assert (adm + [call.at])[..|adm|] == adm;
      if call.source == source && lo <= call.at <= lo + c.windowMs {
        DecideByHistory(c, prefix, call);
        WindowInsideRecent(adm, lo, lo + c.windowMs, call.at, c.windowMs);
      }
    }
  }

  lemma {:induction false} AdmitsNothing(c: Config, calls: seq<Call>, source: string)
    requires Tracked(c, source)
    requires c.maxRequests <= 0
    ensures Admitted(c, calls, source) == []
  {
    if calls != [] {
      var n := |calls| - 1;
      AdmitsNothing(c, calls[..n], source);
      assert calls == calls[..n] + [calls[n]];
      RunSnoc(c, calls[..n], calls[n], source);
    }
  }

  ghost predicate Apart(times: seq<int>, w: int) {
    forall i, j :: 0 <= i < j < |times| ==> times[j] - times[i] > w
  }

  // With a maximum of one the deque is the last admission, so on any clock an admission
  // is more than a window later than all admissions before it.
  lemma {:induction false} OneAtATime(c: Config, calls: seq<Call>, source: string)
    requires Tracked(c, source)
    requires c.maxRequests == 1 && c.windowMs >= 0
    ensures Bucket(Run(c, calls), source) == LastN(Admitted(c, calls, source), 1)
    ensures Apart(Admitted(c, calls, source), c.windowMs)
  {
    if calls != [] {
      var n := |calls| - 1;
      OneAtATime(c, calls[..n], source);
      assert calls == calls[..n] + [calls[n]];
      RunSnoc(c, calls[..n], calls[n], source);
      if calls[n].source == source {
        OneStep(c, Run(c, calls[..n]), Admitted(c, calls[..n], source), calls[n]);
      } else {
        OtherSourcesUntouched(c, Run(c, calls[..n]), calls[n], source);
      }
    }
  }

  lemma OneStep(c: Config, buckets: Buckets, adm: seq<int>, call: Call)
    requires Tracked(c, call.source)
    requires c.maxRequests == 1 && c.windowMs >= 0
    requires Bucket(buckets, call.source) == LastN(adm, 1) && Apart(adm, c.windowMs)
    ensures var adm' := if Decide(c, buckets, call) then adm + [call.at] else adm;
      Bucket(Next(c, buckets, call), call.source) == LastN(adm', 1) && Apart(adm', c.windowMs)
  {
    if adm != [] {
      var last := adm[|adm| - 1];
      assert LastN(adm, 1) == [last] && [last][1..] == [];
      assert Evict([last], call.at, c.windowMs) == if call.at - last > c.windowMs then [] else [last];
    }
  }

  // Any two of the times are more than a window apart, so a window holds one of them.
  ghost predicate Spread(times: seq<int>, w: int) {
    forall i, j :: 0 <= i < j < |times| ==> times[j] - times[i] > w || times[i] - times[j] > w
  }

  lemma {:induction false} CountSpread(times: seq<int>, lo: int, w: int)
    requires Spread(times, w)
    ensures CountIn(times, lo, lo + w) <= 1
  {
    if times != [] {
      var n := |times| - 1;
      CountSpread(times[..n], lo, w);
      if lo <= times[n] <= lo + w {
        CountOutside(times[..n], lo, lo + w);
      }
    }
  }

  lemma {:induction false} CountOutside(times: seq<int>, lo: int, hi: int)
    requires forall i :: 0 <= i < |times| ==> times[i] < lo || times[i] > hi
    ensures CountIn(times, lo, hi) == 0
  {
    if times != [] {
      CountOutside(times[..|times| - 1], lo, hi);
    }
  }

  // The configurations whose window guarantee does not depend on the clock.
  predicate ClockProof(c: Config) {
    c.maxRequests <= 1 || c.windowMs < 0
  }

  // Main result 3. Over the whole run, every closed window of length windowMs holds at
  // most maxRequests admissions of a source (none at all when maxRequests is negative),
  // if the clock never runs backwards or the configuration does not care.
  lemma NoWindowOverfull(c: Config, calls: seq<Call>, source: string, lo: int)
    requires Tracked(c, source)
    requires Monotone(calls, source) || ClockProof(c)
    ensures WindowCount(Admitted(c, calls, source), lo, c.windowMs) <= Cap(c)
  {
    if Monotone(calls, source) {
      NotOverfullInOrder(c, calls, source, lo);
    } else if c.windowMs < 0 {
      CountOutside(Admitted(c, calls, source), lo, lo + c.windowMs);
    } else if c.maxRequests == 1 {
      OneAtATime(c, calls, source);
      CountSpread(Admitted(c, calls, source), lo, c.windowMs);
    } else {
      AdmitsNothing(c, calls, source);
    }
  }

  // Calls of one source at the given times.
  function CallsAt(source: string, times: seq<int>): (r: seq<Call>)
    ensures |r| == |times|
  {
    seq(|times|, i requires 0 <= i < |times| => Call(source, times[i]))
  }

  function Repeat(at: int, n: nat): (r: seq<int>)
    ensures |r| == n && forall i :: 0 <= i < n ==> r[i] == at
  {
    seq(n, _ => at)
  }

  // A call that finds room is admitted behind what eviction left.
  lemma FindsRoom(c: Config, calls: seq<Call>, call: Call, q: seq<int>)
    requires Tracked(c, call.source)
    requires q == Evict(Bucket(Run(c, calls), call.source), call.at, c.windowMs)
    requires |q| < c.maxRequests
    ensures Bucket(Run(c, calls + [call]), call.source) == q + [call.at]
    ensures Admitted(c, calls + [call], call.source) == Admitted(c, calls, call.source) + [call.at]
  {
    RunSnoc(c, calls, call, call.source);
  }

  lemma FindsNoRoom(c: Config, calls: seq<Call>, call: Call, q: seq<int>)
    requires Tracked(c, call.source)
    requires q == Evict(Bucket(Run(c, calls), call.source), call.at, c.windowMs)
    requires |q| >= c.maxRequests
    ensures Admitted(c, calls + [call], call.source) == Admitted(c, calls, call.source)
  {
    RunSnoc(c, calls, call, call.source);
  }

  // Calls that see the first of them inside the window are admitted up to the maximum,
  // and fill the deque.
  lemma {:induction false} FillsUp(c: Config, source: string, times: seq<int>)
    requires Tracked(c, source)
    requires |times| <= c.maxRequests
    requires forall i :: 1 <= i < |times| ==> times[i] - times[0] <= c.windowMs
    ensures Bucket(Run(c, CallsAt(source, times)), source) == times
    ensures Admitted(c, CallsAt(source, times), source) == times
  {
    if times != [] {
      var n := |times| - 1;
      var before, last := times[..n], times[n];
      FillsUp(c, source, before);
      assert CallsAt(source, times) == CallsAt(source, before) + [Call(source, last)];
      assert before + [last] == times;
      FindsRoom(c, CallsAt(source, before), Call(source, last), before);
    }
  }

  lemma {:induction false} EvictAll(q: seq<int>, now: int, w: int)
    requires forall i :: 0 <= i < |q| ==> now - q[i] > w
    ensures Evict(q, now, w) == []
  {
    if q != [] {
      EvictAll(q[1..], now, w);
    }
  }

  // A full burst at 0, one call when it has left the window, and one a millisecond
  // before that.
  function BackwardsRun(c: Config, source: string): seq<Call>
    requires c.maxRequests >= 0
  {
    CallsAt(source, Repeat(0, c.maxRequests)) + [Call(source, c.windowMs + 1)] + [Call(source, c.windowMs)]
  }

  // All of them are admitted: the deque has forgotten the burst when the clock steps back.
  lemma BackwardsClockOverfillsWindow(c: Config, source: string)
    requires Tracked(c, source)
    requires !ClockProof(c)
    ensures WindowCount(Admitted(c, BackwardsRun(c, source), source), 0, c.windowMs) == c.maxRequests + 1
  {
    var m, w := c.maxRequests, c.windowMs;
    var burst, late, back := CallsAt(source, Repeat(0, m)), Call(source, w + 1), Call(source, w);
    FillsUp(c, source, Repeat(0, m));
    EvictAll(Repeat(0, m), w + 1, w);
    FindsRoom(c, burst, late, []);
    assert [] + [w + 1] == [w + 1];
    FindsRoom(c, burst + [late], back, [w + 1]);
    CountBurst(m, w);
  }

  lemma CountSnoc(times: seq<int>, t: int, lo: int, hi: int)
    ensures CountIn(times + [t], lo, hi) == CountIn(times, lo, hi) + if lo <= t <= hi then 1 else 0
  {
    assert (times + [t])[..|times|] == times;
  }

  lemma CountBurst(m: nat, w: nat)
    ensures WindowCount(Repeat(0, m) + [w + 1] + [w], 0, w) == m + 1
  {
    CountAll(Repeat(0, m), 0, w);
    CountSnoc(Repeat(0, m), w + 1, 0, w);
    CountSnoc(Repeat(0, m) + [w + 1], w, 0, w);
  }

  lemma {:induction false} CountAll(times: seq<int>, lo: int, hi: int)
    requires forall i :: 0 <= i < |times| ==> lo <= times[i] <= hi
    ensures CountIn(times, lo, hi) == |times|
  {
    if times != [] {
      CountAll(times[..|times| - 1], lo, hi);
    }
  }

  // Main result 4. Exactly these configurations keep the limit whatever the clock does.
  lemma GuaranteeWithoutClock(c: Config, source: string)
    requires Tracked(c, source)
    ensures (forall calls, lo :: WindowCount(Admitted(c, calls, source), lo, c.windowMs) <= Cap(c))
       <==> c.maxRequests <= 1 || c.windowMs < 0
  {
    if ClockProof(c) {
      forall calls, lo
        ensures WindowCount(Admitted(c, calls, source), lo, c.windowMs) <= Cap(c)
      {
        NoWindowOverfull(c, calls, source, lo);
      }
    } else {
      BackwardsClockOverfillsWindow(c, source);
      assert WindowCount(Admitted(c, BackwardsRun(c, source), source), 0, c.windowMs) > Cap(c);
    }
  }

  // ------------------------------------------------------------------
  // Greedy admission is optimal

  // `m` separates the calls of `source` older than `lo` from the others.
  ghost predicate Splits(calls: seq<Call>, source: string, m: nat, lo: int) {
    && m <= |calls|
    && (forall i :: 0 <= i < m && calls[i].source == source ==> calls[i].at < lo)
    && (forall i :: m <= i < |calls| && calls[i].source == source ==> lo <= calls[i].at)
  }

  lemma {:induction false} SplitPoint(calls: seq<Call>, source: string, lo: int) returns (m: nat)
    requires Monotone(calls, source)
    ensures Splits(calls, source, m, lo)
  {
    if calls == [] {
      m := 0;
    } else {
      var n := |calls| - 1;
      if calls[n].source == source && calls[n].at < lo {
        m := n + 1;
      } else {
        m := SplitPoint(calls[..n], source, lo);
        assert Splits(calls[..n], source, m, lo);
      }
    }
  }

  // Any selection is its part before the split plus its part inside the window.
  lemma {:induction false} ChosenSplit(calls: seq<Call>, pick: seq<bool>, source: string, m: nat, lo: int, hi: int)
    requires |pick| == |calls|
    requires Splits(calls, source, m, lo)
    requires forall i :: 0 <= i < |calls| && calls[i].source == source ==> calls[i].at <= hi
    ensures |Chosen(calls, pick, source)|
         == |Chosen(calls[..m], pick[..m], source)| + CountIn(Chosen(calls, pick, source), lo, hi)
  {
    var n := |calls| - 1;
    if m == |calls| {
      assert calls[..m] == calls && pick[..m] == pick;
      ChosenBelow(calls, pick, source, lo, hi);
    } else {
      assert calls[..n][..m] == calls[..m] && pick[..n][..m] == pick[..m];
      ChosenSplit(calls[..n], pick[..n], source, m, lo, hi);
      var before := Chosen(calls[..n], pick[..n], source);
      if calls[n].source == source && pick[n] {
        assert (before + [calls[n].at])[..|before|] == before;
      }
    }
  }

  lemma {:induction false} ChosenBelow(calls: seq<Call>, pick: seq<bool>, source: string, lo: int, hi: int)
    requires |pick| == |calls|
    requires forall i :: 0 <= i < |calls| && calls[i].source == source ==> calls[i].at < lo
    ensures CountIn(Chosen(calls, pick, source), lo, hi) == 0
  {
    if calls != [] {
      var n := |calls| - 1;
      ChosenBelow(calls[..n], pick[..n], source, lo, hi);
      var before := Chosen(calls[..n], pick[..n], source);
      if calls[n].source == source && pick[n] {
        assert (before + [calls[n].at])[..|before|] == before;
      }
    }
  }

  // Inside a run that ends at `now`, the window count of the recent admissions is their number.
  lemma {:induction false} RecentCount(times: seq<int>, now: int, w: int)
    requires forall i :: 0 <= i < |times| ==> times[i] <= now
    ensures |Recent(times, now, w)| == CountIn(times, now - w, now)
  {
    if times != [] {
      RecentCount(times[..|times| - 1], now, w);
    }
  }

  lemma {:induction false} CountPrefix(a: seq<int>, b: seq<int>, lo: int, hi: int)
    ensures CountIn(a, lo, hi) <= CountIn(a + b, lo, hi)
  {
    if b == [] {
      assert a + b == a;
    } else {
      CountPrefix(a, b[..|b| - 1], lo, hi);
      assert (a + b)[..|a| + |b| - 1] == a + b[..|b| - 1];
    }
  }

  lemma LimitNotNegative(times: seq<int>, c: Config)
    requires WithinLimit(times, c)
    ensures c.maxRequests >= 0
  {
    assert WindowCount(times, 0, c.windowMs) <= c.maxRequests;
  }

  lemma WithinLimitPrefix(a: seq<int>, b: seq<int>, c: Config)
    requires WithinLimit(a + b, c)
    ensures WithinLimit(a, c)
  {
    forall lo: int
      ensures WindowCount(a, lo, c.windowMs) <= c.maxRequests
    {
      assert WindowCount(a + b, lo, c.windowMs) <= c.maxRequests;
      CountPrefix(a, b, lo, lo + c.windowMs);
    }
  }

  lemma {:induction false} ChosenPrefix(calls: seq<Call>, pick: seq<bool>, source: string, m: nat)
    returns (rest: seq<int>)
    requires |pick| == |calls|
    requires m <= |calls|
    ensures Chosen(calls, pick, source) == Chosen(calls[..m], pick[..m], source) + rest
  {
    if m == |calls| {
      rest := [];
      assert calls[..m] == calls && pick[..m] == pick;
    } else {
      var n := |calls| - 1;
      var r := ChosenPrefix(calls[..n], pick[..n], source, m);
      assert calls[..n][..m] == calls[..m] && pick[..n][..m] == pick[..m];
      rest := if calls[n].source == source && pick[n] then r + [calls[n].at] else r;
    }
  }

  lemma {:induction false} DecisionsPrefix(c: Config, calls: seq<Call>, m: nat)
    requires m <= |calls|
    ensures Decisions(c, calls)[..m] == Decisions(c, calls[..m])
  {
    if m < |calls| {
      var n := |calls| - 1;
      DecisionsPrefix(c, calls[..n], m);
      assert calls[..n][..m] == calls[..m];
      assert Decisions(c, calls)[..m] == Decisions(c, calls[..n])[..m];
    } else {
      assert calls[..m] == calls;
    }
  }

  // Main result 5. No selection of the same calls that respects the limit in every
  // window lets more of them through than the limiter does. Only a negative window with
  // a maximum of zero is excluded; see GreedyNotOptimal.
  lemma {:induction false} GreedyIsOptimal(c: Config, calls: seq<Call>, source: string, pick: seq<bool>)
    requires Tracked(c, source)
    requires c.windowMs >= 0 || c.maxRequests != 0
    requires Monotone(calls, source)
    requires |pick| == |calls|
    requires WithinLimit(Chosen(calls, pick, source), c)
    ensures |Chosen(calls, pick, source)| <= |Admitted(c, calls, source)|
    decreases |calls|
  {
    if calls != [] {
      var n := |calls| - 1;
      var prefix := calls[..n];
      var more := ChosenPrefix(calls, pick, source, n);
      WithinLimitPrefix(Chosen(prefix, pick[..n], source), more, c);
      GreedyIsOptimal(c, prefix, source, pick[..n]);
      assert calls == prefix + [calls[n]];
      RunSnoc(c, prefix, calls[n], source);
      if calls[n].source == source && pick[n] && !Decide(c, Run(c, prefix), calls[n]) {
        GreedyCatchesUp(c, calls, source, pick);
      }
    }
  }

  // The one hard case: the other selection takes a call that the limiter refuses.
  lemma {:induction false} GreedyCatchesUp(c: Config, calls: seq<Call>, source: string, pick: seq<bool>)
    requires Tracked(c, source)
    requires c.windowMs >= 0 || c.maxRequests != 0
    requires Monotone(calls, source)
    requires calls != [] && |pick| == |calls|
    requires WithinLimit(Chosen(calls, pick, source), c)
    requires var n := |calls| - 1; calls[n].source == source && pick[n] && !Decide(c, Run(c, calls[..n]), calls[n])
    ensures |Chosen(calls, pick, source)| <= |Admitted(c, calls[..|calls| - 1], source)|
    decreases |calls|, 0
  {
    var n := |calls| - 1;
    var prefix, call := calls[..n], calls[n];
    assert calls == prefix + [call];
    LimitNotNegative(Chosen(calls, pick, source), c);
    var m := WindowIsFull(c, prefix, call);
    assert calls[..m] == prefix[..m];
    OtherFitsWindow(c, calls, source, pick, m);
    var more := ChosenPrefix(calls, pick, source, m);
    WithinLimitPrefix(Chosen(calls[..m], pick[..m], source), more, c);
    // before the cut the limiter is ahead by induction
    GreedyIsOptimal(c, calls[..m], source, pick[..m]);
  }

  lemma SplitsOneMore(calls: seq<Call>, source: string, m: nat, lo: int)
    requires calls != [] && m < |calls|
    requires Splits(calls[..|calls| - 1], source, m, lo)
    requires lo <= calls[|calls| - 1].at
    ensures Splits(calls, source, m, lo)
  {
    var n := |calls| - 1;
    assert forall i :: 0 <= i < n ==> calls[..n][i] == calls[i];
  }

  // The other selection fits its part after the cut into one window.
  lemma OtherFitsWindow(c: Config, calls: seq<Call>, source: string, pick: seq<bool>, m: nat)
    requires c.windowMs >= 0
    requires Monotone(calls, source)
    requires calls != [] && |pick| == |calls|
    requires WithinLimit(Chosen(calls, pick, source), c)
    requires var n := |calls| - 1; calls[n].source == source
    requires m < |calls| && Splits(calls[..|calls| - 1], source, m, calls[|calls| - 1].at - c.windowMs)
    ensures |Chosen(calls, pick, source)| <= |Chosen(calls[..m], pick[..m], source)| + c.maxRequests
  {
    var n := |calls| - 1;
    var now := calls[n].at;
    var lo := now - c.windowMs;
    SplitsOneMore(calls, source, m, lo);
    WindowThatEnds(Chosen(calls, pick, source), c, now);
    ChosenSplit(calls, pick, source, m, lo, now);
  }

  lemma WindowThatEnds(times: seq<int>, c: Config, now: int)
    requires WithinLimit(times, c)
    ensures CountIn(times, now - c.windowMs, now) <= c.maxRequests
  {
    assert WindowCount(times, now - c.windowMs, c.windowMs) <= c.maxRequests;
  }

  // When a call is refused, the admissions are those before some cut and at least
  // maxRequests after it, and everything after the cut is inside the window.
  lemma {:induction false} WindowIsFull(c: Config, prefix: seq<Call>, call: Call) returns (m: nat)
    requires Tracked(c, call.source)
    requires c.windowMs >= 0 || c.maxRequests > 0
    requires Monotone(prefix + [call], call.source)
    requires !Decide(c, Run(c, prefix), call)
    ensures Splits(prefix, call.source, m, call.at - c.windowMs)
    ensures c.windowMs >= 0
    ensures |Admitted(c, prefix, call.source)| >= |Admitted(c, prefix[..m], call.source)| + c.maxRequests
  {
    var source := call.source;
    var lo := call.at - c.windowMs;
    InOrder(prefix, call);
    var adm := Admitted(c, prefix, source);
    RefusedMeansFull(c, prefix, call, adm);
    RecentIsFull(adm, call.at, c.windowMs, c.maxRequests);
    m := SplitPoint(prefix, source, lo);
    ChosenSplit(prefix, Decisions(c, prefix), source, m, lo, call.at);
    DecisionsPrefix(c, prefix, m);
  }

  // A refused call sees at least maxRequests admissions in the window that ends with it.
  lemma RefusedMeansFull(c: Config, prefix: seq<Call>, call: Call, adm: seq<int>)
    requires Tracked(c, call.source)
    requires Monotone(prefix + [call], call.source)
    requires !Decide(c, Run(c, prefix), call)
    requires adm == Admitted(c, prefix, call.source)
    ensures |Recent(adm, call.at, c.windowMs)| >= c.maxRequests
    ensures forall i :: 0 <= i < |adm| ==> adm[i] <= call.at
  {
    AdmittedBefore(c, prefix, call);
    DecideByHistory(c, prefix, call);
  }

  lemma RecentIsFull(times: seq<int>, now: int, w: int, least: int)
    requires forall i :: 0 <= i < |times| ==> times[i] <= now
    requires |Recent(times, now, w)| >= least
    requires w >= 0 || least > 0
    ensures w >= 0 && CountIn(times, now - w, now) >= least
  {
    RecentCount(times, now, w);
    CountNeedsWindow(times, now - w, now);
  }

  lemma AdmittedBefore(c: Config, prefix: seq<Call>, call: Call)
    requires Monotone(prefix + [call], call.source)
    ensures var adm := Admitted(c, prefix, call.source);
      forall i :: 0 <= i < |adm| ==> adm[i] <= call.at
  {
    InOrder(prefix, call);
    ChosenSorted(prefix, Decisions(c, prefix), call.source, call.at);
  }

  lemma CountNeedsWindow(times: seq<int>, lo: int, hi: int)
    ensures CountIn(times, lo, hi) > 0 ==> lo <= hi
  {
    if hi < lo {
      CountOutside(times, lo, hi);
    }
  }

  lemma InOrder(prefix: seq<Call>, call: Call)
    requires Monotone(prefix + [call], call.source)
    ensures Monotone(prefix, call.source)
    ensures forall i :: 0 <= i < |prefix| && prefix[i].source == call.source ==> prefix[i].at <= call.at
  {
    var all := prefix + [call];
    assert forall i :: 0 <= i < |prefix| ==> all[i] == prefix[i];
    assert all[|prefix|] == call;
  }

  // In the excluded configurations no window holds any call, so letting a call through
  // respects the limit, and the limiter still refuses it.
  lemma GreedyNotOptimal(c: Config, call: Call)
    requires Tracked(c, call.source)
    requires c.windowMs < 0 && c.maxRequests == 0
    ensures WithinLimit(Chosen([call], [true], call.source), c)
    ensures |Chosen([call], [true], call.source)| > |Admitted(c, [call], call.source)|
  {
    var times := Chosen([call], [true], call.source);
    forall lo: int
      ensures WindowCount(times, lo, c.windowMs) <= c.maxRequests
    {
      CountOutside(times, lo, lo + c.windowMs);
    }
    assert [] + [call] == [call];
    RunSnoc(c, [], call, call.source);
  }

  // `pick` lets no more through than the limiter, if it respects the limit.
  ghost predicate AsGood(c: Config, calls: seq<Call>, source: string, pick: seq<bool>) {
    |pick| == |calls| && WithinLimit(Chosen(calls, pick, source), c) ==>
      |Chosen(calls, pick, source)| <= |Admitted(c, calls, source)|
  }

  // The greedy limiter is optimal on every run in order exactly outside these configurations.
  lemma GreedyOptimalExactly(c: Config, source: string)
    requires Tracked(c, source)
    ensures (forall calls, pick :: Monotone(calls, source) ==> AsGood(c, calls, source, pick)) <==>
      c.windowMs >= 0 || c.maxRequests != 0
  {
    if c.windowMs >= 0 || c.maxRequests != 0 {
      forall calls, pick | Monotone(calls, source)
        ensures AsGood(c, calls, source, pick)
      {
        if |pick| == |calls| && WithinLimit(Chosen(calls, pick, source), c) {
          GreedyIsOptimal(c, calls, source, pick);
        }
      }
    } else {
      GreedyNotOptimal(c, Call(source, 0));
      assert Monotone([Call(source, 0)], source) && !AsGood(c, [Call(source, 0)], source, [true]);
    }
  }

  function Everything(n: nat): (r: seq<bool>)
    ensures |r| == n
  {
    seq(n, _ => true)
  }

  // On any clock only a limiter that admits nothing, and has to, is optimal: any other one
  // refuses the last of enough calls that go back by more than a window each.
  lemma GreedyOptimalWithoutClock(c: Config, source: string)
    requires Tracked(c, source)
    ensures (forall calls, pick :: AsGood(c, calls, source, pick)) <==>
      c.maxRequests < 0 || (c.maxRequests == 0 && c.windowMs >= 0)
  {
    if c.maxRequests < 0 || (c.maxRequests == 0 && c.windowMs >= 0) {
      forall calls, pick
        ensures AsGood(c, calls, source, pick)
      {
        if |pick| == |calls| && WithinLimit(Chosen(calls, pick, source), c) {
          NothingToChoose(c, Chosen(calls, pick, source));
        }
      }
    } else if c.maxRequests == 0 {
      GreedyNotOptimal(c, Call(source, 0));
      assert !AsGood(c, [Call(source, 0)], source, [true]);
    } else {
      var times := SomeDescent(c.maxRequests + 1, c.windowMs);
      DescentRefused(c, source, times);
    }
  }

  lemma LastIsCounted(times: seq<int>, w: nat)
    requires times != []
    ensures WindowCount(times, times[|times| - 1], w) > 0
  {
  }

  lemma NothingToChoose(c: Config, times: seq<int>)
    requires c.maxRequests < 0 || (c.maxRequests == 0 && c.windowMs >= 0)
    requires WithinLimit(times, c)
    ensures times == []
  {
    LimitNotNegative(times, c);
    if times != [] {
      LastIsCounted(times, c.windowMs);
    }
  }

  // Times that go back by more than a window each.
  ghost predicate Descent(times: seq<int>, w: int) {
    forall i, j :: 0 <= i < j < |times| ==> times[i] - times[j] > w && times[j] - times[i] <= w
  }

  lemma {:induction false} SomeDescent(n: nat, w: int) returns (times: seq<int>)
    ensures |times| == n && Descent(times, w)
  {
    times := [];
    if n > 0 {
      var before := SomeDescent(n - 1, w);
      times := before + [if n == 1 then 0 else before[n - 2] - 1 - if w < 0 then -w else w];
    }
  }

  // They pile up in the deque, so one more than the maximum is refused.
  lemma DescentRefused(c: Config, source: string, times: seq<int>)
    requires Tracked(c, source)
    requires |times| == c.maxRequests + 1 > 1 && Descent(times, c.windowMs)
    ensures !AsGood(c, CallsAt(source, times), source, Everything(|times|))
  {
    LastRefused(c, source, times);
    EverythingChosen(source, times);
    DescentWithinLimit(c, times);
  }

  lemma LastRefused(c: Config, source: string, times: seq<int>)
    requires Tracked(c, source)
    requires |times| == c.maxRequests + 1 > 1 && Descent(times, c.windowMs)
    ensures |Admitted(c, CallsAt(source, times), source)| == c.maxRequests
  {
    var n := |times| - 1;
    var before, last := times[..n], Call(source, times[n]);
    FillsUp(c, source, before);
    NothingTooOld(before, times[n], c.windowMs);
    FindsNoRoom(c, CallsAt(source, before), last, before);
    assert CallsAt(source, times) == CallsAt(source, before) + [last];
  }

  lemma NothingTooOld(q: seq<int>, now: int, w: int)
    requires q != [] ==> now - q[0] <= w
    ensures Evict(q, now, w) == q
  {
  }

  lemma DescentWithinLimit(c: Config, times: seq<int>)
    requires c.maxRequests > 0 && Descent(times, c.windowMs)
    ensures WithinLimit(times, c)
  {
    forall lo: int
      ensures WindowCount(times, lo, c.windowMs) <= c.maxRequests
    {
      CountSpread(times, lo, c.windowMs);
    }
  }

  lemma {:induction false} EverythingChosen(source: string, times: seq<int>)
    ensures Chosen(CallsAt(source, times), Everything(|times|), source) == times
  {
    if times != [] {
      var n := |times| - 1;
      EverythingChosen(source, times[..n]);
      assert CallsAt(source, times)[..n] == CallsAt(source, times[..n]);
      assert Everything(n + 1)[..n] == Everything(n);
      assert times[..n] + [times[n]] == times;
    }
  }

  // What one more call means for the run, in one place for `Allow`.
  lemma AllowMeansHistory(c: Config, calls: seq<Call>, call: Call)
    ensures Run(c, calls + [call]) == Next(c, Run(c, calls), call)
    ensures Tracked(c, call.source) && Monotone(calls + [call], call.source) ==>
      (Decide(c, Run(c, calls), call) <==>
        |Recent(Admitted(c, calls, call.source), call.at, c.windowMs)| < c.maxRequests)
  {
    RunSnoc(c, calls, call, call.source);
    if Tracked(c, call.source) && Monotone(calls + [call], call.source) {
      DecideByHistory(c, calls, call);
    }
  }

  // ------------------------------------------------------------------
  // The object itself

  // The timestamps before the first that is still in the window.
  ghost predicate TooOld(q: seq<int>, now: int, windowMs: int, k: int) {
    && 0 <= k <= |q| && (forall i :: 0 <= i < k ==> now - q[i] > windowMs)
    && (k < |q| ==> now - q[k] <= windowMs)
  }

  predicate Answered(left: seq<int>, now: int, maxRequests: int, allowed: bool, q: seq<int>) {
    (allowed <==> |left| < maxRequests) && q == left + if allowed then [now] else []
  }

  lemma {:induction false} EvictMeaning(q: seq<int>, now: int, windowMs: int) returns (k: nat)
    ensures TooOld(q, now, windowMs, k) && Evict(q, now, windowMs) == q[k..]
  {
    k := 0;
    if q != [] && now - q[0] > windowMs {
      var rest := EvictMeaning(q[1..], now, windowMs);
      k := rest + 1;
      assert q == [q[0]] + q[1..];
    }
  }

  class Limiter {
    const config: Config
    var buckets: Buckets
    ghost var calls: seq<Call>

    // The deques are those of the run so far.
    ghost predicate Valid()
      reads this
    {
      buckets == Run(config, calls)
    }

    constructor (enabled: bool, maxRequests: int, windowMs: int)
      ensures Valid() && calls == []
      ensures config == Config(enabled, maxRequests, windowMs)
    {
      config := Config(enabled, maxRequests, windowMs);
      buckets := map[];
      calls := [];
    }

    method Allow(source: string, now: int) returns (allowed: bool)
      requires Valid()
      modifies this
      ensures Valid() && calls == old(calls) + [Call(source, now)]
      ensures allowed == Decide(config, old(buckets), Call(source, now))
      ensures Tracked(config, source) && Monotone(calls, source) ==>
        (allowed <==> |Recent(Admitted(config, old(calls), source), now, config.windowMs)| < config.maxRequests)
      ensures forall other :: other != source ==> Bucket(buckets, other) == Bucket(old(buckets), other)
      ensures !config.enabled || source == "" ==> allowed && buckets == old(buckets)
      // what is too old goes from the front, and the call joins the rest when there is room
      ensures config.enabled && source != "" ==>
        exists k :: TooOld(Bucket(old(buckets), source), now, config.windowMs, k) &&
          Answered(Bucket(old(buckets), source)[k..], now, config.maxRequests, allowed, Bucket(buckets, source))
    {
      ghost var k := EvictMeaning(Bucket(buckets, source), now, config.windowMs);
      AllowMeansHistory(config, calls, Call(source, now));
      forall other | other != source
        ensures Bucket(Next(config, buckets, Call(source, now)), other) == Bucket(buckets, other)
      {
        OtherSourcesUntouched(config, buckets, Call(source, now), other);
      }
      calls := calls + [Call(source, now)];
      if !config.enabled {
        return true;
      }
      if source == "" {
        return true;
      }
      var q := Bucket(buckets, source);
      while q != [] && now - q[0] > config.windowMs
        invariant Evict(q, now, config.windowMs) == Evict(Bucket(buckets, source), now, config.windowMs)
        invariant buckets == old(buckets)
        decreases |q|
      {
        q := q[1..];
      }
      if |q| >= config.maxRequests {
        buckets := buckets[source := q];
        return false;
      }
      buckets := buckets[source := q + [now]];
      return true;
    }
  }
}
