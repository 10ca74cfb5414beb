/** The per-client sliding-window limiter of the admin endpoints. */
module RateLimits {

  /** A call by a client, with the clock value read for it, in the order in which the lock was taken. */
  datatype Call = Call(ip: string, now: real)

  datatype Limit = Limit(max: nat, window: real)

  /** The deques, and every call so far with its decision. */
  datatype World = World(hits: map<string, seq<real>>, log: seq<(Call, bool)>)

  function QueueOf(hits: map<string, seq<real>>, ip: string): seq<real> {
    if ip in hits then hits[ip] else []
  }

  function Evict(q: seq<real>, cutoff: real): seq<real> {
    if q != [] && q[0] <= cutoff then Evict(q[1..], cutoff) else q
  }

  function StepCall(w: World, c: Call, l: Limit): World {
    var q := Evict(QueueOf(w.hits, c.ip), c.now - l.window);
    var allowed := |q| < l.max;
    World(w.hits[c.ip := if allowed then q + [c.now] else q], w.log + [(c, allowed)])
  }

  function RunCalls(calls: seq<Call>, l: Limit): (w: World)
    ensures |w.log| == |calls|
  {
    if calls == [] then World(map[], [])
    else StepCall(RunCalls(calls[..|calls| - 1], l), calls[|calls| - 1], l)
  }

  // --- what the decisions should be, from the whole history ---

  /** Times of all allowed calls of one client. */
  function AllowedTimes(log: seq<(Call, bool)>, ip: string): seq<real> {
    if log == [] then []
    else
      var (c, allowed) := log[|log| - 1];
      var before := AllowedTimes(log[..|log| - 1], ip);
      if allowed && c.ip == ip then before + [c.now] else before
  }

  /** The times in (lo, hi]. */
  function Within(times: seq<real>, lo: real, hi: real): seq<real> {
    if times == [] then []
    else
      var t := times[|times| - 1];
      var before := Within(times[..|times| - 1], lo, hi);
      if lo < t <= hi then before + [t] else before
  }

  predicate Sorted(times: seq<real>) {
    forall i, j :: 0 <= i < j < |times| ==> times[i] <= times[j]
  }

  predicate UpTo(times: seq<real>, latest: real) {
    forall i :: 0 <= i < |times| ==> times[i] <= latest
  }

  /** Every decision equals: fewer than `max` earlier allowed calls of this client in (now - window, now]. */
  ghost predicate DecidesByHistory(log: seq<(Call, bool)>, l: Limit) {
    forall k :: 0 <= k < |log| ==> DecidedRight(log, k, l)
  }

  predicate DecidedRight(log: seq<(Call, bool)>, k: nat, l: Limit)
    requires k < |log|
  {
    var c := log[k].0;
    log[k].1 <==> |Within(AllowedTimes(log[..k], c.ip), c.now - l.window, c.now)| < l.max
  }

  // --- eviction keeps the window ---

  lemma {:induction false} WithinSplits(a: seq<real>, b: seq<real>, lo: real, hi: real)
    ensures Within(a + b, lo, hi) == Within(a, lo, hi) + Within(b, lo, hi)
  {
    if b == [] {
      assert a + b == a;
    } else {
      WithinSplits(a, b[..|b| - 1], lo, hi);
      assert (a + b)[..|a + b| - 1] == a + b[..|b| - 1];
    }
  }

  lemma {:induction false} WithinAll(times: seq<real>, lo: real, hi: real)
    requires forall i :: 0 <= i < |times| ==> lo < times[i] <= hi
    ensures Within(times, lo, hi) == times
  {
    if times != [] {
      var n := |times| - 1;
      WithinAll(times[..n], lo, hi);
      assert times == times[..n] + [times[n]];
    }
  }

  /** In a sorted deque, popping expired entries from the left leaves exactly the window. */
  lemma {:induction false} EvictIsWithin(q: seq<real>, cutoff: real, latest: real)
    requires Sorted(q) && UpTo(q, latest)
    ensures Evict(q, cutoff) == Within(q, cutoff, latest)
  {
    if q != [] && q[0] <= cutoff {
      EvictIsWithin(q[1..], cutoff, latest);
      WithinSplits(q[..1], q[1..], cutoff, latest);
      assert q == q[..1] + q[1..];
    } else {
      WithinAll(q, cutoff, latest);
    }
  }

  /** A window inside a window. */
  lemma {:induction false} WithinWithin(times: seq<real>, lo: real, hi: real, lo2: real, hi2: real)
    requires lo <= lo2 && (hi2 <= hi || UpTo(times, hi))
    ensures Within(Within(times, lo, hi), lo2, hi2) == Within(times, lo2, hi2)
  {
    if times != [] {
      var n := |times| - 1;
      WithinWithin(times[..n], lo, hi, lo2, hi2);
      if lo < times[n] <= hi {
        var inner := Within(times[..n], lo, hi);
        assert (inner + [times[n]])[..|inner|] == inner;
      }
    }
  }

  /** A wider window holds at least as many. */
  lemma {:induction false} WithinGrows(times: seq<real>, lo: real, hi: real, lo2: real, hi2: real)
    requires lo2 <= lo && hi <= hi2
    ensures |Within(times, lo, hi)| <= |Within(times, lo2, hi2)|
  {
    if times != [] { WithinGrows(times[..|times| - 1], lo, hi, lo2, hi2); }
  }

  lemma {:induction false} WithinKeepsOrder(times: seq<real>, lo: real, hi: real, latest: real)
    requires Sorted(times) && UpTo(times, latest)
    ensures Sorted(Within(times, lo, hi)) && UpTo(Within(times, lo, hi), latest)
    ensures times != [] ==> UpTo(Within(times, lo, hi), times[|times| - 1])
  {
    if times != [] { WithinKeepsOrder(times[..|times| - 1], lo, hi, times[|times| - 1]); }
  }

  /** Evicting moves a window forward. */
  lemma EvictMovesWindow(times: seq<real>, latest: real, now: real, window: real)
    requires Sorted(times) && UpTo(times, latest) && latest <= now
    ensures Evict(Within(times, latest - window, latest), now - window) == Within(times, now - window, now)
  {
    hide Within, Evict;
    WithinKeepsOrder(times, latest - window, latest, latest);
    EvictIsWithin(Within(times, latest - window, latest), now - window, now);
    WithinWithin(times, latest - window, latest, now - window, now);
  }

  lemma WithinOfMore(times: seq<real>, t: real, lo: real, hi: real)
    ensures Within(times + [t], lo, hi) == if lo < t <= hi then Within(times, lo, hi) + [t] else Within(times, lo, hi)
  {
    assert (times + [t])[..|times|] == times;
  }

  lemma {:induction false} WithinSameTop(times: seq<real>, lo: real, hi: real, hi2: real)
    requires UpTo(times, hi) && hi <= hi2
    ensures Within(times, lo, hi) == Within(times, lo, hi2)
  {
    if times != [] { WithinSameTop(times[..|times| - 1], lo, hi, hi2); }
  }

  lemma {:induction false} WithinIsNoLonger(times: seq<real>, lo: real, hi: real)
    ensures |Within(times, lo, hi)| <= |times|
  {
    if times != [] { WithinIsNoLonger(times[..|times| - 1], lo, hi); }
  }

  // --- one client ---

  /** A client's deque, and the times of all its allowed calls. */
  datatype Client = Client(queue: seq<real>, allowed: seq<real>)

  function StepClient(s: Client, now: real, l: Limit): Client {
    var q := Evict(s.queue, now - l.window);
    if |q| < l.max then Client(q + [now], s.allowed + [now]) else Client(q, s.allowed)
  }

  function RunClient(nows: seq<real>, l: Limit): Client {
    if nows == [] then Client([], []) else StepClient(RunClient(nows[..|nows| - 1], l), nows[|nows| - 1], l)
  }

  /** After a call at `now` the allowed times are in order and the deque holds exactly those in (now - window, now]. */
  ghost predicate HoldsWindow(s: Client, now: real, l: Limit) {
    Sorted(s.allowed) && UpTo(s.allowed, now) && s.queue == Within(s.allowed, now - l.window, now)
  }

  lemma StepHoldsWindow(s: Client, latest: real, now: real, l: Limit)
    requires l.window > 0.0 && HoldsWindow(s, latest, l) && latest <= now
    ensures HoldsWindow(StepClient(s, now, l), now, l)
    ensures Evict(s.queue, now - l.window) == Within(s.allowed, now - l.window, now)
  {
    EvictMovesWindow(s.allowed, latest, now, l.window);
    WithinOfMore(s.allowed, now, now - l.window, now);
    hide Within, Evict;
  }

  /** With clock values in order the deque is right after every call, and so is what the call decides on. */
  lemma {:induction false} ClientHoldsWindow(nows: seq<real>, l: Limit)
    requires l.window > 0.0 && Sorted(nows) && nows != []
    ensures var n := |nows| - 1; var before := RunClient(nows[..n], l);
            HoldsWindow(RunClient(nows, l), nows[n], l) && Sorted(before.allowed) && UpTo(before.allowed, nows[n]) &&
            Evict(before.queue, nows[n] - l.window) == Within(before.allowed, nows[n] - l.window, nows[n])
  {
    hide StepClient;
    var n := |nows| - 1;
    if n == 0 {
      assert RunClient(nows[..0], l) == Client([], []);
      StepHoldsWindow(Client([], []), nows[0], nows[0], l);
    } else {
      ClientHoldsWindow(nows[..n], l);
      StepHoldsWindow(RunClient(nows[..n], l), nows[n - 1], nows[n], l);
    }
  }

  /** One more allowed call cannot overfill any window. */
  lemma RoomForOneMore(times: seq<real>, now: real, T: real, l: Limit)
    requires UpTo(times, now) && now <= T
    requires |Within(times, now - l.window, now)| < l.max
    ensures |Within(times, T - l.window, T)| < l.max
  {
    WithinSameTop(times, T - l.window, now, T);
    WithinGrows(times, T - l.window, now, now - l.window, now);
  }

  lemma StepKeepsBound(s: Client, now: real, T: real, l: Limit)
    requires UpTo(s.allowed, now) && Evict(s.queue, now - l.window) == Within(s.allowed, now - l.window, now)
    requires |Within(s.allowed, T - l.window, T)| <= l.max
    ensures |Within(StepClient(s, now, l).allowed, T - l.window, T)| <= l.max
  {
    hide Within, Evict;
    WithinOfMore(s.allowed, now, T - l.window, T);
    if |Evict(s.queue, now - l.window)| < l.max && now <= T {
      RoomForOneMore(s.allowed, now, T, l);
    }
  }

  lemma {:induction false} ClientBound(nows: seq<real>, l: Limit, T: real)
    requires l.window > 0.0 && Sorted(nows)
    ensures |Within(RunClient(nows, l).allowed, T - l.window, T)| <= l.max
  {
    hide StepClient, Evict;
    if nows != [] {
      var n := |nows| - 1;
      ClientBound(nows[..n], l, T);
      ClientHoldsWindow(nows, l);
      hide Within;
      StepKeepsBound(RunClient(nows[..n], l), nows[n], T, l);
    }
  }

  // --- all clients ---

  /** The clock values of a client's own calls. */
  function Own(calls: seq<Call>, ip: string): seq<real> {
    if calls == [] then []
    else
      var before, c := Own(calls[..|calls| - 1], ip), calls[|calls| - 1];
      if c.ip == ip then before + [c.now] else before
  }

  /** Each client's clock values are in order; those of different clients may cross. */
  ghost predicate ClockInOrder(calls: seq<Call>) {
    forall ip :: Sorted(Own(calls, ip))
  }

  lemma LogOfStep(w: World, c: Call, ip: string, l: Limit)
    ensures var after := StepCall(w, c, l); var times := AllowedTimes(w.log, ip);
            after.log[..|w.log|] == w.log && after.log[|w.log|].0 == c &&
            AllowedTimes(after.log, ip) == if after.log[|w.log|].1 && c.ip == ip then times + [c.now] else times
  {
    var after := StepCall(w, c, l);
    assert after.log[..|after.log| - 1] == w.log;
  }

  /** One call, seen by one client. */
  lemma StepSplitsByClient(w: World, c: Call, ip: string, s: Client, l: Limit)
    requires QueueOf(w.hits, ip) == s.queue && AllowedTimes(w.log, ip) == s.allowed
    ensures var after := StepCall(w, c, l); var t := if c.ip == ip then StepClient(s, c.now, l) else s;
            QueueOf(after.hits, ip) == t.queue && AllowedTimes(after.log, ip) == t.allowed
  {
    LogOfStep(w, c, ip, l);
    hide Evict, AllowedTimes;
  }

  lemma RunOfMore(nows: seq<real>, now: real, l: Limit)
    ensures RunClient(nows + [now], l) == StepClient(RunClient(nows, l), now, l)
  {
    assert (nows + [now])[..|nows|] == nows;
  }

  /** The shared dictionary keeps one independent machine per client. */
  lemma {:induction false} RunSplitsByClient(calls: seq<Call>, ip: string, l: Limit)
    ensures var w, s := RunCalls(calls, l), RunClient(Own(calls, ip), l);
            QueueOf(w.hits, ip) == s.queue && AllowedTimes(w.log, ip) == s.allowed
  {
    hide StepCall, StepClient, QueueOf;
    if calls == [] {
      NothingYet(ip, l);
    } else {
      hide AllowedTimes, RunClient;
      var before, c := calls[..|calls| - 1], calls[|calls| - 1];
      RunSplitsByClient(before, ip, l);
      StepSplitsByClient(RunCalls(before, l), c, ip, RunClient(Own(before, ip), l), l);
      RunOfMore(Own(before, ip), c.now, l);
    }
  }

  lemma NothingYet(ip: string, l: Limit)
    ensures QueueOf(RunCalls([], l).hits, ip) == [] && AllowedTimes(RunCalls([], l).log, ip) == []
  {
  }

  /** A client's deque and allowed times depend on its own calls only. */
  lemma ClientsAreIndependent(calls: seq<Call>, others: seq<Call>, ip: string, l: Limit)
    requires Own(calls, ip) == Own(others, ip)
    ensures var w, v := RunCalls(calls, l), RunCalls(others, l);
            QueueOf(w.hits, ip) == QueueOf(v.hits, ip) && AllowedTimes(w.log, ip) == AllowedTimes(v.log, ip)
  {
    RunSplitsByClient(calls, ip, l);
    RunSplitsByClient(others, ip, l);
  }

  /** A decision, and the history it should rest on. */
  lemma StepDecision(w: World, c: Call, l: Limit)
    ensures var log, n := StepCall(w, c, l).log, |w.log|;
            (log[n].1 <==> |Evict(QueueOf(w.hits, c.ip), c.now - l.window)| < l.max) &&
            (DecidedRight(log, n, l) <==>
             (log[n].1 <==> |Within(AllowedTimes(w.log, c.ip), c.now - l.window, c.now)| < l.max))
  {
    LogOfStep(w, c, "", l);
    hide Evict, Within, AllowedTimes, QueueOf;
  }

  /** The same for the last call of a run, by client. */
  lemma LastDecision(calls: seq<Call>, l: Limit)
    requires calls != []
    ensures var n := |calls| - 1; var c := calls[n]; var log := RunCalls(calls, l).log;
            var before := RunClient(Own(calls[..n], c.ip), l);
            (log[n].1 <==> |Evict(before.queue, c.now - l.window)| < l.max) &&
            (DecidedRight(log, n, l) <==> (log[n].1 <==> |Within(before.allowed, c.now - l.window, c.now)| < l.max))
  {
    hide Evict, Within, AllowedTimes, QueueOf, StepCall, DecidedRight, Own, RunClient;
    var n := |calls| - 1;
    RunSplitsByClient(calls[..n], calls[n].ip, l);
    StepDecision(RunCalls(calls[..n], l), calls[n], l);
  }

  lemma OwnOfLast(calls: seq<Call>)
    requires calls != []
    ensures var n := |calls| - 1; Own(calls, calls[n].ip) == Own(calls[..n], calls[n].ip) + [calls[n].now]
  {
  }

  lemma OneMoreHoldsWindow(nows: seq<real>, now: real, l: Limit)
    requires l.window > 0.0 && Sorted(nows + [now])
    ensures HoldsWindow(RunClient(nows + [now], l), now, l)
    ensures Evict(RunClient(nows, l).queue, now - l.window) == Within(RunClient(nows, l).allowed, now - l.window, now)
  {
    hide RunClient, Evict, Within, HoldsWindow;
    assert (nows + [now])[..|nows|] == nows;
    ClientHoldsWindow(nows + [now], l);
  }

  /** A client's state and decision basis after an ordered run of its own. */
  lemma OwnHoldsWindow(calls: seq<Call>, l: Limit)
    requires l.window > 0.0 && calls != [] && Sorted(Own(calls, calls[|calls| - 1].ip))
    ensures var n := |calls| - 1; var c := calls[n]; var before := RunClient(Own(calls[..n], c.ip), l);
            HoldsWindow(RunClient(Own(calls, c.ip), l), c.now, l) &&
            Evict(before.queue, c.now - l.window) == Within(before.allowed, c.now - l.window, c.now)
  {
    hide Own, RunClient, Evict, Within, HoldsWindow;
    var n := |calls| - 1;
    OwnOfLast(calls);
    OneMoreHoldsWindow(Own(calls[..n], calls[n].ip), calls[n].now, l);
  }

  /** The deque is in order and holds exactly the client's allowed hits in (now - window, now]. */
  ghost predicate QueueIsWindow(w: World, ip: string, now: real, l: Limit) {
    Sorted(QueueOf(w.hits, ip)) && QueueOf(w.hits, ip) == Within(AllowedTimes(w.log, ip), now - l.window, now)
  }

  lemma WindowIsQueue(w: World, ip: string, s: Client, now: real, l: Limit)
    requires QueueOf(w.hits, ip) == s.queue && AllowedTimes(w.log, ip) == s.allowed && HoldsWindow(s, now, l)
    ensures QueueIsWindow(w, ip, now, l)
  {
    hide Within, AllowedTimes;
    WithinKeepsOrder(s.allowed, now - l.window, now, now);
  }

  /** When a caller's clock values are in order its deque is sorted and holds exactly its allowed hits of the window,
      and its decision is the right one over the full history. */
  lemma LastCallRight(calls: seq<Call>, l: Limit)
    requires l.window > 0.0 && calls != [] && Sorted(Own(calls, calls[|calls| - 1].ip))
    ensures var n := |calls| - 1; var c := calls[n]; var w := RunCalls(calls, l);
            DecidedRight(w.log, n, l) && QueueIsWindow(w, c.ip, c.now, l)
  {
    hide Evict, AllowedTimes, RunClient, RunCalls, Own, DecidedRight, Within, HoldsWindow, QueueIsWindow, QueueOf;
    var n := |calls| - 1;
    var c := calls[n];
    OwnHoldsWindow(calls, l);
    LastDecision(calls, l);
    RunSplitsByClient(calls, c.ip, l);
    WindowIsQueue(RunCalls(calls, l), c.ip, RunClient(Own(calls, c.ip), l), c.now, l);
  }

  lemma {:induction false} OwnOfPrefix(calls: seq<Call>, k: nat, ip: string)
    requires k <= |calls|
    ensures Own(calls[..k], ip) <= Own(calls, ip)
  {
    if k == |calls| {
      assert calls[..k] == calls;
    } else {
      var n := |calls| - 1;
      assert calls[..n][..k] == calls[..k];
      OwnOfPrefix(calls[..n], k, ip);
    }
  }

  lemma {:induction false} RunPrefix(calls: seq<Call>, k: nat, l: Limit)
    requires k <= |calls|
    ensures RunCalls(calls[..k], l).log == RunCalls(calls, l).log[..k]
  {
    if k == |calls| {
      assert calls[..k] == calls;
    } else {
      var n := |calls| - 1;
      RunPrefix(calls[..n], k, l);
      assert calls[..n][..k] == calls[..k];
      var before := RunCalls(calls[..n], l).log;
      LogOfStep(RunCalls(calls[..n], l), calls[n], "", l);
      assert RunCalls(calls, l).log[..n] == before;
      assert before[..k] == RunCalls(calls, l).log[..n][..k];
    }
  }

  lemma DecisionsAreKept(log: seq<(Call, bool)>, more: seq<(Call, bool)>, k: nat, l: Limit)
    requires k < |log|
    ensures DecidedRight(log + more, k, l) == DecidedRight(log, k, l)
  {
    assert (log + more)[..k] == log[..k];
  }

  /** A decision is judged the same at the end of the run as right after the call. */
  lemma JudgedWhenMade(calls: seq<Call>, k: nat, l: Limit)
    requires k < |calls|
    ensures DecidedRight(RunCalls(calls, l).log, k, l) == DecidedRight(RunCalls(calls[..k + 1], l).log, k, l)
  {
    RunPrefix(calls, k + 1, l);
    hide DecidedRight;
    var log := RunCalls(calls, l).log;
    assert log == log[..k + 1] + log[k + 1..];
    DecisionsAreKept(log[..k + 1], log[k + 1..], k, l);
  }

  /** Every decision of a run in which each client's clock values are in order is right. */
  lemma OrderedRunDecidesByHistory(calls: seq<Call>, l: Limit)
    requires l.window > 0.0 && ClockInOrder(calls)
    ensures DecidesByHistory(RunCalls(calls, l).log, l)
  {
    hide RunCalls, DecidedRight, Own;
    forall k | 0 <= k < |calls| ensures DecidedRight(RunCalls(calls, l).log, k, l) {
      var ip := calls[k].ip;
      OwnOfPrefix(calls, k + 1, ip);
      assert Sorted(Own(calls, ip));
      LastCallRight(calls[..k + 1], l);
      JudgedWhenMade(calls, k, l);
    }
  }

  /** For every instant T a client whose own clock values are in order has at most `max` allowed calls in
      (T - window, T], whatever the others do. */
  lemma WindowBound(calls: seq<Call>, l: Limit, ip: string, T: real)
    requires l.window > 0.0 && Sorted(Own(calls, ip))
    ensures |Within(AllowedTimes(RunCalls(calls, l).log, ip), T - l.window, T)| <= l.max
  {
    RunSplitsByClient(calls, ip, l);
    ClientBound(Own(calls, ip), l, T);
  }

  // --- why the clock must be in order ---

  /** A limit that a client's ordered calls just reach, with a window that spans them all. */
  lemma {:induction false} WideWindow(nows: seq<real>, l: Limit)
    requires Sorted(nows) && |nows| <= l.max && (nows != [] ==> l.window > nows[|nows| - 1] - nows[0])
    ensures RunClient(nows, l) == Client(nows, nows)
  {
    if nows != [] {
      var n := |nows| - 1;
      WideWindow(nows[..n], l);
      assert nows == nows[..n] + [nows[n]];
    }
  }

  function JustReached(own: seq<real>): Limit
    requires own != []
  {
    Limit(|own|, own[|own| - 1] - own[0] + 1.0)
  }

  /** Under that limit a late call finds the deque full, though the call before it is not in its window. */
  lemma LateIsRefused(own: seq<real>, now: real)
    requires own != [] && Sorted(own) && now < own[|own| - 1]
    ensures var l := JustReached(own); var s := RunClient(own, l);
            l.window > 0.0 && |Evict(s.queue, now - l.window)| == l.max && |Within(s.allowed, now - l.window, now)| < l.max
  {
    var l, n := JustReached(own), |own| - 1;
    WideWindow(own, l);
    assert Evict(own, now - l.window) == own;
    WithinIsNoLonger(own[..n], now - l.window, now);
  }

  /** The first call of a client whose clock value is older than that of its previous call is wrongly refused, under
      some limit. */
  lemma LateReadIsRefusedWrongly(calls: seq<Call>, k: nat)
    requires k < |calls|
    requires var own := Own(calls[..k], calls[k].ip); own != [] && Sorted(own) && calls[k].now < own[|own| - 1]
    ensures var l := JustReached(Own(calls[..k], calls[k].ip));
            l.window > 0.0 && !RunCalls(calls, l).log[k].1 && !DecidedRight(RunCalls(calls, l).log, k, l)
  {
    hide Own, RunCalls, DecidedRight, Within, Evict, RunClient, JustReached;
    var own := Own(calls[..k], calls[k].ip);
    var l := JustReached(own);
    LateIsRefused(own, calls[k].now);
    assert calls[..k + 1][..k] == calls[..k];
    LastDecision(calls[..k + 1], l);
    RunPrefix(calls, k + 1, l);
    JudgedWhenMade(calls, k, l);
  }

  /** A run that is out of order has a first call that makes it so. */
  lemma {:induction false} FirstLateRead(calls: seq<Call>, ip: string) returns (k: nat)
    requires !Sorted(Own(calls, ip))
    ensures k < |calls| && calls[k].ip == ip
    ensures var own := Own(calls[..k], ip); own != [] && Sorted(own) && calls[k].now < own[|own| - 1]
  {
    var n := |calls| - 1;
    if Sorted(Own(calls[..n], ip)) {
      k := n;
    } else {
      k := FirstLateRead(calls[..n], ip);
      assert calls[..n][..k] == calls[..k];
    }
  }

  ghost predicate RightUnderAllLimits(calls: seq<Call>) {
    forall l: Limit :: l.window > 0.0 ==> DecidesByHistory(RunCalls(calls, l).log, l)
  }

  /** For every run of calls: each client's clock values are in order exactly when every limit decides rightly
      throughout. */
  lemma OrderIsExactlyWhatIsNeeded(calls: seq<Call>)
    ensures ClockInOrder(calls) <==> RightUnderAllLimits(calls)
  {
    hide RunCalls, DecidedRight, Own;
    if ClockInOrder(calls) {
      forall l: Limit | l.window > 0.0 ensures DecidesByHistory(RunCalls(calls, l).log, l) {
        OrderedRunDecidesByHistory(calls, l);
      }
    } else {
      var ip :| !Sorted(Own(calls, ip));
      var k := FirstLateRead(calls, ip);
      LateReadIsRefusedWrongly(calls, k);
      var l := JustReached(Own(calls[..k], ip));
      assert !DecidesByHistory(RunCalls(calls, l).log, l);
    }
  }

  /** A late read also breaks the bound itself: two requests a minute, and three allowed in one minute. */
  lemma LateReadBreaksBound(ip: string)
    ensures var l := Limit(2, 60.0);
            var calls := [Call(ip, 0.0), Call(ip, 0.5), Call(ip, 61.0), Call(ip, 59.0)];
            Within(AllowedTimes(RunCalls(calls, l).log, ip), 59.0 - l.window, 59.0) == [0.0, 0.5, 59.0]
  {
    var l := Limit(2, 60.0);
    var calls := [Call(ip, 0.0), Call(ip, 0.5), Call(ip, 61.0), Call(ip, 59.0)];
    var nows := [0.0, 0.5, 61.0, 59.0];
    assert calls[..3][..2][..1] == [Call(ip, 0.0)] && calls[..3][..2] == [Call(ip, 0.0), Call(ip, 0.5)];
    assert calls[..3] == [Call(ip, 0.0), Call(ip, 0.5), Call(ip, 61.0)];
    OwnOfOne(ip);
    RunSplitsByClient(calls, ip, l);
    RunOfFour(l);
    WithinOfFour();
  }

  lemma OwnOfOne(ip: string)
    ensures Own([Call(ip, 0.0), Call(ip, 0.5), Call(ip, 61.0), Call(ip, 59.0)], ip) == [0.0, 0.5, 61.0, 59.0]
  {
    var calls := [Call(ip, 0.0), Call(ip, 0.5), Call(ip, 61.0), Call(ip, 59.0)];
    OwnOfLast(calls);
    OwnOfLast(calls[..3]);
    assert calls[..3][..2] == calls[..2];
    OwnOfLast(calls[..2]);
    assert calls[..2][..1] == calls[..1];
    OwnOfLast(calls[..1]);
    assert calls[..1][..0] == [];
  }

  lemma RunOfFour(l: Limit)
    requires l == Limit(2, 60.0)
    ensures RunClient([0.0, 0.5, 61.0, 59.0], l).allowed == [0.0, 0.5, 61.0, 59.0]
  {
    var nows := [0.0, 0.5, 61.0, 59.0];
    assert RunClient(nows[..0], l) == Client([], []);
    assert nows[..1][..0] == nows[..0] && nows[..2][..1] == nows[..1] && nows[..3][..2] == nows[..2];
    assert RunClient(nows[..1], l) == Client([0.0], [0.0]);
    assert RunClient(nows[..2], l) == Client([0.0, 0.5], [0.0, 0.5]);
    assert [0.0, 0.5][1..] == [0.5];
    assert Evict([0.0, 0.5], 1.0) == [];
    assert RunClient(nows[..3], l) == Client([61.0], [0.0, 0.5, 61.0]);
    assert Evict([61.0], -1.0) == [61.0];
  }

  lemma WithinOfFour()
    ensures Within([0.0, 0.5, 61.0, 59.0], -1.0, 59.0) == [0.0, 0.5, 59.0]
  {
    WithinOfMore([], 0.0, -1.0, 59.0);
    WithinOfMore([0.0], 0.5, -1.0, 59.0);
    WithinOfMore([0.0, 0.5], 61.0, -1.0, 59.0);
    WithinOfMore([0.0, 0.5, 61.0], 59.0, -1.0, 59.0);
    assert [] + [0.0] == [0.0] && [0.0] + [0.5] == [0.0, 0.5] && [0.0, 0.5] + [61.0] == [0.0, 0.5, 61.0];
    assert [0.0, 0.5, 61.0] + [59.0] == [0.0, 0.5, 61.0, 59.0];
  }

  // --- the class ---

  lemma StepAnswer(w: World, c: Call, base: map<string, seq<real>>, q: seq<real>, l: Limit)
    requires q == Evict(QueueOf(w.hits, c.ip), c.now - l.window)
    requires base == w.hits || base == w.hits[c.ip := []]
    ensures StepCall(w, c, l).hits == base[c.ip := if |q| < l.max then q + [c.now] else q]
    ensures StepCall(w, c, l).log[|w.log|].1 == (|q| < l.max)
  {
  }

  /** What the answer to the last call and the deque after it have to be, given the calls before. */
  ghost predicate AnsweredRight(calls: seq<Call>, allowed: bool, l: Limit)
    requires calls != []
  {
    var n := |calls| - 1;
    var w, c := RunCalls(calls, l), calls[n];
    allowed == w.log[n].1 && DecidedRight(w.log, n, l) && QueueIsWindow(w, c.ip, c.now, l)
  }

  class RateLimiter {
    const limit: Limit
    var hits: map<string, seq<real>>
    ghost var calls: seq<Call>

    ghost predicate Valid()
      reads this
    {
      limit.window > 0.0 && hits == RunCalls(calls, limit).hits
    }

    constructor (maxRequests: nat, window: real)
      requires window > 0.0
      ensures Valid() && calls == [] && limit == Limit(maxRequests, window)
    {
      limit := Limit(maxRequests, window);
      hits := map[];
      calls := [];
    }

    /** One request: evict, compare, record. While this client's clock values are in order, the answer is right and
        its deque holds exactly the window. */
    method IsAllowed(ip: string, now: real) returns (allowed: bool)
      requires Valid()
      modifies this
      ensures Valid() && calls == old(calls) + [Call(ip, now)]
      ensures allowed == RunCalls(calls, limit).log[|old(calls)|].1
      ensures Sorted(Own(calls, ip)) ==> AnsweredRight(calls, allowed, limit)
    {
      hide Own, DecidedRight, QueueIsWindow;
      ghost var before := RunCalls(calls, limit);
      ghost var evicted := Evict(QueueOf(before.hits, ip), now - limit.window);
      if ip !in hits {
        hits := hits[ip := []];
      }
      var q := hits[ip];
      while q != [] && q[0] <= now - limit.window
        invariant Evict(q, now - limit.window) == evicted
        decreases |q|
      {
        q := q[1..];
      }
      StepAnswer(before, Call(ip, now), hits, q, limit);
      allowed := |q| < limit.max;
      if allowed {
        q := q + [now];
      }
      hits := hits[ip := q];
      calls := calls + [Call(ip, now)];
      assert calls[..|calls| - 1] == old(calls);
      if Sorted(Own(calls, ip)) {
        LastCallRight(calls, limit);
      }
    }
  }
}
