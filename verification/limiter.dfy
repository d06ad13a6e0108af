/**
 * The Redis sliding-window limiter.
 *
 * One key holds a sorted set whose members and scores are both the admission millisecond,
 * so two admissions in one millisecond are one entry. The server forgets a key strictly
 * after its deadline; at the deadline itself it may or may not (the `evict` input).
 */
module SlidingWindow {
  import opened Common

  datatype Key = Key(members: set<int>, deadline: Option<int>)

  const ABSENT := Key({}, None)

  /** What a command sees of a key at time `now`. */
  function Live(k: Key, now: int, evict: bool): Key {
    if k.deadline.Some? && (now > k.deadline.value || (now == k.deadline.value && evict)) then ABSENT else k
  }

  /** ZREMRANGEBYSCORE key -inf max; a sorted set that becomes empty is deleted with its deadline. */
  function ZRemRangeByScore(k: Key, max: int): Key {
    var left := set m | m in k.members && m > max;
    if left == {} then ABSENT else k.(members := left)
  }

  function ZAdd(k: Key, m: int): Key {
    k.(members := k.members + {m})
  }

  /** PEXPIRE key ttl; a ttl that is not positive deletes the key at once. */
  function PExpire(k: Key, now: int, ttl: int): Key {
    if ttl <= 0 then ABSENT else k.(deadline := Some(now + ttl))
  }

  datatype Verdict = Verdict(key: Key, limited: bool)

  function Script(k: Key, window: int, threshold: int, now: int, evict: bool): Verdict {
    ScriptFor(k, window, threshold, now, now, evict)
  }

  /** The script of a call that was made at `asked`, run at `now`. */
  function ScriptFor(k: Key, window: int, threshold: int, asked: int, now: int, evict: bool): Verdict {
    var purged := ZRemRangeByScore(Live(k, now, evict), asked - window);
    if |purged.members| >= threshold then Verdict(purged, true)
    else Verdict(PExpire(ZAdd(purged, asked), now, window), false)
  }

  function KeyAt(keys: map<string, Key>, name: string): Key {
    if name in keys then keys[name] else ABSENT
  }

  class RedisLimiter {
    const interval: int
    const rate: int
    var keys: map<string, Key>

    constructor (interval: int, rate: int)
      ensures this.interval == interval && this.rate == rate && keys == map[]
    {
      this.interval, this.rate, this.keys := interval, rate, map[];
    }

    method Limit(name: string, now: int, evict: bool) returns (limited: bool)
      modifies this
      ensures var answer := Script(KeyAt(old(keys), name), interval, rate, now, evict);
              limited == answer.limited && keys == old(keys)[name := answer.key]
    {
      limited := Eval(name, now, now, evict);
    }

    /** The script on the server; a call given up by its client may run later than it was made. */
    method Eval(name: string, asked: int, now: int, evict: bool) returns (limited: bool)
      modifies this
      ensures var answer := ScriptFor(KeyAt(old(keys), name), interval, rate, asked, now, evict);
              limited == answer.limited && keys == old(keys)[name := answer.key]
    {
      var min := asked - interval;
      var key := Live(KeyAt(keys, name), now, evict);
      key := ZRemRangeByScore(key, min);
      var cnt := |key.members|;
      if cnt >= rate {
        keys := keys[name := key];
        limited := true;
      } else {
        key := ZAdd(key, asked);
        key := PExpire(key, now, interval);
        keys := keys[name := key];
        limited := false;
      }
    }
  }

  /**
   * A script asked for at `asked` and run at `now`, while the key is there: it forgets what is not
   * younger than a window at the time it was asked for, and enters that time if fewer than the
   * threshold are left. The deadline is set by the time it runs.
   */
  lemma ScriptForExactly(k: Key, window: int, threshold: int, asked: int, now: int, evict: bool)
    requires k.deadline.Some? ==> now < k.deadline.value || (now == k.deadline.value && !evict)
    ensures var left := set m | m in k.members && asked - window < m;
            var a := ScriptFor(k, window, threshold, asked, now, evict);
            && (a.limited <==> |left| >= threshold)
            && (a.limited ==> a.key == Key(left, if left == {} then None else k.deadline))
            && (!a.limited && window > 0 ==> a.key == Key(left + {asked}, Some(now + window)))
            && (!a.limited && window <= 0 ==> a.key == Key({}, None))
  {
    assert (set m | m in k.members && asked - window < m) == set m | m in k.members && m > asked - window;
  }

  /** Run after the deadline, it starts from nothing. */
  lemma ScriptForExpired(k: Key, window: int, threshold: int, asked: int, now: int, evict: bool)
    requires k.deadline.Some? && (now > k.deadline.value || (now == k.deadline.value && evict))
    ensures ScriptFor(k, window, threshold, asked, now, evict)
         == if threshold <= 0 then Verdict(Key({}, None), true)
            else Verdict(if window > 0 then Key({asked}, Some(now + window)) else Key({}, None), false)
  {
  }

  // ---------------------------------------------------------------- windows over a log

  /** The elements of the half-open interval (a, a + window]. */
  function Window(s: set<int>, a: int, window: int): (r: set<int>) {
    set m | m in s && a < m <= a + window
  }

  function UpTo(s: set<int>, t: int): set<int> {
    set m | m in s && m <= t
  }

  ghost predicate Bounded(log: set<int>, window: int, bound: int) {
    forall a: int :: |Window(log, a, window)| <= bound
  }

  function Floor0(x: int): nat { if x < 0 then 0 else x }

  /** The key remembers every admission still inside the window, and nothing else that matters. */
  ghost predicate KeyMatches(k: Key, log: set<int>, window: int, last: int) {
    && k.members <= log
    && (forall m :: m in log ==> m <= last)
    && (forall m :: m in log && m !in k.members ==> m <= last - window)
    && (k.members != {} ==> k.deadline.Some?)
    && (k.deadline.Some? ==> forall m :: m in log ==> m + window <= k.deadline.value)
  }

  function LogAfter(log: set<int>, now: int, limited: bool): set<int> {
    if limited then log else log + {now}
  }

  /**
   * One script call, at any time not before the last one: the answer is the one a limiter
   * that recounts its whole log would give, and the key still matches the log.
   */
  lemma ScriptRecounts(k: Key, log: set<int>, window: int, threshold: int, last: int, now: int, evict: bool)
    requires KeyMatches(k, log, window, last) && last <= now
    ensures var a := Script(k, window, threshold, now, evict);
            && (a.limited <==> |Window(log, now - window, window)| >= threshold)
            && KeyMatches(a.key, LogAfter(log, now, a.limited), window, now)
  {
    var live := Live(k, now, evict);
    var purged := ZRemRangeByScore(live, now - window);
    assert purged.members == Window(log, now - window, window);
  }

  /** A late script leaves the key matching the log of all scripts that entered, its own entry included. */
  lemma LateScriptMatches(k: Key, log: set<int>, window: int, threshold: int, last: int, asked: int, now: int,
                          evict: bool)
    requires KeyMatches(k, log, window, last) && last <= now && asked <= now
    ensures var a := ScriptFor(k, window, threshold, asked, now, evict);
            KeyMatches(a.key, LogAfter(log, asked, a.limited), window, now)
  {
  }

  /** The key has every admission of the log that is still inside the window, and possibly more. */
  ghost predicate KeyCovers(k: Key, log: set<int>, window: int, last: int) {
    && (forall m :: m in log ==> m <= last)
    && (forall m :: m in log && m > last - window ==> m in k.members)
    && (k.deadline.Some? ==> forall m :: m in log ==> m + window <= k.deadline.value)
  }

  /**
   * Scripts may run late and calls may lose their answers: the key still covers what was admitted, and
   * an answer "not limited" that does arrive means that the window had room.
   */
  lemma ScriptCovers(k: Key, log: set<int>, window: int, threshold: int, last: int, asked: int, now: int, evict: bool)
    requires KeyCovers(k, log, window, last) && last <= now && asked <= now
    ensures var a := ScriptFor(k, window, threshold, asked, now, evict);
            && KeyCovers(a.key, log, window, now)
            && (!a.limited && asked == now ==>
                 |Window(log, now - window, window)| < threshold && KeyCovers(a.key, log + {now}, window, now))
  {
    var live := Live(k, now, evict);
    var purged := ZRemRangeByScore(live, asked - window);
    if |purged.members| < threshold && asked == now {
      SubsetSize(Window(log, now - window, window), purged.members);
    }
  }

  /** An admission allowed by the recount keeps every window within the threshold. */
  lemma AdmissionKeepsBound(log: set<int>, window: int, threshold: int, now: int)
    requires forall m :: m in log ==> m <= now
    requires |Window(log, now - window, window)| < threshold
    requires Bounded(log, window, threshold)
    ensures Bounded(log + {now}, window, threshold)
  {
    forall a: int
      ensures |Window(log + {now}, a, window)| <= threshold
    {
      var w := Window(log + {now}, a, window);
      if a < now <= a + window {
        SubsetSize(w - {now}, Window(log, now - window, window));
        assert |w| <= |w - {now}| + 1;
      } else {
        assert w == Window(log, a, window);
      }
    }
  }

  // ---------------------------------------------------------------- whole runs

  datatype Request = Request(now: int, evict: bool)

  ghost predicate Ordered(rs: seq<Request>) {
    forall i, j :: 0 <= i < j < |rs| ==> rs[i].now <= rs[j].now
  }

  function Times(rs: seq<Request>): set<int> {
    if rs == [] then {} else Times(rs[..|rs| - 1]) + {rs[|rs| - 1].now}
  }

  lemma {:induction false} TimesInOrder(rs: seq<Request>, t: int)
    requires Ordered(rs) && t in Times(rs)
    ensures t <= rs[|rs| - 1].now
  {
    var front := rs[..|rs| - 1];
    if t in Times(front) { TimesInOrder(front, t); }
  }

  datatype Run = Run(key: Key, admitted: set<int>, answers: seq<bool>)

  /** The limiter as deployed. */
  function Deployed(rs: seq<Request>, window: int, threshold: int): Run {
    if rs == [] then Run(ABSENT, {}, []) else
    var before := Deployed(rs[..|rs| - 1], window, threshold);
    var r := rs[|rs| - 1];
    var a := Script(before.key, window, threshold, r.now, r.evict);
    Run(a.key, LogAfter(before.admitted, r.now, a.limited), before.answers + [a.limited])
  }

  datatype Recount = Recount(admitted: set<int>, answers: seq<bool>)

  /** The limiter that never forgets and recounts (now - window, now] on every request. */
  function Recounting(rs: seq<Request>, window: int, threshold: int): Recount {
    if rs == [] then Recount({}, []) else
    var before := Recounting(rs[..|rs| - 1], window, threshold);
    var now := rs[|rs| - 1].now;
    var limited := |Window(before.admitted, now - window, window)| >= threshold;
    Recount(LogAfter(before.admitted, now, limited), before.answers + [limited])
  }

  lemma {:induction false} DeployedMatches(rs: seq<Request>, window: int, threshold: int)
    requires Ordered(rs)
    ensures var d := Deployed(rs, window, threshold);
            && d.answers == Recounting(rs, window, threshold).answers
            && d.admitted == Recounting(rs, window, threshold).admitted
            && KeyMatches(d.key, d.admitted, window, if rs == [] then 0 else rs[|rs| - 1].now)
  {
    if rs != [] {
      var front, r := rs[..|rs| - 1], rs[|rs| - 1];
      DeployedMatches(front, window, threshold);
      var d := Deployed(front, window, threshold);
      var last := if front == [] then r.now else front[|front| - 1].now;
      assert KeyMatches(d.key, d.admitted, window, last);
      ScriptRecounts(d.key, d.admitted, window, threshold, last, r.now, r.evict);
    }
  }

  /** Purging and key expiry cannot be observed: every answer is the recounting limiter's. */
  lemma ExpiryUnobservable(rs: seq<Request>, window: int, threshold: int)
    requires Ordered(rs)
    ensures Deployed(rs, window, threshold).answers == Recounting(rs, window, threshold).answers
    ensures Deployed(rs, window, threshold).admitted == Recounting(rs, window, threshold).admitted
  {
    DeployedMatches(rs, window, threshold);
  }

  lemma {:induction false} RecountBounded(rs: seq<Request>, window: int, threshold: int)
    requires Ordered(rs)
    ensures Bounded(Recounting(rs, window, threshold).admitted, window, Floor0(threshold))
    ensures Recounting(rs, window, threshold).admitted <= Times(rs)
  {
    if rs == [] {
      assert forall a: int :: Window({}, a, window) == {};
    } else {
      var front, now := rs[..|rs| - 1], rs[|rs| - 1].now;
      RecountBounded(front, window, threshold);
      var log := Recounting(front, window, threshold).admitted;
      forall m | m in log ensures m <= now { TimesInOrder(front, m); }
      if |Window(log, now - window, window)| < threshold {
        AdmissionKeepsBound(log, window, threshold, now);
      }
    }
  }

  /** No half-open window of the run holds more than `threshold` admitted milliseconds. */
  lemma WindowBound(rs: seq<Request>, window: int, threshold: int, a: int)
    requires Ordered(rs)
    ensures |Window(Deployed(rs, window, threshold).admitted, a, window)| <= Floor0(threshold)
  {
    ExpiryUnobservable(rs, window, threshold);
    RecountBounded(rs, window, threshold);
  }

  // ---------------------------------------------------------------- greedy optimality

  lemma SplitAt(s: set<int>, window: int, now: int)
    requires window > 0
    ensures |UpTo(s, now)| == |UpTo(s, now - window)| + |Window(s, now - window, window)|
  {
    assert UpTo(s, now) == UpTo(s, now - window) + Window(s, now - window, window);
    assert UpTo(s, now - window) !! Window(s, now - window, window);
  }

  /** A refusal means a full window, and no admissible selection has more than a full window there. */
  lemma RefusalLosesNothing(log: set<int>, chosen: set<int>, window: int, threshold: int, now: int)
    requires window > 0 || threshold > 0
    requires Bounded(chosen, window, threshold) && |Window(log, now - window, window)| >= threshold
    requires |UpTo(log, now - window)| >= |UpTo(chosen - {now}, now - window)|
    ensures |UpTo(log, now)| >= |UpTo(chosen, now)|
  {
    assert window <= 0 ==> Window(log, now - window, window) == {};
    SplitAt(log, window, now);
    SplitAt(chosen, window, now);
    assert UpTo(chosen, now - window) == UpTo(chosen - {now}, now - window);
  }

  /** The last request is new: every selection loses at most that one millisecond without it. */
  lemma GreedyStep(log: set<int>, chosen: set<int>, window: int, threshold: int, now: int, t: int)
    requires window > 0 || threshold > 0
    requires forall m :: m in log ==> m < now
    requires forall m :: m in chosen ==> m <= now
    requires Bounded(chosen, window, threshold)
    requires forall u :: |UpTo(log, u)| >= |UpTo(chosen - {now}, u)|
    ensures var limited := |Window(log, now - window, window)| >= threshold;
            |UpTo(LogAfter(log, now, limited), t)| >= |UpTo(chosen, t)|
  {
    var limited := |Window(log, now - window, window)| >= threshold;
    var log' := LogAfter(log, now, limited);
    if t < now {
      assert UpTo(log', t) == UpTo(log, t) && UpTo(chosen, t) == UpTo(chosen - {now}, t);
    } else if !limited {
      assert UpTo(log', t) == UpTo(log, t) + {now};
      assert UpTo(chosen, t) <= UpTo(chosen - {now}, t) + {now};
      SubsetSize(UpTo(chosen, t), UpTo(chosen - {now}, t) + {now});
    } else {
      RefusalLosesNothing(log, chosen, window, threshold, now);
      assert UpTo(log, t) == UpTo(log, now) && UpTo(chosen, t) == UpTo(chosen, now);
    }
  }

  lemma BoundedSubset(s: set<int>, chosen: set<int>, window: int, bound: int)
    requires s <= chosen && Bounded(chosen, window, bound)
    ensures Bounded(s, window, bound)
  {
    forall a: int ensures |Window(s, a, window)| <= bound {
      SubsetSize(Window(s, a, window), Window(chosen, a, window));
    }
  }

  lemma {:induction false} RecountGreedy(rs: seq<Request>, window: int, threshold: int, chosen: set<int>, t: int)
    requires Ordered(rs) && chosen <= Times(rs) && Bounded(chosen, window, threshold)
    requires window > 0 || threshold > 0
    ensures |UpTo(Recounting(rs, window, threshold).admitted, t)| >= |UpTo(chosen, t)|
    decreases |rs|
  {
    if rs == [] { return; }
    var front, now := rs[..|rs| - 1], rs[|rs| - 1].now;
    var log := Recounting(front, window, threshold).admitted;
    if now in Times(front) {
      RecountGreedy(front, window, threshold, chosen, t);
      SubsetSize(UpTo(log, t), UpTo(log + {now}, t));
    } else {
      RecountBounded(front, window, threshold);
      var rest := chosen - {now};
      BoundedSubset(rest, chosen, window, threshold);
      forall m | m in Times(front) ensures m < now { TimesInOrder(front, m); }
      forall u ensures |UpTo(log, u)| >= |UpTo(rest, u)| {
        RecountGreedy(front, window, threshold, rest, u);
      }
      GreedyStep(log, chosen, window, threshold, now, t);
    }
  }

  /** The limiter admits, up to every moment, at least as much as any admissible selection of the requests. */
  ghost predicate GreedyOptimal(window: int, threshold: int) {
    forall rs: seq<Request>, chosen: set<int>, t: int ::
      Ordered(rs) && chosen <= Times(rs) && Bounded(chosen, window, threshold) ==>
        |UpTo(Deployed(rs, window, threshold).admitted, t)| >= |UpTo(chosen, t)|
  }

  /** A window that is empty together with a zero threshold is the one case where refusing is not optimal. */
  lemma GreedyOptimalExactly(window: int, threshold: int)
    ensures GreedyOptimal(window, threshold) <==> window > 0 || threshold != 0
  {
    if window > 0 || threshold != 0 {
      forall rs: seq<Request>, chosen: set<int>, t: int
        | Ordered(rs) && chosen <= Times(rs) && Bounded(chosen, window, threshold)
        ensures |UpTo(Deployed(rs, window, threshold).admitted, t)| >= |UpTo(chosen, t)|
      {
        assert |Window(chosen, 0, window)| <= threshold;
        ExpiryUnobservable(rs, window, threshold);
        RecountGreedy(rs, window, threshold, chosen, t);
      }
    } else {
      var rs, chosen := [Request(1, false)], {1};
      assert rs[0].now in Times(rs);
      assert forall a: int :: Window(chosen, a, window) == {};
      assert Bounded(chosen, window, threshold);
      assert rs[..0] == [];
      assert Deployed(rs[..0], window, threshold) == Run(ABSENT, {}, []);
      assert Deployed(rs, window, threshold).admitted == {};
      assert UpTo(chosen, 1) == {1};
      assert |UpTo({}, 1)| < |UpTo(chosen, 1)|;
    }
  }
}
