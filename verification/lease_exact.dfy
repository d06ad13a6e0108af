/**
 * Mutual exclusion of the lock controllers, exactly: the runs that break it whenever five
 * refresh timeouts do not fit into one refresh interval, or the expiration is shorter than the
 * TryLock latency, one interval and five timeouts together.
 */
module LeaseExact {
  import opened LockControl
  import opened LeaseProtocol

  const OFF := Pod(Off, 0, 0, 0, false, 0, 0)

  /** n pods of which only the first two have been started. */
  function World(n: nat, now: int, c: Cell, x: Pod, y: Pod): Sys
    requires n >= 2
  {
    Sys(now, c, Initial(n).pods[0 := x][1 := y])
  }

  ghost predicate At(par: Par, n: nat, now: int, c: Cell, x: Pod, y: Pod)
    requires Proper(par) && n >= 2
  {
    Reachable(par, n, World(n, now, c, x, y))
  }

  lemma {:induction false} ExecThen(par: Par, s: Sys, acts: seq<Action>, a: Action)
    requires Proper(par) && Legal(par, s, acts) && Enabled(par, Exec(par, s, acts), a)
    ensures Legal(par, s, acts + [a]) && Exec(par, s, acts + [a]) == Do(par, Exec(par, s, acts), a)
    decreases |acts|
  {
    if acts == [] {
      assert [a][1..] == [];
      assert [] + [a] == [a];
    } else {
      ExecThen(par, Do(par, s, acts[0]), acts[1..], a);
      assert (acts + [a])[1..] == acts[1..] + [a];
    }
  }

  lemma ReachNext(par: Par, n: nat, s: Sys, a: Action)
    requires Proper(par) && Reachable(par, n, s) && Enabled(par, s, a) && Expected(a)
    ensures Reachable(par, n, Do(par, s, a))
  {
    var acts :| Legal(par, Initial(n), acts) && AsExpected(acts) && Exec(par, Initial(n), acts) == s;
    ExecThen(par, Initial(n), acts, a);
    assert AsExpected(acts + [a]);
  }

  lemma ReachFirst(par: Par, n: nat)
    requires Proper(par) && n >= 2
    ensures At(par, n, 0, Free, OFF, OFF)
  {
    assert World(n, 0, Free, OFF, OFF) == Initial(n);
    assert Legal(par, Initial(n), []) && AsExpected([]) && Exec(par, Initial(n), []) == Initial(n);
  }

  lemma Act0(par: Par, n: nat, now: int, c: Cell, x: Pod, y: Pod, a: Action) returns (x': Pod, c': Cell)
    requires Proper(par) && n >= 2 && At(par, n, now, c, x, y)
    requires !a.Delay? && Expected(a) && a.p == 0 && PodEnabled(par, now, x, a)
    ensures (x', c') == PodStep(par, now, c, 0, x, a)
    ensures At(par, n, now, c', x', y)
  {
    x', c' := PodStep(par, now, c, 0, x, a).0, PodStep(par, now, c, 0, x, a).1;
    ReachNext(par, n, World(n, now, c, x, y), a);
    assert World(n, now, c', x', y).pods == World(n, now, c, x, y).pods[0 := x'];
  }

  lemma Act1(par: Par, n: nat, now: int, c: Cell, x: Pod, y: Pod, a: Action) returns (y': Pod, c': Cell)
    requires Proper(par) && n >= 2 && At(par, n, now, c, x, y)
    requires !a.Delay? && Expected(a) && a.p == 1 && PodEnabled(par, now, y, a)
    ensures (y', c') == PodStep(par, now, c, 1, y, a)
    ensures At(par, n, now, c', x, y')
  {
    y', c' := PodStep(par, now, c, 1, y, a).0, PodStep(par, now, c, 1, y, a).1;
    ReachNext(par, n, World(n, now, c, x, y), a);
    assert World(n, now, c', x, y').pods == World(n, now, c, x, y).pods[1 := y'];
  }

  lemma Pass(par: Par, n: nat, now: int, c: Cell, x: Pod, y: Pod, t: int)
    requires Proper(par) && n >= 2 && At(par, n, now, c, x, y)
    requires now <= t && (now < t ==> MayWait(par, x, t) && MayWait(par, y, t))
    ensures At(par, n, t, c, x, y)
  {
    if now < t {
      ReachNext(par, n, World(n, now, c, x, y), Delay(t - now));
    }
  }

  /** A step of any pod, whoever the others are. */
  lemma PodActs(par: Par, n: nat, s: Sys, p: nat, a: Action) returns (s': Sys)
    requires Proper(par) && Reachable(par, n, s) && p < |s.pods|
    requires !a.Delay? && Expected(a) && a.p == p && PodEnabled(par, s.now, s.pods[p], a)
    ensures Reachable(par, n, s')
    ensures var (x, c) := PodStep(par, s.now, s.cell, p, s.pods[p], a);
            s' == Sys(s.now, c, s.pods[p := x])
  {
    ReachNext(par, n, s, a);
    StepShape(par, s, a);
    s' := Do(par, s, a);
  }

  /** A pod whose tick is due takes an available lease, at once. */
  lemma SecondAcquires(par: Par, n: nat, now: int, c: Cell, x: Pod, y: Pod) returns (y': Pod, c': Cell)
    requires Proper(par) && n >= 2 && At(par, n, now, c, x, y) && Available(c, now)
    requires y.phase == Applying(Ticker(now, false))
    ensures At(par, n, now, c', x, y')
    ensures y' == y.(phase := Waiting(Ticker(now + par.interval, false), FRESH),
                     since := now, acquired := now, leased := now)
  {
    y', c' := Act1(par, n, now, c, x, y, Fire(1));
    y', c' := Act1(par, n, now, c', x, y', CallTry(1));
    y', c' := Act1(par, n, now, c', x, y', ServeTry(1));
    y', c' := Act1(par, n, now, c', x, y', TryAnswered(1));
  }

  /** Once the cell is past its expiry, a pod started now will run. */
  lemma SecondPodStarts(par: Par, n: nat, now: int, c: Cell, x: Pod, y: Pod)
    requires Proper(par) && n >= 2 && At(par, n, now, c, x, y)
    requires y.phase == Applying(Ticker(now, false)) && Running(x) && Available(c, now)
    ensures !MutuallyExclusive(par, n)
  {
    var y', c' := SecondAcquires(par, n, now, c, x, y);
    var s := World(n, now, c', x, y');
    assert Reachable(par, n, s) && Running(s.pods[0]) && Running(s.pods[1]);
  }

  // ---------------------------------------------------------------- a pod cut off from the server

  /** The attempt that is under way so long after its tick. */
  function Attempt(par: Par, sinceTick: int): nat {
    if sinceTick < par.timeout then 0 else if sinceTick < 2 * par.timeout then 1
    else if sinceTick < 3 * par.timeout then 2 else if sinceTick < 4 * par.timeout then 3 else 4
  }

  /** The pod at time t: one full interval after its start at `since`, then five refreshes that all time out. */
  function Cut(par: Par, acquired: int, since: int, t: int): Pod {
    var tick := since + par.interval;
    if t < tick then Pod(Waiting(Ticker(tick, false), FRESH), since, acquired, acquired, false, 0, 0)
    else
      var k := Attempt(par, t - tick);
      var ticker := if t < tick + par.interval then Ticker(tick + par.interval, false)
                    else Ticker(tick + 2 * par.interval, true);
      Pod(Refreshing(ticker, Ctl(k, false), k == 0, tick + Timeouts(par, k), NotYet),
          since, acquired, acquired, false, k, 0)
  }

  /** Until its fifth attempt is over. */
  function CutUntil(par: Par, since: int): int { since + par.interval + 5 * par.timeout }

  lemma CutWaits(par: Par, acquired: int, since: int, t: int)
    requires Proper(par) && 4 * par.timeout < par.interval && since <= t < CutUntil(par, since)
    ensures MayWait(par, Cut(par, acquired, since, t), t + 1)
  {
  }

  /** What the pod does once the clock has come to t + 1. */
  lemma CutActs(par: Par, n: nat, s: Sys, p: nat, acquired: int, since: int, t: int) returns (s': Sys)
    requires Proper(par) && 4 * par.timeout < par.interval && since <= t < CutUntil(par, since)
    requires Reachable(par, n, s) && s.now == t + 1
    requires p < |s.pods| && s.pods[p] == Cut(par, acquired, since, t)
    ensures Reachable(par, n, s')
    ensures s' == s.(pods := s.pods[p := Cut(par, acquired, since, t + 1)])
  {
    var tick, now := since + par.interval, t + 1;
    if now == tick {
      s' := PodActs(par, n, s, p, Fire(p));
      s' := PodActs(par, n, s', p, CallTick(p));
    } else if tick < now {
      s' := CutRefreshes(par, n, s, p, acquired, since, t);
    } else {
      s' := s;
    }
  }

  lemma CutRefreshes(par: Par, n: nat, s: Sys, p: nat, acquired: int, since: int, t: int) returns (s': Sys)
    requires Proper(par) && 4 * par.timeout < par.interval && since + par.interval <= t < CutUntil(par, since)
    requires Reachable(par, n, s) && s.now == t + 1
    requires p < |s.pods| && s.pods[p] == Cut(par, acquired, since, t)
    ensures Reachable(par, n, s')
    ensures s' == s.(pods := s.pods[p := Cut(par, acquired, since, t + 1)])
  {
    var tick, now := since + par.interval, t + 1;
    var k := Attempt(par, t - tick);
    if now == tick + Timeouts(par, k + 1) && k < 4 {
      s' := PodActs(par, n, s, p, RefreshAnswered(p, TimedOut));
      s' := PodActs(par, n, s', p, CallRetry(p));
    } else if now == tick + par.interval {
      s' := PodActs(par, n, s, p, Fire(p));
    } else {
      s' := s;
    }
  }

  // ---------------------------------------------------------------- the lease is too short

  /** The worst run of one pod: it is cut off from the server after the slowest TryLock. */
  function Worst(par: Par, t: int): Pod {
    var a := par.apply;
    if t < a then OFF.(phase := Applying(Ticker(a, false)))
    else if t < a + par.latency then Pod(Trying(Ticker(2 * a, false), a, Granted), 0, a, a, false, 0, 0)
    else Cut(par, a, a + par.latency, t)
  }

  function WorstUntil(par: Par): int { CutUntil(par, par.apply + par.latency) }

  function WorstCell(par: Par, t: int): Cell {
    if t < par.apply then Free else Held(0, par.apply + par.expiration)
  }

  /** The pod applies, and its TryLock is answered as late as can be. */
  lemma WorstStart(par: Par, n: nat, y: Pod, t: int)
    requires Proper(par) && n >= 2 && 0 <= t < par.apply + par.latency
    requires At(par, n, t + 1, WorstCell(par, t), Worst(par, t), y)
    ensures At(par, n, t + 1, WorstCell(par, t + 1), Worst(par, t + 1), y)
  {
    var now, x, c := t + 1, Worst(par, t), WorstCell(par, t);
    if now == par.apply {
      x, c := Act0(par, n, now, c, x, y, Fire(0));
      x, c := Act0(par, n, now, c, x, y, CallTry(0));
      x, c := Act0(par, n, now, c, x, y, ServeTry(0));
    }
    if now == par.apply + par.latency {
      x, c := Act0(par, n, now, c, x, y, TryAnswered(0));
    }
  }

  /** What happens at time t + 1 in the worst run, after the delay that leads there. */
  lemma WorstTick(par: Par, n: nat, y: Pod, t: int)
    requires Proper(par) && n >= 2 && 4 * par.timeout < par.interval
    requires 0 <= t < WorstUntil(par)
    requires At(par, n, t, WorstCell(par, t), Worst(par, t), y) && MayWait(par, y, t + 1)
    ensures At(par, n, t + 1, WorstCell(par, t + 1), Worst(par, t + 1), y)
  {
    var x, c := Worst(par, t), WorstCell(par, t);
    if t < par.apply + par.latency {
      Pass(par, n, t, c, x, y, t + 1);
      WorstStart(par, n, y, t);
    } else {
      CutWaits(par, par.apply, par.apply + par.latency, t);
      Pass(par, n, t, c, x, y, t + 1);
      var s := CutActs(par, n, World(n, t + 1, c, x, y), 0, par.apply, par.apply + par.latency, t);
      assert s == World(n, t + 1, c, Worst(par, t + 1), y);
    }
  }

  lemma {:induction false} WorstRun(par: Par, n: nat, y: Pod, from: int, until: int)
    requires Proper(par) && n >= 2 && 4 * par.timeout < par.interval
    requires 0 <= from <= until <= WorstUntil(par)
    requires At(par, n, from, WorstCell(par, from), Worst(par, from), y)
    requires forall t :: from < t <= until ==> MayWait(par, y, t)
    ensures At(par, n, until, WorstCell(par, until), Worst(par, until), y)
    decreases until - from
  {
    if from < until {
      WorstTick(par, n, y, from);
      WorstRun(par, n, y, from + 1, until);
    }
  }

  /** In the worst run of the first pod a second one acquires, as soon as the lease is over and the first one runs. */
  lemma WorstRunOverlaps(par: Par, n: nat) returns (now: int, c: Cell, y: Pod)
    requires Proper(par) && n >= 2 && 4 * par.timeout < par.interval
    requires par.expiration < par.latency + par.interval + 5 * par.timeout
    ensures now == par.apply + Later(par.expiration + 1, par.latency) <= WorstUntil(par)
    ensures At(par, n, now, c, Cut(par, par.apply, par.apply + par.latency, now), y) && y == Cut(par, now, now, now)
  {
    var boot := Later(par.expiration + 1, par.latency);
    ReachFirst(par, n);
    var x, c0 := Act0(par, n, 0, Free, OFF, OFF, Boot(0));
    WorstRun(par, n, OFF, 0, boot);
    var y1, c1 := Act1(par, n, boot, WorstCell(par, boot), Worst(par, boot), OFF, Boot(1));
    WorstRun(par, n, y1, boot, boot + par.apply);
    now := boot + par.apply;
    y, c := SecondAcquires(par, n, now, WorstCell(par, now), Worst(par, now), y1);
  }

  lemma ShortLeaseUnsafe(par: Par, n: nat)
    requires Proper(par) && n >= 2 && 4 * par.timeout < par.interval
    requires par.expiration < par.latency + par.interval + 5 * par.timeout
    ensures !MutuallyExclusive(par, n)
  {
    var now, c, y := WorstRunOverlaps(par, n);
    var s := World(n, now, c, Cut(par, par.apply, par.apply + par.latency, now), y);
    assert Reachable(par, n, s) && Running(s.pods[0]) && Running(s.pods[1]);
  }

  // ---------------------------------------------------------------- the largest overlap

  /** Both pods are cut off from the server, and go on for as long as the first one can. */
  lemma {:induction false} BothCut(par: Par, n: nat, from: int, c: Cell, a: int, since: int, b: int, until: int)
    requires Proper(par) && n >= 2 && 4 * par.timeout < par.interval
    requires since <= b <= from <= until <= CutUntil(par, since)
    requires At(par, n, from, c, Cut(par, a, since, from), Cut(par, b, b, from))
    ensures At(par, n, until, c, Cut(par, a, since, until), Cut(par, b, b, until))
    decreases until - from
  {
    if from < until {
      var x, y, now := Cut(par, a, since, from), Cut(par, b, b, from), from + 1;
      CutWaits(par, a, since, from);
      CutWaits(par, b, b, from);
      Pass(par, n, from, c, x, y, now);
      var s := CutActs(par, n, World(n, now, c, x, y), 0, a, since, from);
      s := CutActs(par, n, s, 1, b, b, from);
      assert s == World(n, now, c, Cut(par, a, since, now), Cut(par, b, b, now));
      BothCut(par, n, now, c, a, since, b, until);
    }
  }

  /** Some reachable state has two pods that have both been running for at least k. */
  ghost predicate Overlaps(par: Par, n: nat, k: nat)
    requires Proper(par)
  {
    exists s, p, q ::
      && Reachable(par, n, s) && 0 <= p < |s.pods| && 0 <= q < |s.pods| && p != q
      && Running(s.pods[p]) && Running(s.pods[q]) && s.now - Later(s.pods[p].since, s.pods[q].since) >= k
  }

  lemma LongestOverlap(par: Par, n: nat, k: nat)
    requires Proper(par) && n >= 2 && 4 * par.timeout < par.interval
    requires k <= par.interval + 5 * par.timeout
    requires k < par.latency + par.interval + 5 * par.timeout - par.expiration
    ensures Overlaps(par, n, k)
  {
    var a, since, until := par.apply, par.apply + par.latency, WorstUntil(par);
    var b, c, y := WorstRunOverlaps(par, n);
    BothCut(par, n, b, c, a, since, b, until);
    var s := World(n, until, c, Cut(par, a, since, until), Cut(par, b, b, until));
    assert Reachable(par, n, s) && Running(s.pods[0]) && Running(s.pods[1]);
  }

  /**
   * If five timeouts fit into the interval, two pods can have been running together for k exactly when
   * k is below d + I + 5T - E and at most I + 5T.
   */
  lemma OverlapExactly(par: Par, n: nat, k: nat)
    requires Safe(par) && n >= 2
    ensures Overlaps(par, n, k) <==>
              && k < par.latency + par.interval + 5 * par.timeout - par.expiration
              && k <= par.interval + 5 * par.timeout
  {
    if Overlaps(par, n, k) {
      var s, p, q :|
        && Reachable(par, n, s) && 0 <= p < |s.pods| && 0 <= q < |s.pods| && p != q
        && Running(s.pods[p]) && Running(s.pods[q]) && s.now - Later(s.pods[p].since, s.pods[q].since) >= k;
      ReachableInv(par, n, s);
      OverlapBound(par, n, s, p, q);
    } else if k < par.latency + par.interval + 5 * par.timeout - par.expiration && k <= par.interval + 5 * par.timeout {
      LongestOverlap(par, n, k);
    }
  }

  // ---------------------------------------------------------------- the retries do not fit into the interval

  /** While a refresh is under way its ticker may fire, and does so whenever it is due. */
  lemma {:induction false} SpendRefresh(par: Par, n: nat, now: int, c: Cell, x: Pod, until: int) returns (x': Pod)
    requires Proper(par) && n >= 2 && At(par, n, now, c, x, OFF)
    requires x.phase.Refreshing? && now <= x.phase.ticker.next
    requires now <= until <= x.phase.start + par.timeout
    ensures At(par, n, until, c, x', OFF)
    ensures x'.phase.Refreshing? && until < x'.phase.ticker.next
    ensures x' == x.(phase := Refreshing(x'.phase.ticker, x.phase.ctl, x.phase.fromTick, x.phase.start, x.phase.served))
    ensures var tk, tk' := x.phase.ticker, x'.phase.ticker;
            && (until < tk.next ==> tk' == tk)
            && (tk.next <= until ==> tk'.pending)
            && (tk.next <= until < tk.next + par.interval ==> tk' == Fired(tk, par.interval))
    decreases until - x.phase.ticker.next
  {
    var tk := x.phase.ticker;
    if until < tk.next {
      Pass(par, n, now, c, x, OFF, until);
      x' := x;
    } else {
      Pass(par, n, now, c, x, OFF, tk.next);
      var x1, c1 := Act0(par, n, tk.next, c, x, OFF, Fire(0));
      x' := SpendRefresh(par, n, tk.next, c, x1, until);
    }
  }

  /** Some run of the first pod alone ends with it waiting on its own full channel. */
  ghost predicate BlocksItself(par: Par, n: nat)
    requires Proper(par) && n >= 2
  {
    exists now, c, x :: At(par, n, now, c, x, OFF) && x.phase.StuckForEver?
  }

  /** A pod that waits on its own full channel holds its claim for ever. */
  lemma StuckPodUnsafe(par: Par, n: nat)
    requires Proper(par) && n >= 2 && BlocksItself(par, n)
    ensures !MutuallyExclusive(par, n)
  {
    var now, c, x :| At(par, n, now, c, x, OFF) && x.phase.StuckForEver?;
    var free := if c.Held? && c.expiry >= now then c.expiry + 1 else now;
    Pass(par, n, now, c, x, OFF, free);
    var y, c' := Act1(par, n, free, c, x, OFF, Boot(1));
    Pass(par, n, free, c, x, y, free + par.apply);
    SecondPodStarts(par, n, free + par.apply, c, x, y);
  }

  /** The next tick falls within the first four timeouts of this chain: one of them will meet it. */
  lemma {:induction false} ChainMeetsTick(par: Par, n: nat, now: int, c: Cell, x: Pod)
    requires Proper(par) && n >= 2 && At(par, n, now, c, x, OFF)
    requires x.phase.Refreshing? && x.phase.start == now <= x.phase.ticker.next
    requires !x.phase.ctl.token && x.phase.ctl.retryCnt <= 3
    requires x.phase.ticker.pending || x.phase.ticker.next <= now + Timeouts(par, 4 - x.phase.ctl.retryCnt)
    ensures BlocksItself(par, n)
    decreases 4 - x.phase.ctl.retryCnt
  {
    var end := now + par.timeout;
    var x1 := SpendRefresh(par, n, now, c, x, end);
    var x2, c2 := Act0(par, n, end, c, x1, OFF, RefreshAnswered(0, TimedOut));
    if x2.phase.ticker.pending {
      TickOverToken(par, n, end, c, x2);
    } else {
      var x3, c3 := Act0(par, n, end, c, x2, OFF, CallRetry(0));
      ChainMeetsTick(par, n, end, c, x3);
    }
  }

  lemma TickOverToken(par: Par, n: nat, now: int, c: Cell, x: Pod)
    requires Proper(par) && n >= 2 && At(par, n, now, c, x, OFF)
    requires x.phase.Waiting? && x.phase.ticker.pending && x.phase.ctl.token && now <= x.phase.ticker.next
    ensures BlocksItself(par, n)
  {
    var x1, c1 := Act0(par, n, now, c, x, OFF, CallTick(0));
    var x2 := SpendRefresh(par, n, now, c, x1, now + par.timeout);
    var x3, c3 := Act0(par, n, now + par.timeout, c, x2, OFF, RefreshAnswered(0, TimedOut));
    assert At(par, n, now + par.timeout, c, x3, OFF) && x3.phase.StuckForEver?;
  }

  /** A pod that holds the lease and has just taken its first tick. */
  lemma FirstChain(par: Par, n: nat) returns (now: int, c: Cell, x: Pod)
    requires Proper(par) && n >= 2
    ensures At(par, n, now, c, x, OFF)
    ensures x.phase == Refreshing(Ticker(now + par.interval, false), FRESH, true, now, NotYet)
  {
    ReachFirst(par, n);
    c := Free;
    x, c := Act0(par, n, 0, c, OFF, OFF, Boot(0));
    now, x := Acquires(par, n, 0, x);
    Pass(par, n, now, Held(0, now + par.expiration), x, OFF, now + par.interval);
    c, now := Held(0, now + par.expiration), now + par.interval;
    x, c := Act0(par, n, now, c, x, OFF, Fire(0));
    x, c := Act0(par, n, now, c, x, OFF, CallTick(0));
  }

  /** An applying pod takes the free lease at its next tick, at once. */
  lemma Acquires(par: Par, n: nat, now: int, x: Pod) returns (at: int, x': Pod)
    requires Proper(par) && n >= 2 && At(par, n, now, Free, x, OFF)
    requires x.phase == Applying(Ticker(now + par.apply, false)) && !x.cancelled
    ensures at == now + par.apply && At(par, n, at, Held(0, at + par.expiration), x', OFF)
    ensures x'.phase == Waiting(Ticker(at + par.interval, false), FRESH)
    ensures x'.stray == x.stray && !x'.cancelled
  {
    at := now + par.apply;
    Pass(par, n, now, Free, x, OFF, at);
    var c;
    x', c := Act0(par, n, at, Free, x, OFF, Fire(0));
    x', c := Act0(par, n, at, c, x', OFF, CallTry(0));
    x', c := Act0(par, n, at, c, x', OFF, ServeTry(0));
    x', c := Act0(par, n, at, c, x', OFF, TryAnswered(0));
  }

  // ---------------------------------------------------------------- late refreshes keep any lease alive

  /** A round that leaves a refresh under way: it fails before it reaches the server, and the pod unlocks. */
  lemma BrokenRound(par: Par, n: nat, now: int, c: Cell, x: Pod) returns (x': Pod)
    requires Proper(par) && n >= 2 && At(par, n, now, c, x, OFF) && Owns(c, 0)
    requires x.phase == Waiting(Ticker(now, false), FRESH) && !x.cancelled
    ensures At(par, n, now, Free, x', OFF)
    ensures x'.phase == Applying(Ticker(now + par.apply, false)) && x'.stray == x.stray + 1 && !x'.cancelled
  {
    var c';
    x', c' := Act0(par, n, now, c, x, OFF, Fire(0));
    x', c' := Act0(par, n, now, c', x', OFF, CallTick(0));
    x', c' := Act0(par, n, now, c', x', OFF, RefreshAnswered(0, Broken));
    x', c' := Act0(par, n, now, c', x', OFF, ServeUnlock(0));
    x', c' := Act0(par, n, now, c', x', OFF, UnlockAnswered(0));
  }

  /** After k such rounds the pod applies again, with k refreshes under way. */
  lemma {:induction false} GatherStrays(par: Par, n: nat, k: nat) returns (now: int, x: Pod)
    requires Proper(par) && n >= 2
    ensures At(par, n, now, Free, x, OFF)
    ensures x.phase == Applying(Ticker(now + par.apply, false)) && x.stray == k && !x.cancelled
  {
    var c;
    if k == 0 {
      ReachFirst(par, n);
      now := 0;
      x, c := Act0(par, n, now, Free, OFF, OFF, Boot(0));
    } else {
      now, x := GatherStrays(par, n, k - 1);
      now, x := Acquires(par, n, now, x);
      c := Held(0, now + par.expiration);
      Pass(par, n, now, c, x, OFF, now + par.interval);
      now := now + par.interval;
      x := BrokenRound(par, n, now, c, x);
    }
  }

  /** The lease was extended at this very moment. */
  predicate JustLeased(par: Par, now: int, c: Cell) { c == Held(0, now + par.expiration) }

  /** A waiting pod kept alive by one late refresh a unit, up to its next tick. */
  lemma {:induction false} WaitAlive(par: Par, n: nat, now: int, c: Cell, x: Pod) returns (x': Pod)
    requires Proper(par) && n >= 2 && At(par, n, now, c, x, OFF) && JustLeased(par, now, c)
    requires x.phase.Waiting? && x.phase == Waiting(x.phase.ticker, FRESH) && !x.phase.ticker.pending && !x.cancelled
    requires now <= x.phase.ticker.next <= now + x.stray
    ensures var next := x.phase.ticker.next;
            && At(par, n, next, Held(0, next + par.expiration), x', OFF)
            && x'.phase == x.phase && x'.stray == x.stray - (next - now)
    decreases x.phase.ticker.next - now
  {
    if now == x.phase.ticker.next {
      x' := x;
    } else {
      Pass(par, n, now, c, x, OFF, now + 1);
      var x1, c1 := Act0(par, n, now + 1, c, x, OFF, ServeStray(0));
      x' := WaitAlive(par, n, now + 1, c1, x1);
    }
  }

  /** A refreshing pod kept alive in the same way; its ticker fires when it is due. */
  lemma {:induction false} RefreshAlive(par: Par, n: nat, now: int, c: Cell, x: Pod, until: int) returns (x': Pod)
    requires Proper(par) && n >= 2 && At(par, n, now, c, x, OFF) && JustLeased(par, now, c)
    requires x.phase.Refreshing? && now < x.phase.ticker.next
    requires now <= until <= x.phase.start + par.timeout && until <= now + x.stray
    ensures At(par, n, until, Held(0, until + par.expiration), x', OFF)
    ensures x'.phase.Refreshing? && until < x'.phase.ticker.next && x'.stray == x.stray - (until - now)
    ensures x'.phase == Refreshing(x'.phase.ticker, x.phase.ctl, x.phase.fromTick, x.phase.start, x.phase.served)
    ensures var tk, tk' := x.phase.ticker, x'.phase.ticker;
            && (until < tk.next ==> tk' == tk)
            && (tk.next <= until < tk.next + par.interval ==> tk' == Fired(tk, par.interval))
    decreases until - now
  {
    if now == until {
      x' := x;
    } else {
      Pass(par, n, now, c, x, OFF, now + 1);
      var x1, c1 := Act0(par, n, now + 1, c, x, OFF, ServeStray(0));
      if x1.phase.ticker.next == now + 1 {
        x1, c1 := Act0(par, n, now + 1, c1, x1, OFF, Fire(0));
      }
      x' := RefreshAlive(par, n, now + 1, c1, x1, until);
    }
  }

  /** The attempts before the fifth time out, with no tick in between, and the lease is alive when the fifth begins. */
  lemma {:induction false} AliveTimeouts(par: Par, n: nat, now: int, c: Cell, x: Pod) returns (end: int, x': Pod)
    requires Proper(par) && n >= 2 && At(par, n, now, c, x, OFF) && JustLeased(par, now, c)
    requires x.phase.Refreshing? && x.phase.start == now && x.phase.served.NotYet?
    requires !x.phase.ctl.token && x.phase.ctl.retryCnt <= 4
    requires x.phase.fromTick <==> x.phase.ctl.retryCnt == 0
    requires x.phase.ticker.next > now + Timeouts(par, 4 - x.phase.ctl.retryCnt)
    requires x.stray >= Timeouts(par, 4 - x.phase.ctl.retryCnt)
    ensures end == now + Timeouts(par, 4 - x.phase.ctl.retryCnt)
    ensures At(par, n, end, Held(0, end + par.expiration), x', OFF)
    ensures x'.phase == Refreshing(x.phase.ticker, Ctl(4, false), false, end, NotYet)
    ensures x'.stray >= x.stray - Timeouts(par, 4 - x.phase.ctl.retryCnt)
    decreases 4 - x.phase.ctl.retryCnt
  {
    if x.phase.ctl.retryCnt == 4 {
      end, x' := now, x;
    } else {
      var next := now + par.timeout;
      var x1 := RefreshAlive(par, n, now, c, x, next);
      var c1 := Held(0, next + par.expiration);
      var x2, c2 := Act0(par, n, next, c1, x1, OFF, RefreshAnswered(0, TimedOut));
      var x3, c3 := Act0(par, n, next, c2, x2, OFF, CallRetry(0));
      end, x' := AliveTimeouts(par, n, next, c3, x3);
    }
  }

  /** Late refreshes enough for all the chains before one that meets its tick. */
  function Fuel(par: Par, gap: int): int {
    if gap <= 0 then 0 else Fuel(par, gap - 1) + 5 * par.timeout
  }

  lemma {:induction false} FuelGrows(par: Par, a: int, b: int)
    requires Proper(par) && a <= b
    ensures 0 <= Fuel(par, a) <= Fuel(par, b)
    decreases if b > 0 then b else 0
  {
    if b > 0 {
      if a < b { FuelGrows(par, a, b - 1); } else { FuelGrows(par, a - 1, b - 1); }
    }
  }

  /** A chain that needs all five attempts ends late, so the next one starts later, until one meets its tick. */
  lemma {:induction false} ChainsDrift(par: Par, n: nat, now: int, c: Cell, x: Pod)
    requires Proper(par) && n >= 2 && At(par, n, now, c, x, OFF) && JustLeased(par, now, c)
    requires 4 * par.timeout < par.interval < 5 * par.timeout
    requires x.phase.Refreshing? && x.phase == Refreshing(x.phase.ticker, FRESH, true, now, NotYet)
    requires !x.phase.ticker.pending && now < x.phase.ticker.next <= now + par.interval
    requires x.stray >= Fuel(par, x.phase.ticker.next - now)
    ensures BlocksItself(par, n)
    decreases x.phase.ticker.next - now
  {
    var gap := x.phase.ticker.next - now;
    if gap <= 4 * par.timeout {
      ChainMeetsTick(par, n, now, c, x);
    } else {
      FuelGrows(par, gap + par.interval - 5 * par.timeout, gap - 1);
      var fifth, x1 := AliveTimeouts(par, n, now, c, x);
      var x2, c2 := Act0(par, n, fifth, Held(0, fifth + par.expiration), x1, OFF, ServeRefresh(0));
      var end := fifth + par.timeout;
      var x3 := RefreshAlive(par, n, fifth, c2, x2, end);
      var x4, c4 := Act0(par, n, end, Held(0, end + par.expiration), x3, OFF, RefreshAnswered(0, Refreshed));
      var x5, c5 := Act0(par, n, end, c4, x4, OFF, CallTick(0));
      ChainsDrift(par, n, end, c5, x5);
    }
  }

  lemma DriftBlocks(par: Par, n: nat)
    requires Proper(par) && n >= 2 && 4 * par.timeout < par.interval < 5 * par.timeout
    ensures BlocksItself(par, n)
  {
    FuelGrows(par, 0, par.interval);
    var now, x := GatherStrays(par, n, par.interval + Fuel(par, par.interval));
    now, x := Acquires(par, n, now, x);
    x := WaitAlive(par, n, now, Held(0, now + par.expiration), x);
    now := now + par.interval;
    var c := Held(0, now + par.expiration);
    x, c := Act0(par, n, now, c, x, OFF, Fire(0));
    x, c := Act0(par, n, now, c, x, OFF, CallTick(0));
    ChainsDrift(par, n, now, c, x);
  }

  /** For every setting the loop can block itself exactly when five timeouts do not fit into the interval. */
  lemma SelfBlockExactly(par: Par, n: nat)
    requires Proper(par) && n >= 2
    ensures BlocksItself(par, n) <==> par.interval < 5 * par.timeout
  {
    if par.interval <= 4 * par.timeout {
      var now, c, x := FirstChain(par, n);
      ChainMeetsTick(par, n, now, c, x);
    } else if par.interval < 5 * par.timeout {
      DriftBlocks(par, n);
    } else if BlocksItself(par, n) {
      var now, c, x :| At(par, n, now, c, x, OFF) && x.phase.StuckForEver?;
      NoSelfBlock(par, n, World(n, now, c, x, OFF), 0);
    }
  }

  lemma LongRetriesUnsafe(par: Par, n: nat)
    requires Proper(par) && n >= 2 && par.interval < 5 * par.timeout
    ensures !MutuallyExclusive(par, n)
  {
    SelfBlockExactly(par, n);
    StuckPodUnsafe(par, n);
  }

  // ---------------------------------------------------------------- exactly when it holds

  lemma LongLeaseSafe(par: Par, n: nat)
    requires Proper(par) && 5 * par.timeout <= par.interval
    requires par.expiration >= par.latency + par.interval + 5 * par.timeout
    ensures MutuallyExclusive(par, n)
  {
    forall s, p, q | Reachable(par, n, s) && 0 <= p < q < |s.pods|
      ensures !(Running(s.pods[p]) && Running(s.pods[q]))
    {
      ReachableInv(par, n, s);
      OverlapBound(par, n, s, p, q);
    }
  }

  /**
   * Two or more pods never run at the same time exactly when five refresh timeouts fit into
   * one refresh interval, and the expiration covers latency, interval and five timeouts.
   */
  lemma MutualExclusionExactly(par: Par, n: nat)
    requires Proper(par) && n >= 2
    ensures MutuallyExclusive(par, n) <==>
              5 * par.timeout <= par.interval &&
              par.expiration >= par.latency + par.interval + 5 * par.timeout
  {
    if par.interval < 5 * par.timeout {
      LongRetriesUnsafe(par, n);
    } else if par.expiration < par.latency + par.interval + 5 * par.timeout {
      ShortLeaseUnsafe(par, n);
    } else {
      LongLeaseSafe(par, n);
    }
  }

  /** The shipped settings in milliseconds: six seconds of lease, five of interval, 300 for a refresh. */
  function Shipped(latency: int): Par { Par(1000, 5000, 300, 6000, latency) }

  /**
   * They do not exclude two running pods, however fast the lock service answers: the longest time that
   * two pods are running together is just below 500 ms plus the latency, and 6500 ms at most.
   */
  lemma ShippedSettingsOverlap(latency: nat, n: nat)
    requires n >= 2
    ensures !MutuallyExclusive(Shipped(latency), n)
    ensures forall k: nat :: Overlaps(Shipped(latency), n, k) <==> k < 500 + latency && k <= 6500
  {
    MutualExclusionExactly(Shipped(latency), n);
    forall k: nat ensures Overlaps(Shipped(latency), n, k) <==> k < 500 + latency && k <= 6500 {
      OverlapExactly(Shipped(latency), n, k);
    }
  }

  // ---------------------------------------------------------------- the excluded errors

  lemma BothTicked(par: Par) returns (acts: seq<Action>)
    requires Proper(par)
    ensures Legal(par, Initial(2), acts)
    ensures var applying := OFF.(phase := Applying(Ticker(2 * par.apply, true)));
            Exec(par, Initial(2), acts) == Sys(par.apply, Free, [applying, applying])
  {
    var s0 := Initial(2);
    acts := Then(par, s0, [], Boot(0));
    acts := Then(par, s0, acts, Boot(1));
    acts := Then(par, s0, acts, Delay(par.apply));
    acts := Then(par, s0, acts, Fire(0));
    acts := Then(par, s0, acts, Fire(1));
  }

  /**
   * A TryLock error that is neither "preempted" nor "canceled" starts a pod with no lock beside the
   * one that holds it.
   */
  lemma BrokenTryOverlaps(par: Par) returns (acts: seq<Action>)
    requires Proper(par)
    ensures Legal(par, Initial(2), acts)
    ensures var s := Exec(par, Initial(2), acts);
            |s.pods| == 2 && Running(s.pods[0]) && Running(s.pods[1])
  {
    var s0 := Initial(2);
    acts := BothTicked(par);
    acts := Then(par, s0, acts, CallTry(0));
    acts := Then(par, s0, acts, CallTry(1));
    acts := Then(par, s0, acts, ServeTry(0));
    acts := Then(par, s0, acts, TryAnswered(0));
    acts := Then(par, s0, acts, TryBroken(1));
  }

  lemma Then(par: Par, s: Sys, acts: seq<Action>, a: Action) returns (longer: seq<Action>)
    requires Proper(par) && Legal(par, s, acts) && Enabled(par, Exec(par, s, acts), a)
    ensures longer == acts + [a]
    ensures Legal(par, s, longer) && Exec(par, s, longer) == Do(par, Exec(par, s, acts), a)
  {
    longer := acts + [a];
    ExecThen(par, s, acts, a);
  }

  /** The states of the runs of two pods in which TryLock fails only as expected, and a given-up unlock may be late. */
  ghost predicate LateReachable(par: Par, s: Sys)
    requires Proper(par)
  {
    exists acts :: Legal(par, Initial(2), acts) && TriesExpected(acts) && Exec(par, Initial(2), acts) == s
  }

  predicate TriesExpected(acts: seq<Action>) {
    forall a :: a in acts ==> !a.TryBroken?
  }

  lemma LateNext(par: Par, s: Sys, a: Action) returns (s': Sys)
    requires Proper(par) && LateReachable(par, s) && Enabled(par, s, a) && !a.TryBroken?
    ensures s' == Do(par, s, a) && LateReachable(par, s')
  {
    var acts :| Legal(par, Initial(2), acts) && TriesExpected(acts) && Exec(par, Initial(2), acts) == s;
    ExecThen(par, Initial(2), acts, a);
    assert TriesExpected(acts + [a]);
    s' := Do(par, s, a);
  }

  /** A pod whose tick is due takes an available lease, at once. */
  lemma LateAcquires(par: Par, s: Sys, p: nat) returns (s': Sys)
    requires Proper(par) && LateReachable(par, s) && Available(s.cell, s.now)
    requires p < |s.pods| && s.pods[p].phase == Applying(Ticker(s.now, false))
    ensures LateReachable(par, s') && s'.now == s.now && s'.cell == Held(p, s.now + par.expiration)
    ensures s'.pods == s.pods[p := Pod(Waiting(Ticker(s.now + par.interval, false), FRESH), s.now, s.now, s.now,
                                       s.pods[p].cancelled, s.pods[p].stray, s.pods[p].strayUnlocks)]
  {
    s' := LateNext(par, s, Fire(p));
    s' := LateNext(par, s', CallTry(p));
    s' := LateNext(par, s', ServeTry(p));
    s' := LateNext(par, s', TryAnswered(p));
  }

  lemma LateLeased(par: Par) returns (s: Sys, x: Pod)
    requires Proper(par)
    ensures LateReachable(par, s) && s.cell == Held(0, s.now + par.expiration) && s.pods == [x, OFF]
    ensures x == Pod(Waiting(Ticker(s.now + par.interval, false), FRESH), s.now, s.now, s.now, false, 0, 0)
  {
    s := Initial(2);
    assert Legal(par, s, []) && Exec(par, s, []) == s && TriesExpected([]);
    s := LateNext(par, s, Boot(0));
    s := LateNext(par, s, Delay(par.apply));
    s := LateAcquires(par, s, 0);
    x := s.pods[0];
  }

  /** The first pod has gone on to unlock after a refresh that failed. */
  lemma LateUnlocking(par: Par) returns (s: Sys, x: Pod)
    requires Proper(par)
    ensures LateReachable(par, s) && s.cell.Held? && s.cell.expiry <= s.now + par.expiration && s.pods == [x, OFF]
    ensures x.phase == Unlocking(false, false) && x.strayUnlocks == 0 && !x.cancelled
  {
    s, x := LateLeased(par);
    s := LateNext(par, s, Delay(par.interval));
    s := LateNext(par, s, Fire(0));
    s := LateNext(par, s, CallTick(0));
    s := LateNext(par, s, RefreshAnswered(0, Broken));
    x := s.pods[0];
  }

  /** It gives up its unlock while that is under way, and applies again once its lease is over. */
  lemma UnlockUnderWay(par: Par) returns (s: Sys, x: Pod)
    requires Proper(par)
    ensures LateReachable(par, s) && Available(s.cell, s.now) && s.pods == [x, OFF]
    ensures x.phase == Applying(Ticker(s.now + par.apply, false)) && x.strayUnlocks == 1 && !x.cancelled
  {
    s, x := LateUnlocking(par);
    s := LateNext(par, s, Delay(par.expiration + 1));
    s := LateNext(par, s, UnlockGivenUp(0));
    x := s.pods[0];
  }

  /**
   * An unlock that takes effect after its caller gave it up frees the next lease of the same pod,
   * whose value in the cell is the same name: whatever the settings, two pods can then run.
   */
  lemma LateUnlockOverlaps(par: Par) returns (s: Sys)
    requires Proper(par)
    ensures LateReachable(par, s)
    ensures |s.pods| == 2 && Running(s.pods[0]) && Running(s.pods[1])
  {
    var x;
    s, x := UnlockUnderWay(par);
    s := LateNext(par, s, Boot(1));
    s := LateNext(par, s, Delay(par.apply));
    s := LateAcquires(par, s, 0);
    s := LateNext(par, s, ServeStrayUnlock(0));
    s := LateAcquires(par, s, 1);
  }
}
