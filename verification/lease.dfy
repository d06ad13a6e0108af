/**
 * Several pods' lock controllers against one lease cell, in time.
 *
 * Local steps take no time. Time passes only while every pod is waiting for something: a
 * ticker, an answer, or nothing at all. The cell is the contract of the lock service: it is
 * granted only when free, it stays with its owner up to and including its expiry, and refresh
 * and unlock act for the current owner only. A request whose caller has given up may still
 * take effect, at any later time.
 */
module LeaseProtocol {
  import opened LockControl

  /** Ticker period of the applying loop, refresh interval, refresh timeout, expiration, latency bound of TryLock. */
  datatype Par = Par(apply: int, interval: int, timeout: int, expiration: int, latency: int)

  predicate Proper(par: Par) {
    par.apply > 0 && par.interval > 0 && par.timeout > 0 && par.expiration > 0 && par.latency >= 0
  }

  datatype Cell = Free | Held(owner: nat, expiry: int)

  predicate Available(c: Cell, now: int) { c.Free? || now > c.expiry }

  predicate Owns(c: Cell, p: nat) { c.Held? && c.owner == p }

  /** A ticker: the time of its next tick, and whether a tick waits to be received. */
  datatype Ticker = Ticker(next: int, pending: bool)

  function Fired(t: Ticker, period: int): Ticker { Ticker(t.next + period, true) }

  /** The ticker after a while in which nobody received from it. */
  function CaughtUp(t: Ticker, now: int, period: int): Ticker
    requires period > 0
  {
    if now < t.next then t else Ticker(t.next + ((now - t.next) / period + 1) * period, true)
  }

  datatype Served = NotYet | Granted | Refused

  datatype Phase =
    | Off
    | Applying(ticker: Ticker)
    | Trying(ticker: Ticker, start: int, served: Served)
    | Waiting(ticker: Ticker, ctl: Ctl)
    | Refreshing(ticker: Ticker, ctl: Ctl, fromTick: bool, start: int, served: Served)
    | StuckForEver
    | Lockless(ticker: Ticker)
    | Unlocking(last: bool, done: bool)
    | Closed

  /**
   * A pod. `since` is when it last announced its start, `acquired` when its TryLock last took
   * effect, `leased` when its lease was last granted or extended; `stray` and
   * `strayUnlocks` count the refreshes and unlocks it has given up that may still take effect.
   */
  datatype Pod = Pod(phase: Phase, since: int, acquired: int, leased: int, cancelled: bool, stray: nat,
                     strayUnlocks: nat)

  datatype Sys = Sys(now: int, cell: Cell, pods: seq<Pod>)

  /** Between the announcement of the start and the announcement of the stop. */
  predicate Running(pod: Pod) {
    pod.phase.Waiting? || pod.phase.Refreshing? || pod.phase.StuckForEver? || pod.phase.Lockless?
  }

  datatype Action =
    | Delay(d: int)
    | Boot(p: nat)
    | Fire(p: nat)
    | Cancel(p: nat)
    | CallTry(p: nat)
    | ServeTry(p: nat)
    | TryAnswered(p: nat)
    | TryBroken(p: nat)
    | ApplyCancelledBy(p: nat)
    | CallTick(p: nat)
    | CallRetry(p: nat)
    | ServeRefresh(p: nat)
    | RefreshAnswered(p: nat, answer: Refresh)
    | ServeStray(p: nat)
    | RefreshCancelled(p: nat)
    | ServeUnlock(p: nat)
    | UnlockAnswered(p: nat)
    | UnlockGivenUp(p: nat)
    | ServeStrayUnlock(p: nat)
    | LocklessEnds(p: nat)

  /** The pod may still be in its phase at time t. */
  predicate MayWait(par: Par, pod: Pod, t: int) {
    match pod.phase
    case Applying(tk) => !tk.pending && !pod.cancelled && t <= tk.next
    case Trying(_, start, _) => t <= start + par.latency
    case Waiting(tk, ctl) => !tk.pending && !ctl.token && !pod.cancelled && t <= tk.next
    case Refreshing(tk, _, _, start, _) => t <= start + par.timeout && t <= tk.next
    case Lockless(tk) => !tk.pending && !pod.cancelled && t <= tk.next
    case _ => true
  }

  predicate PodEnabled(par: Par, now: int, pod: Pod, a: Action) {
    var ph := pod.phase;
    match a
    case Delay(_) => false
    case Boot(_) => ph.Off?
    case Fire(_) => (ph.Applying? || ph.Waiting? || ph.Refreshing? || ph.Lockless?) && now == ph.ticker.next
    case Cancel(_) => true
    case CallTry(_) => ph.Applying? && ph.ticker.pending
    case ServeTry(_) => ph.Trying? && ph.served.NotYet?
    case TryAnswered(_) => ph.Trying? && !ph.served.NotYet?
    case TryBroken(_) => ph.Trying?
    case ApplyCancelledBy(_) => (ph.Applying? || ph.Trying?) && pod.cancelled
    case CallTick(_) => ph.Waiting? && ph.ticker.pending
    case CallRetry(_) => ph.Waiting? && ph.ctl.token
    case ServeRefresh(_) => ph.Refreshing? && ph.served.NotYet?
    case RefreshAnswered(_, answer) =>
      (ph.Refreshing? &&
       match answer
       case Refreshed => ph.served.Granted?
       case TimedOut => now == ph.start + par.timeout
       case Broken => true)
    case ServeStray(_) => pod.stray > 0
    case RefreshCancelled(_) => ph.Waiting? && pod.cancelled
    case ServeUnlock(_) => ph.Unlocking? && !ph.done
    case UnlockAnswered(_) => ph.Unlocking?
    case UnlockGivenUp(_) => ph.Unlocking?
    case ServeStrayUnlock(_) => pod.strayUnlocks > 0
    case LocklessEnds(_) => ph.Lockless? && (ph.ticker.pending || pod.cancelled)
  }

  predicate Enabled(par: Par, s: Sys, a: Action) {
    match a
    case Delay(d) => d > 0 && forall p :: 0 <= p < |s.pods| ==> MayWait(par, s.pods[p], s.now + d)
    case _ => a.p < |s.pods| && PodEnabled(par, s.now, s.pods[a.p], a)
  }

  function Refresher(ph: Phase, n: Next): Phase
    requires ph.Refreshing?
  {
    match n
    case Loop(ctl) => Waiting(ph.ticker, ctl)
    case Fail => Unlocking(false, false)
    case Stuck => StuckForEver
  }

  function AfterUnlock(par: Par, now: int, ph: Phase): Phase
    requires ph.Unlocking?
  {
    if ph.last then Closed else Applying(Ticker(now + par.apply, false))
  }

  function Unlocked(c: Cell, p: nat): Cell { if Owns(c, p) then Free else c }

  /** The pod and the cell after the pod's action. */
  function PodStep(par: Par, now: int, c: Cell, p: nat, pod: Pod, a: Action): (Pod, Cell)
    requires Proper(par) && PodEnabled(par, now, pod, a)
  {
    var ph := pod.phase;
    match a
    case Boot(_) => (pod.(phase := Applying(Ticker(now + par.apply, false))), c)
    case Fire(_) =>
      (pod.(phase := ph.(ticker := Fired(ph.ticker, if ph.Applying? then par.apply else par.interval))), c)
    case Cancel(_) => (pod.(cancelled := true), c)
    case CallTry(_) => (pod.(phase := Trying(ph.ticker.(pending := false), now, NotYet)), c)
    case ServeTry(_) =>
      if Available(c, now)
      then (pod.(phase := Trying(ph.ticker, ph.start, Granted), acquired := now, leased := now),
            Held(p, now + par.expiration))
      else (pod.(phase := Trying(ph.ticker, ph.start, Refused)), c)
    case TryAnswered(_) =>
      if ph.served.Granted?
      then (pod.(phase := Waiting(Ticker(now + par.interval, false), FRESH), since := now), c)
      else (pod.(phase := Applying(CaughtUp(ph.ticker, now, par.apply))), c)
    case TryBroken(_) => (pod.(phase := Lockless(Ticker(now + par.interval, false)), since := now), c)
    case ApplyCancelledBy(_) => (pod.(phase := Closed), c)
    case CallTick(_) => (pod.(phase := Refreshing(ph.ticker.(pending := false), ph.ctl, true, now, NotYet)), c)
    case CallRetry(_) => (pod.(phase := Refreshing(ph.ticker, RetryTaken(ph.ctl), false, now, NotYet)), c)
    case ServeRefresh(_) =>
      if Owns(c, p) && now <= c.expiry
      then (pod.(phase := Refreshing(ph.ticker, ph.ctl, ph.fromTick, ph.start, Granted), leased := now),
            Held(p, now + par.expiration))
      else (pod.(phase := Refreshing(ph.ticker, ph.ctl, ph.fromTick, ph.start, Refused)), c)
    case RefreshAnswered(_, answer) =>
      var next := if ph.fromTick then TickAnswered(ph.ctl, answer) else RetryAnswered(ph.ctl, answer);
      (pod.(phase := Refresher(ph, next), stray := if ph.served.NotYet? then pod.stray + 1 else pod.stray), c)
    case ServeStray(_) =>
      if Owns(c, p) && now <= c.expiry
      then (pod.(stray := pod.stray - 1, leased := now), Held(p, now + par.expiration))
      else (pod.(stray := pod.stray - 1), c)
    case RefreshCancelled(_) => (pod.(phase := Unlocking(true, false)), c)
    case ServeUnlock(_) => (pod.(phase := Unlocking(ph.last, true)), Unlocked(c, p))
    case UnlockAnswered(_) => (pod.(phase := AfterUnlock(par, now, ph)), c)
    case UnlockGivenUp(_) =>
      (pod.(phase := AfterUnlock(par, now, ph), strayUnlocks := pod.strayUnlocks + if ph.done then 0 else 1), c)
    case ServeStrayUnlock(_) => (pod.(strayUnlocks := pod.strayUnlocks - 1), Unlocked(c, p))
    case LocklessEnds(_) => (pod.(phase := Closed), c)
  }

  function Do(par: Par, s: Sys, a: Action): Sys
    requires Proper(par) && Enabled(par, s, a)
  {
    match a
    case Delay(d) => s.(now := s.now + d)
    case _ =>
      var (pod, cell) := PodStep(par, s.now, s.cell, a.p, s.pods[a.p], a);
      Sys(s.now, cell, s.pods[a.p := pod])
  }

  predicate Legal(par: Par, s: Sys, acts: seq<Action>)
    requires Proper(par)
    decreases |acts|
  {
    acts == [] || (Enabled(par, s, acts[0]) && Legal(par, Do(par, s, acts[0]), acts[1..]))
  }

  function Exec(par: Par, s: Sys, acts: seq<Action>): Sys
    requires Proper(par) && Legal(par, s, acts)
    decreases |acts|
  {
    if acts == [] then s else Exec(par, Do(par, s, acts[0]), acts[1..])
  }

  function Initial(n: nat): Sys {
    Sys(0, Free, seq(n, _ => Pod(Off, 0, 0, 0, false, 0, 0)))
  }

  /** TryLock fails only by being preempted or canceled, and an unlock is not given up while under way. */
  predicate Expected(a: Action) { !a.TryBroken? && !a.UnlockGivenUp? }

  predicate AsExpected(acts: seq<Action>) {
    forall a :: a in acts ==> Expected(a)
  }

  /**
   * The ticker of a pod whose TryLock was refused: its ticks stay on the grid, the next one is ahead, and
   * one waits exactly if one has passed meanwhile.
   */
  lemma CaughtUpExactly(t: Ticker, now: int, period: int)
    requires period > 0 && t.next - period <= now
    ensures var u := CaughtUp(t, now, period);
            && (u.next - t.next) % period == 0 && now < u.next <= now + period
            && (u.pending <==> t.pending || t.next <= now)
  {
    if t.next <= now {
      var k := (now - t.next) / period + 1;
      GridStep(k, period);
      assert CaughtUp(t, now, period).next - t.next == k * period;
    }
  }

  lemma GridStep(k: int, period: int)
    requires period > 0
    ensures (k * period) % period == 0
  {
    var q, r := (k * period) / period, (k * period) % period;
    assert (k - q) * period == r;
    if k - q >= 1 { MulGrows(k - q, period); }
    if k - q <= -1 { MulGrows(q - k, period); }
  }

  lemma MulGrows(a: int, period: int)
    requires a >= 1 && period > 0
    ensures a * period >= period
  {
    assert (a - 1) * period >= 0;
  }

  /** The lock service: a grant for a cell that is free or past its expiry, an extension for its owner until then. */
  lemma ServedExactly(par: Par, now: int, c: Cell, p: nat, pod: Pod)
    requires Proper(par)
    ensures PodEnabled(par, now, pod, ServeTry(p)) ==>
              var (x, c') := PodStep(par, now, c, p, pod, ServeTry(p));
              if c == Free || c.expiry < now then x.phase.served == Granted && c' == Held(p, now + par.expiration)
              else x.phase.served == Refused && c' == c
    ensures PodEnabled(par, now, pod, ServeRefresh(p)) ==>
              var (x, c') := PodStep(par, now, c, p, pod, ServeRefresh(p));
              if c.Held? && c.owner == p && now <= c.expiry
              then x.phase.served == Granted && c' == Held(p, now + par.expiration)
              else x.phase.served == Refused && c' == c
  {
  }

  /** A refresh loop that is cancelled stops, gives the lock up if it still has it, and its pod is closed. */
  lemma CancelledCloses(par: Par, now: int, c: Cell, p: nat, pod: Pod)
    requires Proper(par) && pod.phase.Waiting? && pod.cancelled
    ensures PodEnabled(par, now, pod, RefreshCancelled(p))
    ensures var x1 := PodStep(par, now, c, p, pod, RefreshCancelled(p)).0;
            && x1.phase == Unlocking(true, false) && PodEnabled(par, now, x1, ServeUnlock(p))
            && var (x2, c2) := PodStep(par, now, c, p, x1, ServeUnlock(p));
               && c2 == (if c.Held? && c.owner == p then Free else c) && x2.phase == Unlocking(true, true)
               && !PodEnabled(par, now, x2, ServeUnlock(p)) && PodEnabled(par, now, x2, UnlockAnswered(p))
               && PodStep(par, now, c2, p, x2, UnlockAnswered(p)) == (pod.(phase := Closed), c2)
  {
  }

  /** The cancellation may come at any time, and stays. */
  lemma CancelStays(par: Par, now: int, c: Cell, p: nat, pod: Pod, a: Action)
    requires Proper(par)
    ensures PodEnabled(par, now, pod, Cancel(p))
    ensures PodStep(par, now, c, p, pod, Cancel(p)) == (pod.(cancelled := true), c)
    ensures pod.cancelled && PodEnabled(par, now, pod, a) ==> PodStep(par, now, c, p, pod, a).0.cancelled
  {
  }

  /** A TryLock that fails in any other way starts the pod at once, with a ticker and without a lock. */
  lemma BrokenTryStarts(par: Par, now: int, c: Cell, p: nat, pod: Pod)
    requires Proper(par) && pod.phase.Trying?
    ensures PodEnabled(par, now, pod, TryBroken(p))
    ensures PodStep(par, now, c, p, pod, TryBroken(p))
         == (pod.(phase := Lockless(Ticker(now + par.interval, false)), since := now), c)
  {
  }

  /** A closed pod does nothing any more: only its requests that are under way may still take effect. */
  lemma ClosedIsOver(par: Par, now: int, c: Cell, p: nat, pod: Pod, a: Action)
    requires Proper(par) && pod.phase == Closed && PodEnabled(par, now, pod, a)
    ensures a.Cancel? || a.ServeStray? || a.ServeStrayUnlock?
    ensures PodStep(par, now, c, p, pod, a).0.phase == Closed
  {
  }

  /** Applying ends with the cancellation, and a pod without a lock with its first tick or the cancellation. */
  lemma EndsClosed(par: Par, now: int, c: Cell, p: nat, pod: Pod)
    requires Proper(par)
    ensures pod.cancelled && (pod.phase.Applying? || pod.phase.Trying?) ==>
              PodEnabled(par, now, pod, ApplyCancelledBy(p))
              && PodStep(par, now, c, p, pod, ApplyCancelledBy(p)) == (pod.(phase := Closed), c)
    ensures pod.phase.Lockless? && (pod.cancelled || pod.phase.ticker.pending) ==>
              PodEnabled(par, now, pod, LocklessEnds(p))
              && PodStep(par, now, c, p, pod, LocklessEnds(p)) == (pod.(phase := Closed), c)
  {
  }

  // ---------------------------------------------------------------- the invariant

  /** n refresh timeouts in a row. */
  function Timeouts(par: Par, n: nat): int {
    if n == 0 then 0 else if n == 1 then par.timeout else if n == 2 then 2 * par.timeout
    else if n == 3 then 3 * par.timeout else if n == 4 then 4 * par.timeout else 5 * par.timeout
  }

  /** The last moment at which a pod whose lease was last extended at `leased` can still be running. */
  function Deadline(par: Par, leased: int): int {
    leased + par.latency + par.interval + 5 * par.timeout
  }

  /** The pod acts on a grant that it has, or is about to learn of. */
  predicate Claims(pod: Pod) {
    pod.phase.Waiting? || pod.phase.Refreshing? || (pod.phase.Trying? && pod.phase.served.Granted?)
  }

  /** When the pod last announced its start or had its lease extended. */
  function Base(pod: Pod): int { if pod.since > pod.leased then pod.since else pod.leased }

  predicate WaitOk(par: Par, now: int, base: int, tk: Ticker, ctl: Ctl) {
    var tick := tk.next - par.interval;
    if ctl.token then
      !tk.pending && ctl.retryCnt <= 3 && now == tick + Timeouts(par, ctl.retryCnt + 1) && tick <= base + par.interval
    else if tk.pending then
      ctl.retryCnt == 0 && now == tick && tick <= base + par.interval
    else
      ctl.retryCnt == 0 && now <= tk.next <= base + par.interval
  }

  /** The tick that this chain of attempts answers. */
  function ChainTick(par: Par, tk: Ticker): int {
    if tk.pending then tk.next - 2 * par.interval else tk.next - par.interval
  }

  predicate RefreshOk(par: Par, now: int, base: int, leased: int, ph: Phase)
    requires ph.Refreshing?
  {
    var n := ph.ctl.retryCnt;
    && !ph.ctl.token && n <= 4 && (ph.fromTick <==> n == 0)
    && ph.start == ChainTick(par, ph.ticker) + Timeouts(par, n)
    && ph.start <= now <= ph.start + par.timeout
    && ChainTick(par, ph.ticker) <= base + par.interval
    && (ph.served.Granted? ==> leased >= ph.start)
    && (if ph.ticker.pending then now == ph.ticker.next - par.interval else now <= ph.ticker.next)
  }

  predicate Lease(par: Par, now: int, c: Cell, p: nat, pod: Pod) {
    && pod.acquired <= pod.leased <= now
    && ((Owns(c, p) && c.expiry >= pod.leased + par.expiration) || now > pod.leased + par.expiration)
  }

  predicate PodOk(par: Par, now: int, c: Cell, p: nat, pod: Pod) {
    && pod.strayUnlocks == 0
    && (Claims(pod) ==> Lease(par, now, c, p, pod))
    && (Running(pod) ==> pod.acquired <= pod.since <= now && pod.since <= pod.leased + par.latency)
    && match pod.phase
       case Trying(_, start, served) =>
         start <= now <= start + par.latency && (served.Granted? ==> start <= pod.leased)
       case Waiting(tk, ctl) => WaitOk(par, now, Base(pod), tk, ctl)
       case Refreshing(_, _, _, _, _) => RefreshOk(par, now, Base(pod), pod.leased, pod.phase)
       case StuckForEver => false
       case Lockless(_) => false
       case _ => true
  }

  /** Of two claiming pods, the later one acquired after the other's lease ran out, and the other lost the cell. */
  predicate Superseded(par: Par, c: Cell, p: nat, former: Pod, newer: Pod) {
    former.leased + par.expiration < newer.acquired && !Owns(c, p)
  }

  predicate PairOk(par: Par, c: Cell, p: nat, x: Pod, q: nat, y: Pod) {
    Claims(x) && Claims(y) ==> Superseded(par, c, p, x, y) || Superseded(par, c, q, y, x)
  }

  ghost predicate Inv(par: Par, s: Sys) {
    && (forall p :: 0 <= p < |s.pods| ==> PodOk(par, s.now, s.cell, p, s.pods[p]))
    && (forall p, q :: 0 <= p < q < |s.pods| ==> PairOk(par, s.cell, p, s.pods[p], q, s.pods[q]))
  }

  predicate Safe(par: Par) { Proper(par) && 5 * par.timeout <= par.interval }

  lemma DelayKeepsPod(par: Par, s: Sys, d: int, p: nat)
    requires Safe(par) && d > 0 && p < |s.pods| && MayWait(par, s.pods[p], s.now + d)
    requires PodOk(par, s.now, s.cell, p, s.pods[p])
    ensures PodOk(par, s.now + d, s.cell, p, s.pods[p])
  {
  }

  /** A timeout: the chain goes on within four timeouts of its tick, or ends. */
  lemma TimeoutKeepsPod(par: Par, now: int, c: Cell, p: nat, pod: Pod)
    requires Safe(par) && PodEnabled(par, now, pod, RefreshAnswered(p, TimedOut))
    requires PodOk(par, now, c, p, pod)
    ensures PodOk(par, now, c, p, PodStep(par, now, c, p, pod, RefreshAnswered(p, TimedOut)).0)
  {
    var ph := pod.phase;
    if ph.ctl.retryCnt <= 3 {
      assert now == ChainTick(par, ph.ticker) + Timeouts(par, ph.ctl.retryCnt + 1);
      assert !ph.ticker.pending;
    }
  }

  lemma SuccessKeepsPod(par: Par, now: int, c: Cell, p: nat, pod: Pod)
    requires Safe(par) && PodEnabled(par, now, pod, RefreshAnswered(p, Refreshed))
    requires PodOk(par, now, c, p, pod)
    ensures PodOk(par, now, c, p, PodStep(par, now, c, p, pod, RefreshAnswered(p, Refreshed)).0)
  {
  }

  lemma AnswerKeepsPod(par: Par, now: int, c: Cell, p: nat, pod: Pod, answer: Refresh)
    requires Safe(par) && PodEnabled(par, now, pod, RefreshAnswered(p, answer))
    requires PodOk(par, now, c, p, pod)
    ensures PodOk(par, now, c, p, PodStep(par, now, c, p, pod, RefreshAnswered(p, answer)).0)
  {
    match answer
    case TimedOut => TimeoutKeepsPod(par, now, c, p, pod);
    case Refreshed => SuccessKeepsPod(par, now, c, p, pod);
    case Broken =>
  }

  lemma CallKeepsPod(par: Par, now: int, c: Cell, p: nat, pod: Pod, a: Action)
    requires Safe(par) && PodEnabled(par, now, pod, a) && (a.CallTick? || a.CallRetry? || a.Fire?)
    requires PodOk(par, now, c, p, pod)
    ensures PodOk(par, now, c, p, PodStep(par, now, c, p, pod, a).0)
  {
  }

  lemma ServeRefreshKeepsPod(par: Par, now: int, c: Cell, p: nat, pod: Pod, a: Action)
    requires Safe(par) && PodEnabled(par, now, pod, a) && a == ServeRefresh(p)
    requires PodOk(par, now, c, p, pod)
    ensures var (pod', c') := PodStep(par, now, c, p, pod, a);
            PodOk(par, now, c', p, pod')
  {
  }

  lemma ServeStrayKeepsPod(par: Par, now: int, c: Cell, p: nat, pod: Pod, a: Action)
    requires Safe(par) && PodEnabled(par, now, pod, a) && a == ServeStray(p)
    requires PodOk(par, now, c, p, pod)
    ensures var (pod', c') := PodStep(par, now, c, p, pod, a);
            PodOk(par, now, c', p, pod')
  {
  }

  lemma ServeKeepsPod(par: Par, now: int, c: Cell, p: nat, pod: Pod, a: Action)
    requires Safe(par) && PodEnabled(par, now, pod, a)
    requires a in {ServeTry(p), ServeRefresh(p), ServeStray(p), ServeUnlock(p), ServeStrayUnlock(p)}
    requires PodOk(par, now, c, p, pod)
    ensures var (pod', c') := PodStep(par, now, c, p, pod, a);
            PodOk(par, now, c', p, pod')
  {
    if a == ServeRefresh(p) {
      ServeRefreshKeepsPod(par, now, c, p, pod, a);
    } else if a == ServeStray(p) {
      ServeStrayKeepsPod(par, now, c, p, pod, a);
    }
  }

  lemma OtherKeepsPod(par: Par, now: int, c: Cell, p: nat, pod: Pod, a: Action)
    requires Safe(par) && PodEnabled(par, now, pod, a)
    requires a.Boot? || a.Cancel? || a.CallTry? || a.TryAnswered? || a.ApplyCancelledBy? || a.RefreshCancelled?
          || a.UnlockAnswered? || a.LocklessEnds?
    requires PodOk(par, now, c, p, pod)
    ensures PodOk(par, now, c, p, PodStep(par, now, c, p, pod, a).0)
  {
  }

  lemma ActionKeepsPod(par: Par, now: int, c: Cell, p: nat, pod: Pod, a: Action)
    requires Safe(par) && PodEnabled(par, now, pod, a) && Expected(a) && !a.Delay? && a.p == p
    requires PodOk(par, now, c, p, pod)
    ensures var (pod', c') := PodStep(par, now, c, p, pod, a);
            PodOk(par, now, c', p, pod')
  {
    if a.RefreshAnswered? {
      AnswerKeepsPod(par, now, c, p, pod, a.answer);
    } else if a.CallTick? || a.CallRetry? || a.Fire? {
      CallKeepsPod(par, now, c, p, pod, a);
    } else if a.ServeTry? || a.ServeRefresh? || a.ServeStray? || a.ServeUnlock? || a.ServeStrayUnlock? {
      ServeKeepsPod(par, now, c, p, pod, a);
    } else {
      OtherKeepsPod(par, now, c, p, pod, a);
    }
  }

  /** Another pod's action leaves a pod's own part of the invariant alone. */
  lemma ActionKeepsOther(par: Par, now: int, c: Cell, p: nat, pod: Pod, a: Action, q: nat, other: Pod)
    requires Safe(par) && PodEnabled(par, now, pod, a) && p != q
    requires PodOk(par, now, c, p, pod) && PodOk(par, now, c, q, other)
    ensures PodOk(par, now, PodStep(par, now, c, p, pod, a).1, q, other)
  {
  }

  lemma ActionKeepsPair(par: Par, now: int, c: Cell, p: nat, pod: Pod, a: Action, q: nat, other: Pod)
    requires Safe(par) && PodEnabled(par, now, pod, a) && Expected(a) && p != q
    requires PodOk(par, now, c, p, pod) && PodOk(par, now, c, q, other)
    requires PairOk(par, c, p, pod, q, other)
    ensures var (pod', c') := PodStep(par, now, c, p, pod, a);
            PairOk(par, c', p, pod', q, other)
  {
  }

  lemma ActionKeepsDistantPair(par: Par, now: int, c: Cell, p: nat, pod: Pod, a: Action, q: nat, x: Pod, r: nat, y: Pod)
    requires Safe(par) && PodEnabled(par, now, pod, a) && p != q && p != r
    requires PodOk(par, now, c, p, pod) && PodOk(par, now, c, q, x) && PodOk(par, now, c, r, y)
    requires PairOk(par, c, q, x, r, y)
    ensures PairOk(par, PodStep(par, now, c, p, pod, a).1, q, x, r, y)
  {
  }

  lemma DelayKeepsInv(par: Par, s: Sys, d: int)
    requires Safe(par) && Inv(par, s) && Enabled(par, s, Delay(d))
    ensures Inv(par, Do(par, s, Delay(d)))
  {
    forall p | 0 <= p < |s.pods| ensures PodOk(par, s.now + d, s.cell, p, s.pods[p]) {
      DelayKeepsPod(par, s, d, p);
    }
  }

  lemma PairSwaps(par: Par, c: Cell, p: nat, x: Pod, q: nat, y: Pod)
    requires PairOk(par, c, p, x, q, y)
    ensures PairOk(par, c, q, y, p, x)
  {
  }

  lemma PairAfterLower(par: Par, s: Sys, a: Action, q: nat, r: nat)
    requires Safe(par) && Inv(par, s) && Enabled(par, s, a) && !a.Delay? && Expected(a)
    requires a.p == q < r < |s.pods|
    ensures var (x, c) := PodStep(par, s.now, s.cell, q, s.pods[q], a);
            PairOk(par, c, q, x, r, s.pods[r])
  {
    assert PairOk(par, s.cell, q, s.pods[q], r, s.pods[r]);
    ActionKeepsPair(par, s.now, s.cell, q, s.pods[q], a, r, s.pods[r]);
  }

  lemma PairAfterUpper(par: Par, s: Sys, a: Action, q: nat, r: nat)
    requires Safe(par) && Inv(par, s) && Enabled(par, s, a) && !a.Delay? && Expected(a)
    requires q < r == a.p < |s.pods|
    ensures var (y, c) := PodStep(par, s.now, s.cell, r, s.pods[r], a);
            PairOk(par, c, q, s.pods[q], r, y)
  {
    PairSwaps(par, s.cell, q, s.pods[q], r, s.pods[r]);
    ActionKeepsPair(par, s.now, s.cell, r, s.pods[r], a, q, s.pods[q]);
    var (y, c) := PodStep(par, s.now, s.cell, r, s.pods[r], a);
    PairSwaps(par, c, r, y, q, s.pods[q]);
  }

  lemma StepShape(par: Par, s: Sys, a: Action)
    requires Proper(par) && Enabled(par, s, a) && !a.Delay?
    ensures var (x, c) := PodStep(par, s.now, s.cell, a.p, s.pods[a.p], a);
            Do(par, s, a) == Sys(s.now, c, s.pods[a.p := x])
  {
  }

  /** The pair invariant after an action of one pod, for any two pods. */
  lemma PairAfter(par: Par, s: Sys, a: Action, q: nat, r: nat)
    requires Safe(par) && Inv(par, s) && Enabled(par, s, a) && !a.Delay? && Expected(a)
    requires q < r < |s.pods|
    ensures PairOk(par, Do(par, s, a).cell, q, Do(par, s, a).pods[q], r, Do(par, s, a).pods[r])
  {
    StepShape(par, s, a);
    if q == a.p {
      PairAfterLower(par, s, a, q, r);
    } else if r == a.p {
      PairAfterUpper(par, s, a, q, r);
    } else {
      assert PairOk(par, s.cell, q, s.pods[q], r, s.pods[r]);
      ActionKeepsDistantPair(par, s.now, s.cell, a.p, s.pods[a.p], a, q, s.pods[q], r, s.pods[r]);
    }
  }

  lemma PodAfter(par: Par, s: Sys, a: Action, q: nat)
    requires Safe(par) && Inv(par, s) && Enabled(par, s, a) && !a.Delay? && Expected(a)
    requires q < |s.pods|
    ensures var s' := Do(par, s, a);
            PodOk(par, s'.now, s'.cell, q, s'.pods[q])
  {
    if q == a.p {
      ActionKeepsPod(par, s.now, s.cell, q, s.pods[q], a);
    } else {
      ActionKeepsOther(par, s.now, s.cell, a.p, s.pods[a.p], a, q, s.pods[q]);
    }
  }

  lemma StepKeepsInv(par: Par, s: Sys, a: Action)
    requires Safe(par) && Inv(par, s) && Enabled(par, s, a) && Expected(a)
    ensures Inv(par, Do(par, s, a))
  {
    if a.Delay? {
      DelayKeepsInv(par, s, a.d);
    } else {
      var s' := Do(par, s, a);
      forall q | 0 <= q < |s.pods| ensures PodOk(par, s'.now, s'.cell, q, s'.pods[q]) {
        PodAfter(par, s, a, q);
      }
      forall q, r | 0 <= q < r < |s.pods| ensures PairOk(par, s'.cell, q, s'.pods[q], r, s'.pods[r]) {
        PairAfter(par, s, a, q, r);
      }
    }
  }

  lemma {:induction false} RunKeepsInv(par: Par, s: Sys, acts: seq<Action>)
    requires Safe(par) && Inv(par, s) && Legal(par, s, acts) && AsExpected(acts)
    ensures Inv(par, Exec(par, s, acts))
    ensures |Exec(par, s, acts).pods| == |s.pods|
    decreases |acts|
  {
    if acts != [] {
      assert acts[0] in acts;
      StepKeepsInv(par, s, acts[0]);
      RunKeepsInv(par, Do(par, s, acts[0]), acts[1..]);
    }
  }

  // ---------------------------------------------------------------- main results

  /** A state of some run of n pods in which TryLock and Unlock fail only as expected. */
  ghost predicate Reachable(par: Par, n: nat, s: Sys)
    requires Proper(par)
  {
    exists acts :: Legal(par, Initial(n), acts) && AsExpected(acts) && Exec(par, Initial(n), acts) == s
  }

  lemma ReachableInv(par: Par, n: nat, s: Sys)
    requires Safe(par) && Reachable(par, n, s)
    ensures Inv(par, s) && |s.pods| == n
  {
    var acts :| Legal(par, Initial(n), acts) && AsExpected(acts) && Exec(par, Initial(n), acts) == s;
    RunKeepsInv(par, Initial(n), acts);
  }

  /**
   * Two pods are never both running for as long as the excess of latency, interval and five
   * timeouts over the expiration - in particular not at all when there is no excess - nor for
   * longer than an interval and five timeouts.
   */
  lemma OverlapBound(par: Par, n: nat, s: Sys, p: nat, q: nat)
    requires Safe(par) && Reachable(par, n, s)
    requires p < n && q < n && p != q
    ensures |s.pods| == n
    ensures Running(s.pods[p]) && Running(s.pods[q]) ==>
              var both := s.now - Later(s.pods[p].since, s.pods[q].since);
              && 0 <= both < par.latency + par.interval + 5 * par.timeout - par.expiration
              && both <= par.interval + 5 * par.timeout
  {
    ReachableInv(par, n, s);
    assert PodOk(par, s.now, s.cell, p, s.pods[p]) && PodOk(par, s.now, s.cell, q, s.pods[q]);
    if Running(s.pods[p]) && Running(s.pods[q]) {
      if p < q {
        assert PairOk(par, s.cell, p, s.pods[p], q, s.pods[q]);
      } else {
        assert PairOk(par, s.cell, q, s.pods[q], p, s.pods[p]);
        PairSwaps(par, s.cell, q, s.pods[q], p, s.pods[p]);
      }
      PairOverlap(par, s.now, s.cell, p, s.pods[p], q, s.pods[q]);
    }
  }

  lemma PairOverlap(par: Par, now: int, c: Cell, p: nat, x: Pod, q: nat, y: Pod)
    requires Safe(par) && Running(x) && Running(y)
    requires PodOk(par, now, c, p, x) && PodOk(par, now, c, q, y) && PairOk(par, c, p, x, q, y)
    ensures var both := now - Later(x.since, y.since);
            && 0 <= both < par.latency + par.interval + 5 * par.timeout - par.expiration
            && both <= par.interval + 5 * par.timeout
  {
    RunningUntilDeadline(par, now, c, p, x);
    RunningUntilDeadline(par, now, c, q, y);
    if Superseded(par, c, p, x, y) {
      FormerOverlap(par, now, x, y);
    } else {
      FormerOverlap(par, now, y, x);
    }
  }

  lemma FormerOverlap(par: Par, now: int, former: Pod, newer: Pod)
    requires former.leased + par.expiration < newer.acquired <= newer.since <= now && former.since <= now
    requires par.expiration > 0
    requires now <= Base(former) + par.interval + 5 * par.timeout && now <= Deadline(par, former.leased)
    ensures var both := now - Later(former.since, newer.since);
            && 0 <= both < par.latency + par.interval + 5 * par.timeout - par.expiration
            && both <= par.interval + 5 * par.timeout
  {
  }

  function Later(a: int, b: int): int { if a > b then a else b }

  /** A running pod is within an interval and five timeouts of its start or its last extension, whichever is later. */
  lemma RunningUntilDeadline(par: Par, now: int, c: Cell, p: nat, pod: Pod)
    requires Safe(par) && PodOk(par, now, c, p, pod) && Running(pod)
    ensures now <= Base(pod) + par.interval + 5 * par.timeout
    ensures now <= Deadline(par, pod.leased)
  {
  }

  /**
   * The refresh loop never waits on itself: no pod is stuck, no tick waits while a token is
   * queued, at most four retries are counted, and a chain of attempts is over five timeouts
   * after its tick at the latest.
   */
  lemma NoSelfBlock(par: Par, n: nat, s: Sys, p: nat)
    requires Safe(par) && Reachable(par, n, s) && p < n
    ensures |s.pods| == n
    ensures var ph := s.pods[p].phase;
            && !ph.StuckForEver?
            && (ph.Waiting? ==> !(ph.ticker.pending && ph.ctl.token) && ph.ctl.retryCnt <= 3)
            && (ph.Waiting? && ph.ctl.token ==> s.now <= ChainTick(par, ph.ticker) + 4 * par.timeout)
            && (ph.Refreshing? ==> ph.ctl.retryCnt <= 4 && !ph.ctl.token
                                   && s.now <= ChainTick(par, ph.ticker) + 5 * par.timeout)
  {
    ReachableInv(par, n, s);
    assert PodOk(par, s.now, s.cell, p, s.pods[p]);
  }

  /** No reachable state of n pods has two of them running. */
  ghost predicate MutuallyExclusive(par: Par, n: nat)
    requires Proper(par)
  {
    forall s, p, q :: Reachable(par, n, s) && 0 <= p < q < |s.pods| ==> !(Running(s.pods[p]) && Running(s.pods[q]))
  }
}
