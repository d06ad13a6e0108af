/**
 * One push over several providers: at most ten visits, round robin, skipping providers that
 * are unhealthy or rate limited, until one of them reports success.
 *
 * `Id` identifies a provider object, so one provider may stand in the list several times and
 * several providers may share a name. A visit's inputs are what the environment decides:
 * recovery pings answered and late limiter scripts run before it, the clock, what becomes of its
 * limiter call, and the provider's answer.
 */
module RateLimitPush {
  import opened SlidingWindow
  import opened Failover

  const VISITS := 10

  datatype BackgroundPing<Id> = BackgroundPing(id: Id, i: nat, ok: bool)

  /** A limiter call is answered, fails before the server has run its script, or loses the answer. */
  datatype Call = Answered | Unrun | AnswerLost

  /** The script of a call that has been given up, made for `name` at `asked`. */
  datatype LateScript = LateScript(name: string, asked: int, evict: bool)

  datatype Visit<Id> =
    Visit(background: seq<BackgroundPing<Id>>, late: seq<LateScript>, now: int, evict: bool, call: Call,
          outcome: Outcome)

  /**
   * A message handed to a provider: its name, the millisecond it was checked at, whether a limiter
   * failure let it through.
   */
  datatype Attempt = Attempt(name: string, now: int, unchecked: bool, delivered: bool)

  datatype Config<Id> = Config(interval: int, rate: int, svcs: seq<Id>, names: map<Id, string>)

  datatype World<Id> = World(pool: map<Id, Breaker>, keys: map<string, Key>, attempts: seq<Attempt>)

  datatype Reply<Id> = Reply(world: World<Id>, err: PushError)

  ghost predicate Ready<Id>(c: Config<Id>, w: World<Id>) {
    && |c.svcs| > 0
    && forall s :: s in c.svcs ==> s in w.pool && s in c.names
  }

  function SettleOne<Id>(pool: map<Id, Breaker>, p: BackgroundPing<Id>): (r: map<Id, Breaker>) {
    if p.id in pool && Pinging(pool[p.id], p.i) then pool[p.id := AfterPing(pool[p.id], p.i, p.ok)] else pool
  }

  function Settle<Id>(pool: map<Id, Breaker>, background: seq<BackgroundPing<Id>>): (r: map<Id, Breaker>)
    ensures r.Keys == pool.Keys
    ensures forall s :: s in pool ==> r[s].threshold == pool[s].threshold
  {
    if background == [] then pool else Settle(SettleOne(pool, background[0]), background[1..])
  }

  function RunLate<Id>(c: Config<Id>, keys: map<string, Key>, late: LateScript, now: int): map<string, Key> {
    keys[late.name := ScriptFor(KeyAt(keys, late.name), c.interval, c.rate, late.asked, now, late.evict).key]
  }

  function RunAllLate<Id>(c: Config<Id>, keys: map<string, Key>, late: seq<LateScript>, now: int): map<string, Key>
    decreases |late|
  {
    if late == [] then keys else RunAllLate(c, RunLate(c, keys, late[0], now), late[1..], now)
  }

  /** What the visit finds: recovery goroutines and late scripts have gone on meanwhile. */
  function Meanwhile<Id>(c: Config<Id>, w: World<Id>, v: Visit<Id>): (r: World<Id>)
    ensures r.pool.Keys == w.pool.Keys && r.attempts == w.attempts
    ensures forall s :: s in w.pool ==> r.pool[s].threshold == w.pool[s].threshold
  {
    World(Settle(w.pool, v.background), RunAllLate(c, w.keys, v.late, v.now), w.attempts)
  }

  /** Whether the caller is told that it is limited: a failed call counts as "no". */
  function Limited<Id>(c: Config<Id>, w: World<Id>, name: string, v: Visit<Id>): bool {
    v.call.Answered? && Script(KeyAt(w.keys, name), c.interval, c.rate, v.now, v.evict).limited
  }

  function AskedKeys<Id>(c: Config<Id>, w: World<Id>, name: string, v: Visit<Id>): map<string, Key> {
    if v.call.Unrun? then w.keys
    else w.keys[name := Script(KeyAt(w.keys, name), c.interval, c.rate, v.now, v.evict).key]
  }

  /** One visit; `Nil` means that the push is over, any other error that it goes on. */
  function VisitOne<Id>(c: Config<Id>, w: World<Id>, svc: Id, v: Visit<Id>): Reply<Id>
    requires svc in w.pool && svc in c.names
  {
    var found, name := Meanwhile(c, w, v), c.names[svc];
    if !found.pool[svc].healthy then Reply(found, PusherError) else
    var keys := AskedKeys(c, found, name, v);
    if Limited(c, found, name, v) then Reply(found.(keys := keys), PusherError) else
    Reply(World(found.pool[svc := AfterPush(found.pool[svc], v.outcome)], keys,
                found.attempts + [Attempt(name, v.now, !v.call.Answered?, v.outcome.Delivered?)]),
          ReportedError(found.pool[svc], v.outcome))
  }

  /** Round robin: whose turn visit `k` is. */
  function Turn<Id>(c: Config<Id>, k: nat): (svc: Id)
    requires |c.svcs| > 0
    ensures svc in c.svcs
  {
    c.svcs[k % |c.svcs|]
  }

  function PushFrom<Id>(c: Config<Id>, w: World<Id>, k: nat, visits: seq<Visit<Id>>): Reply<Id>
    requires Ready(c, w) && |visits| == VISITS && k <= VISITS
    decreases VISITS - k
  {
    if k == VISITS then Reply(w, PusherError) else
    var r := VisitOne(c, w, Turn(c, k), visits[k]);
    if r.err == Nil then r else PushFrom(c, r.world, k + 1, visits)
  }

  lemma NextVisit<Id>(c: Config<Id>, w: World<Id>, k: nat, visits: seq<Visit<Id>>)
    requires Ready(c, w) && |visits| == VISITS && k < VISITS
    ensures Turn(c, k) == c.svcs[k % |c.svcs|]
    ensures var r := VisitOne(c, w, Turn(c, k), visits[k]);
            Ready(c, r.world) &&
            PushFrom(c, w, k, visits) == if r.err == Nil then r else PushFrom(c, r.world, k + 1, visits)
  {
  }

  /** The push, going on with visit k, will end as `goal`. */
  ghost predicate Heading<Id>(c: Config<Id>, w: World<Id>, k: nat, visits: seq<Visit<Id>>, goal: Reply<Id>)
    requires |visits| == VISITS && k <= VISITS
  {
    Ready(c, w) && PushFrom(c, w, k, visits) == goal
  }

  class RateLimitPusher {
    const limiter: RedisLimiter
    const svcs: seq<FailoverPusher>
    /** What has been handed to the providers, in order. */
    var attempts: seq<Attempt>

    constructor (limiter: RedisLimiter, svcs: seq<FailoverPusher>)
      ensures this.limiter == limiter && this.svcs == svcs && attempts == []
    {
      this.limiter, this.svcs, attempts := limiter, svcs, [];
    }

    ghost function Settings(): Config<FailoverPusher> {
      Config(limiter.interval, limiter.rate, svcs, map s | s in svcs :: s.Name)
    }

    ghost function View(): World<FailoverPusher>
      reads this, limiter, svcs
    {
      World(map s | s in svcs :: s.View(), limiter.keys, attempts)
    }

    /** One recovery goroutine's round, if that goroutine is running. */
    method BackgroundOne(p: BackgroundPing<FailoverPusher>)
      requires p.id in svcs
      modifies svcs
      ensures View() == old(View()).(pool := SettleOne(old(View()).pool, p))
    {
      ghost var before := View();
      assert before.pool[p.id] == p.id.View();
      if p.i < |p.id.recoveries| && !p.id.recoveries[p.i].done {
        p.id.Ping(p.i, p.ok);
        assert View().pool == before.pool[p.id := AfterPing(before.pool[p.id], p.i, p.ok)];
      }
    }

    /** The recovery goroutines run between two visits. */
    method Background(background: seq<BackgroundPing<FailoverPusher>>)
      requires forall p :: p in background ==> p.id in svcs
      modifies svcs
      ensures View() == old(View()).(pool := Settle(old(View()).pool, background))
    {
      ghost var goal := View().(pool := Settle(View().pool, background));
      var j := 0;
      while j < |background|
        invariant 0 <= j <= |background|
        invariant View().(pool := Settle(View().pool, background[j..])) == goal
      {
        assert background[j..][0] == background[j] && background[j..][1..] == background[j + 1..];
        BackgroundOne(background[j]);
        j := j + 1;
      }
      assert background[j..] == [];
    }

    /** The scripts of calls given up earlier run on the server. */
    method LateScripts(late: seq<LateScript>, now: int)
      modifies limiter
      ensures View() == old(View()).(keys := RunAllLate(Settings(), old(limiter.keys), late, now))
    {
      ghost var goal := RunAllLate(Settings(), limiter.keys, late, now);
      var j := 0;
      while j < |late|
        invariant 0 <= j <= |late|
        invariant View() == old(View()).(keys := limiter.keys)
        invariant RunAllLate(Settings(), limiter.keys, late[j..], now) == goal
      {
        assert late[j..][0] == late[j] && late[j..][1..] == late[j + 1..];
        var _ := limiter.Eval(late[j].name, late[j].asked, now, late[j].evict);
        j := j + 1;
      }
      assert late[j..] == [];
    }

    /** Whether the limiter holds the provider back; a limiter failure does not. */
    method AskLimiter(svc: FailoverPusher, v: Visit<FailoverPusher>) returns (limited: bool)
      requires svc in svcs
      modifies limiter
      ensures limited == Limited(Settings(), old(View()), svc.Name, v)
      ensures View() == old(View()).(keys := AskedKeys(Settings(), old(View()), svc.Name, v))
    {
      limited := false;
      if !v.call.Unrun? {
        var answer := limiter.Limit(svc.Name, v.now, v.evict);
        if v.call.Answered? {
          limited := answer;
        }
      }
    }

    method AttemptOn(svc: FailoverPusher, v: Visit<FailoverPusher>) returns (er: PushError)
      requires svc in svcs
      modifies this, svcs
      ensures er == ReportedError(old(svc.View()), v.outcome)
      ensures View() == old(View()).(
                pool := old(View()).pool[svc := AfterPush(old(svc.View()), v.outcome)],
                attempts := old(attempts) + [Attempt(svc.Name, v.now, !v.call.Answered?, v.outcome.Delivered?)])
    {
      ghost var before := View().pool;
      attempts := attempts + [Attempt(svc.Name, v.now, !v.call.Answered?, v.outcome.Delivered?)];
      er := svc.Push(v.outcome);
      assert View().pool == before[svc := AfterPush(before[svc], v.outcome)];
    }

    /** The body of the visiting loop, for a provider whose turn it is. */
    method VisitProvider(svc: FailoverPusher, v: Visit<FailoverPusher>) returns (er: PushError)
      requires svc in svcs
      requires forall p :: p in v.background ==> p.id in svcs
      modifies this, limiter, svcs
      ensures Reply(View(), er) == VisitOne(Settings(), old(View()), svc, v)
    {
      Background(v.background);
      LateScripts(v.late, v.now);
      er := PusherError;
      assert View() == Meanwhile(Settings(), old(View()), v);
      assert View().pool[svc] == svc.View();
      if svc.Healthy {
        var limited := AskLimiter(svc, v);
        assert View().pool[svc] == svc.View();
        if !limited {
          er := AttemptOn(svc, v);
        }
      }
    }

    method VisitNext(k: nat, visits: seq<Visit<FailoverPusher>>, ghost goal: Reply<FailoverPusher>)
      returns (er: PushError)
      requires |svcs| > 0 && |visits| == VISITS && k < VISITS
      requires forall v, p :: v in visits && p in v.background ==> p.id in svcs
      requires Heading(Settings(), View(), k, visits, goal)
      modifies this, limiter, svcs
      ensures if er == Nil then Reply(View(), er) == goal else Heading(Settings(), View(), k + 1, visits, goal)
    {
      NextVisit(Settings(), View(), k, visits);
      var svc := svcs[k % |svcs|];
      er := VisitProvider(svc, visits[k]);
    }

    method Push(visits: seq<Visit<FailoverPusher>>) returns (err: PushError)
      requires |svcs| > 0 && |visits| == VISITS
      requires forall v, p :: v in visits && p in v.background ==> p.id in svcs
      modifies this, limiter, svcs
      ensures Reply(View(), err) == PushFrom(Settings(), old(View()), 0, visits)
    {
      ghost var goal := PushFrom(Settings(), View(), 0, visits);
      var k := 0;
      while k < VISITS
        invariant 0 <= k <= VISITS && Heading(Settings(), View(), k, visits, goal)
      {
        var er := VisitNext(k, visits, goal);
        if er == Nil { return Nil; }
        k := k + 1;
      }
      err := PusherError;
    }
  }

  // ---------------------------------------------------------------- single delivery

  ghost predicate Thresholds<Id>(w: World<Id>, least: int) {
    forall s :: s in w.pool ==> w.pool[s].threshold >= least
  }

  function Deliveries(attempts: seq<Attempt>): nat {
    if attempts == [] then 0 else
    Deliveries(attempts[..|attempts| - 1]) + if attempts[|attempts| - 1].delivered then 1 else 0
  }

  /** The push has added its attempts, with one delivery among them if it reports success and none otherwise. */
  ghost predicate ReportsDelivery<Id>(w: World<Id>, r: Reply<Id>) {
    && w.attempts <= r.world.attempts
    && (r.err == Nil || r.err == PusherError)
    && Deliveries(r.world.attempts) == Deliveries(w.attempts) + if r.err == Nil then 1 else 0
  }

  lemma VisitReports<Id>(c: Config<Id>, w: World<Id>, svc: Id, v: Visit<Id>)
    requires svc in w.pool && svc in c.names && Thresholds(w, 0)
    ensures var r := VisitOne(c, w, svc, v);
            && w.attempts <= r.world.attempts
            && Deliveries(r.world.attempts) == Deliveries(w.attempts) + (if r.err == Nil then 1 else 0)
            && r.world.pool.Keys == w.pool.Keys
            && Thresholds(r.world, 0)
  {
    var r := VisitOne(c, w, svc, v);
    if r.world.attempts != w.attempts {
      assert r.world.attempts[..|r.world.attempts| - 1] == w.attempts;
    }
  }

  lemma {:induction false} SingleDeliveryFrom<Id>(c: Config<Id>, w: World<Id>, k: nat, visits: seq<Visit<Id>>)
    requires Ready(c, w) && |visits| == VISITS && k <= VISITS && Thresholds(w, 0)
    ensures ReportsDelivery(w, PushFrom(c, w, k, visits))
    decreases VISITS - k
  {
    if k < VISITS {
      VisitReports(c, w, Turn(c, k), visits[k]);
      var r := VisitOne(c, w, Turn(c, k), visits[k]);
      if r.err != Nil {
        assert Ready(c, r.world);
        SingleDeliveryFrom(c, r.world, k + 1, visits);
      }
    }
  }

  /** With every provider out and no recovery in between, a push does nothing and fails. */
  lemma {:induction false} NothingHealthy<Id>(c: Config<Id>, w: World<Id>, k: nat, visits: seq<Visit<Id>>)
    requires Ready(c, w) && |visits| == VISITS && k <= VISITS
    requires forall s :: s in w.pool ==> !w.pool[s].healthy
    requires forall v :: v in visits ==> v.background == [] && v.late == []
    ensures PushFrom(c, w, k, visits) == Reply(w, PusherError)
    decreases VISITS - k
  {
    if k < VISITS {
      assert visits[k] in visits;
      NothingHealthy(c, w, k + 1, visits);
    }
  }

  /** What the callers of a push rely on, for every provider list whose thresholds are at least `least`. */
  ghost predicate SingleDelivery(least: int) {
    forall c: Config<int>, w: World<int>, visits: seq<Visit<int>> ::
      Ready(c, w) && |visits| == VISITS && Thresholds(w, least) ==> ReportsDelivery(w, PushFrom(c, w, 0, visits))
  }

  /** A provider with a negative threshold delivers, is reported as failed, and leaves the push to try elsewhere. */
  lemma DeliveredYetFailed(least: int)
    requires least < 0
    ensures !SingleDelivery(least)
  {
    var c := Config(1, 1, [0], map[0 := "p"]);
    var w: World<int> := World(map[0 := Breaker(true, 0, least, [])], map[], []);
    var v: Visit<int> := Visit([], [], 0, false, Unrun, Delivered);
    var visits := seq(VISITS, _ => v);
    assert Turn(c, 0) == 0;
    var r := VisitOne(c, w, 0, v);
    assert r.err == PusherError && r.world.attempts == [Attempt("p", 0, true, true)];
    NothingHealthy(c, r.world, 1, visits);
    assert PushFrom(c, w, 0, visits) == Reply(r.world, PusherError);
    assert r.world.attempts[..0] == [];
    assert !ReportsDelivery(w, PushFrom(c, w, 0, visits));
  }

  /** Nil exactly for the one delivery there is: this needs thresholds that are not negative, and nothing more. */
  lemma SingleDeliveryExactly(least: int)
    ensures SingleDelivery(least) <==> least >= 0
  {
    if least >= 0 {
      forall c: Config<int>, w: World<int>, visits: seq<Visit<int>>
        | Ready(c, w) && |visits| == VISITS && Thresholds(w, least)
        ensures ReportsDelivery(w, PushFrom(c, w, 0, visits))
      {
        SingleDeliveryFrom(c, w, 0, visits);
      }
    } else {
      DeliveredYetFailed(least);
    }
  }

  /** A visit to a healthy provider with a negative threshold: it delivers, reports an error, and is taken out. */
  lemma DeliversAndIsOut(c: Config<int>, w: World<int>, svc: int, v: Visit<int>)
    requires svc in w.pool && svc in c.names && w.pool[svc].healthy && w.pool[svc].cnt == 0 && w.pool[svc].threshold < 0
    requires v.background == [] && v.late == [] && v.call.Unrun? && v.outcome.Delivered?
    ensures var r := VisitOne(c, w, svc, v);
            && r.err == PusherError && Deliveries(r.world.attempts) == Deliveries(w.attempts) + 1
            && r.world.pool == w.pool[svc := AfterPush(w.pool[svc], Delivered)]
            && !r.world.pool[svc].healthy
  {
    var r := VisitOne(c, w, svc, v);
    assert r.world.attempts[..|w.attempts|] == w.attempts;
  }

  /** With two such providers one push delivers its message twice, and reports an error. */
  lemma DeliveredTwice(least: int) returns (c: Config<int>, w: World<int>, visits: seq<Visit<int>>)
    requires least < 0
    ensures Ready(c, w) && |visits| == VISITS && Thresholds(w, least) && w.attempts == []
    ensures PushFrom(c, w, 0, visits).err == PusherError
    ensures Deliveries(PushFrom(c, w, 0, visits).world.attempts) == 2
  {
    c := Config(1, 1, [0, 1], map[0 := "p", 1 := "q"]);
    var unused := Breaker(true, 0, least, []);
    w := World(map[0 := unused, 1 := unused], map[], []);
    var v: Visit<int> := Visit([], [], 0, false, Unrun, Delivered);
    visits := seq(VISITS, _ => v);
    var w1, w2 := VisitOne(c, w, 0, v).world, VisitOne(c, VisitOne(c, w, 0, v).world, 1, v).world;
    DeliversAndIsOut(c, w, 0, v);
    DeliversAndIsOut(c, w1, 1, v);
    assert Turn(c, 0) == 0 && Turn(c, 1) == 1;
    NextVisit(c, w, 0, visits);
    NextVisit(c, w1, 1, visits);
    assert w2.pool.Keys == {0, 1} && !w2.pool[0].healthy && !w2.pool[1].healthy;
    NothingHealthy(c, w2, 2, visits);
  }

  // ---------------------------------------------------------------- when a push succeeds

  /** The round robin gives every provider of the list its turn once a round. */
  lemma TurnsGoRound<Id>(c: Config<Id>, k: nat, rounds: nat)
    requires k < |c.svcs|
    ensures Turn(c, rounds * |c.svcs| + k) == c.svcs[k]
  {
    RemainderIs(rounds * |c.svcs| + k, |c.svcs|, rounds, k);
  }

  lemma RemainderIs(x: int, n: int, q: int, r: int)
    requires 0 <= r < n && x == q * n + r
    ensures x % n == r
  {
    var p := x / n;
    assert x == p * n + x % n;
    if p < q {
      MulMonotone(p + 1, q, n);
    } else if q < p {
      MulMonotone(q + 1, p, n);
    }
  }

  lemma MulMonotone(a: int, b: int, n: int)
    requires a <= b && 0 <= n
    ensures a * n <= b * n
  {
    assert (b - a) * n >= 0;
  }

  /** The visit finds its provider healthy, not limited (or the limiter failing), and answering. */
  predicate Serves<Id>(c: Config<Id>, w: World<Id>, svc: Id, v: Visit<Id>)
    requires svc in w.pool && svc in c.names
  {
    var found := Meanwhile(c, w, v);
    found.pool[svc].healthy && !Limited(c, found, c.names[svc], v) && v.outcome.Delivered?
  }

  lemma ServesExactly<Id>(c: Config<Id>, w: World<Id>, svc: Id, v: Visit<Id>)
    requires svc in w.pool && svc in c.names && Thresholds(w, 0)
    ensures VisitOne(c, w, svc, v).err == Nil <==> Serves(c, w, svc, v)
  {
  }

  /** The world after the first k visits, whatever they returned. */
  function WorldAt<Id>(c: Config<Id>, w: World<Id>, k: nat, visits: seq<Visit<Id>>): (r: World<Id>)
    requires Ready(c, w) && k <= |visits|
    ensures Ready(c, r) && (Thresholds(w, 0) ==> Thresholds(r, 0))
  {
    if k == 0 then w else VisitOne(c, WorldAt(c, w, k - 1, visits), Turn(c, k - 1), visits[k - 1]).world
  }

  predicate ServesAt<Id>(c: Config<Id>, w: World<Id>, k: nat, visits: seq<Visit<Id>>)
    requires Ready(c, w) && k < |visits|
  {
    Serves(c, WorldAt(c, w, k, visits), c.svcs[k % |c.svcs|], visits[k])
  }

  /** Visit k: either it serves and the push is over, or visit k + 1 starts where it ends. */
  lemma NextWorld<Id>(c: Config<Id>, w: World<Id>, k: nat, visits: seq<Visit<Id>>)
    requires Ready(c, w) && |visits| == VISITS && k < VISITS && Thresholds(w, 0)
    ensures var r := PushFrom(c, WorldAt(c, w, k, visits), k, visits);
            var rest := PushFrom(c, WorldAt(c, w, k + 1, visits), k + 1, visits);
            r.err == Nil <==> ServesAt(c, w, k, visits) || rest.err == Nil
  {
    var now := WorldAt(c, w, k, visits);
    ServesExactly(c, now, Turn(c, k), visits[k]);
    NextVisit(c, now, k, visits);
    assert WorldAt(c, w, k + 1, visits) == VisitOne(c, now, Turn(c, k), visits[k]).world;
  }

  /** Some visit from k on finds a provider that serves. */
  predicate ServedFrom<Id>(c: Config<Id>, w: World<Id>, k: nat, visits: seq<Visit<Id>>)
    requires Ready(c, w) && k <= |visits|
  {
    exists j :: k <= j < |visits| && ServesAt(c, w, j, visits)
  }

  lemma {:induction false} SucceedsFrom<Id>(c: Config<Id>, w: World<Id>, k: nat, visits: seq<Visit<Id>>)
    requires Ready(c, w) && |visits| == VISITS && k <= VISITS && Thresholds(w, 0)
    ensures PushFrom(c, WorldAt(c, w, k, visits), k, visits).err == Nil <==> ServedFrom(c, w, k, visits)
    decreases VISITS - k
  {
    if k < VISITS {
      NextWorld(c, w, k, visits);
      SucceedsFrom(c, w, k + 1, visits);
      ServedStep(c, w, k, visits);
    }
  }

  lemma ServedStep<Id>(c: Config<Id>, w: World<Id>, k: nat, visits: seq<Visit<Id>>)
    requires Ready(c, w) && k < |visits|
    ensures ServedFrom(c, w, k, visits) <==> ServesAt(c, w, k, visits) || ServedFrom(c, w, k + 1, visits)
  {
  }

  /** A push succeeds exactly when one of its ten visits finds a provider that serves. */
  lemma SucceedsExactly<Id>(c: Config<Id>, w: World<Id>, visits: seq<Visit<Id>>)
    requires Ready(c, w) && |visits| == 10 && Thresholds(w, 0)
    ensures PushFrom(c, w, 0, visits).err == Nil <==> exists k :: 0 <= k < 10 && ServesAt(c, w, k, visits)
  {
    SucceedsFrom(c, w, 0, visits);
  }

  /** Visit k falls to provider i in round r. */
  predicate HasTurn<Id>(c: Config<Id>, i: nat, r: nat, k: nat) {
    i < |c.svcs| && k == r * |c.svcs| + i < 10
  }

  lemma EveryVisitIsATurn<Id>(c: Config<Id>, k: nat) returns (i: nat, r: nat)
    requires |c.svcs| > 0 && k < VISITS
    ensures HasTurn(c, i, r, k) && Turn(c, k) == c.svcs[i]
  {
    i, r := k % |c.svcs|, k / |c.svcs|;
    assert k == r * |c.svcs| + i;
  }

  /** The provider does not serve in its turn. */
  predicate Passed<Id>(c: Config<Id>, w: World<Id>, i: nat, k: nat, visits: seq<Visit<Id>>)
    requires Ready(c, w) && i < |c.svcs| && k < |visits|
  {
    !Serves(c, WorldAt(c, w, k, visits), c.svcs[i], visits[k])
  }

  lemma PassedInTurn<Id>(c: Config<Id>, w: World<Id>, i: nat, r: nat, k: nat, visits: seq<Visit<Id>>)
    requires Ready(c, w) && |visits| == VISITS && HasTurn(c, i, r, k)
    ensures Passed(c, w, i, k, visits) <==> !ServesAt(c, w, k, visits)
  {
    TurnsGoRound(c, i, r);
  }

  /** It fails exactly when every provider of the list failed to serve in every one of its turns. */
  lemma FailsExactly<Id>(c: Config<Id>, w: World<Id>, visits: seq<Visit<Id>>)
    requires Ready(c, w) && |visits| == 10 && Thresholds(w, 0)
    ensures PushFrom(c, w, 0, visits).err == PusherError
       <==> forall i: nat, r: nat, k: nat :: HasTurn(c, i, r, k) ==> Passed(c, w, i, k, visits)
  {
    SingleDeliveryFrom(c, w, 0, visits);
    SucceedsFrom(c, w, 0, visits);
    if ServedFrom(c, w, 0, visits) {
      var k :| 0 <= k < |visits| && ServesAt(c, w, k, visits);
      var i, r := EveryVisitIsATurn(c, k);
      PassedInTurn(c, w, i, r, k, visits);
    } else {
      forall i: nat, r: nat, k: nat | HasTurn(c, i, r, k) ensures Passed(c, w, i, k, visits) {
        PassedInTurn(c, w, i, r, k, visits);
      }
    }
  }

  // ---------------------------------------------------------------- what a visit finds

  /** The recovery pings of one provider, as events of its own. */
  function PingsOf<Id(==)>(background: seq<BackgroundPing<Id>>, id: Id): seq<Event> {
    if background == [] then [] else
    var last := background[|background| - 1];
    PingsOf(background[..|background| - 1], id) + if last.id == id then [Event.Ping(last.i, last.ok)] else []
  }

  /** A provider's state after some of its own events. */
  function Resume(b: Breaker, es: seq<Event>): Breaker {
    if es == [] then b else Step(Resume(b, es[..|es| - 1]), es[|es| - 1])
  }

  lemma {:induction false} SettleLast<Id>(pool: map<Id, Breaker>, background: seq<BackgroundPing<Id>>,
                                          p: BackgroundPing<Id>)
    ensures Settle(pool, background + [p]) == SettleOne(Settle(pool, background), p)
    decreases |background|
  {
    if background == [] {
      assert [p][1..] == [] && background + [p] == [p];
    } else {
      SettleLast(SettleOne(pool, background[0]), background[1..], p);
      assert (background + [p])[1..] == background[1..] + [p];
    }
  }

  lemma ResumeLast(b: Breaker, es: seq<Event>, e: Event)
    ensures Resume(b, es + [e]) == Step(Resume(b, es), e)
  {
    assert (es + [e])[..|es|] == es;
  }

  /** Between two visits every provider goes through its own pings in their order, and through nothing else. */
  lemma {:induction false} SettleResumes<Id>(pool: map<Id, Breaker>, background: seq<BackgroundPing<Id>>, id: Id)
    requires id in pool
    ensures Settle(pool, background)[id] == Resume(pool[id], PingsOf(background, id))
    decreases |background|
  {
    if background != [] {
      var front, last := background[..|background| - 1], background[|background| - 1];
      assert background == front + [last];
      SettleLast(pool, front, last);
      SettleResumes(pool, front, id);
      ResumeLast(pool[id], PingsOf(front, id), Event.Ping(last.i, last.ok));
      assert Settle(pool, background) == SettleOne(Settle(pool, front), last);
      if last.id != id { assert PingsOf(background, id) == PingsOf(front, id); }
    }
  }

  /** Late scripts run one after the other, each on the key of its name. */
  lemma {:induction false} LateInOrder<Id>(c: Config<Id>, keys: map<string, Key>, late: seq<LateScript>, x: LateScript,
                                           now: int)
    ensures RunAllLate(c, keys, late + [x], now) == RunLate(c, RunAllLate(c, keys, late, now), x, now)
    decreases |late|
  {
    if late == [] {
      assert [x][1..] == [] && late + [x] == [x];
    } else {
      LateInOrder(c, RunLate(c, keys, late[0], now), late[1..], x, now);
      assert (late + [x])[1..] == late[1..] + [x];
    }
  }

  lemma OneLateScript<Id>(c: Config<Id>, keys: map<string, Key>, x: LateScript, now: int)
    ensures RunLate(c, keys, x, now)
         == keys[x.name := ScriptFor(KeyAt(keys, x.name), c.interval, c.rate, x.asked, now, x.evict).key]
    ensures RunAllLate(c, keys, [], now) == keys
  {
  }

  /** Recovery pings and late scripts are all that happens before a visit. */
  lemma MeanwhileExactly<Id>(c: Config<Id>, w: World<Id>, v: Visit<Id>, id: Id)
    requires id in w.pool
    ensures Meanwhile(c, w, v).pool[id] == Resume(w.pool[id], PingsOf(v.background, id))
    ensures Meanwhile(c, w, v).keys == RunAllLate(c, w.keys, v.late, v.now)
    ensures Meanwhile(c, w, v).attempts == w.attempts
  {
    SettleResumes(w.pool, v.background, id);
  }

  // ---------------------------------------------------------------- what the limiter decides

  lemma LimitedExactly<Id>(c: Config<Id>, w: World<Id>, name: string, v: Visit<Id>, log: set<int>, last: int)
    requires KeyMatches(KeyAt(w.keys, name), log, c.interval, last) && last <= v.now
    ensures Limited(c, w, name, v) <==>
              v.call.Answered? && |Window(log, v.now - c.interval, c.interval)| >= c.rate
  {
    ScriptRecounts(KeyAt(w.keys, name), log, c.interval, c.rate, last, v.now, v.evict);
  }

  lemma AskedKeysExactly<Id>(c: Config<Id>, w: World<Id>, name: string, v: Visit<Id>, log: set<int>, last: int)
    requires KeyMatches(KeyAt(w.keys, name), log, c.interval, last) && last <= v.now
    ensures var keys, room := AskedKeys(c, w, name, v), |Window(log, v.now - c.interval, c.interval)| < c.rate;
            && (v.call.Unrun? ==> keys == w.keys)
            && (!v.call.Unrun? ==>
                  && KeyMatches(KeyAt(keys, name), if room then log + {v.now} else log, c.interval, v.now)
                  && forall other :: other != name ==> KeyAt(keys, other) == KeyAt(w.keys, other))
  {
    ScriptRecounts(KeyAt(w.keys, name), log, c.interval, c.rate, last, v.now, v.evict);
  }

  lemma HandedOver<Id>(c: Config<Id>, w: World<Id>, svc: Id, v: Visit<Id>)
    requires svc in w.pool && svc in c.names && Meanwhile(c, w, v).pool[svc].healthy
    ensures var r, found, name := VisitOne(c, w, svc, v).world, Meanwhile(c, w, v), c.names[svc];
            && r.keys == AskedKeys(c, found, name, v)
            && r.attempts == if Limited(c, found, name, v) then w.attempts
                             else w.attempts + [Attempt(name, v.now, !v.call.Answered?, v.outcome == Delivered)]
  {
  }

  /**
   * A visit to a healthy provider, on a key that matches a log of admissions: the message is handed over
   * exactly when the limiter call failed or the log has room. A call that failed before its script ran
   * leaves the keys alone; any other makes an entry exactly when there was room, answered or not.
   */
  lemma AttemptExactly<Id>(c: Config<Id>, w: World<Id>, svc: Id, v: Visit<Id>, log: set<int>, last: int)
    requires svc in w.pool && svc in c.names && Meanwhile(c, w, v).pool[svc].healthy
    requires KeyMatches(KeyAt(Meanwhile(c, w, v).keys, c.names[svc]), log, c.interval, last) && last <= v.now
    ensures var name, keys, r := c.names[svc], Meanwhile(c, w, v).keys, VisitOne(c, w, svc, v);
            var room := |Window(log, v.now - c.interval, c.interval)| < c.rate;
            && r.world.attempts
               == (if v.call.Unrun? || v.call.AnswerLost? || room
                   then w.attempts + [Attempt(name, v.now, !v.call.Answered?, v.outcome == Delivered)] else w.attempts)
            && (v.call.Unrun? ==> r.world.keys == keys)
            && (!v.call.Unrun? ==>
                  && KeyMatches(KeyAt(r.world.keys, name), if room then log + {v.now} else log, c.interval, v.now)
                  && forall other :: other != name ==> KeyAt(r.world.keys, other) == KeyAt(keys, other))
  {
    HandedOver(c, w, svc, v);
    LimitedExactly(c, Meanwhile(c, w, v), c.names[svc], v, log, last);
    AskedKeysExactly(c, Meanwhile(c, w, v), c.names[svc], v, log, last);
  }

  /** A visit to a provider that is out does nothing at all. */
  lemma UnhealthyIsSkipped<Id>(c: Config<Id>, w: World<Id>, svc: Id, v: Visit<Id>)
    requires svc in w.pool && svc in c.names && !Meanwhile(c, w, v).pool[svc].healthy
    ensures VisitOne(c, w, svc, v) == Reply(Meanwhile(c, w, v), PusherError)
  {
  }

  ghost predicate Matched(key: Key, interval: int, last: int) {
    exists log :: KeyMatches(key, log, interval, last)
  }

  /** Every key matches some log of admissions. */
  ghost predicate Logged<Id>(c: Config<Id>, keys: map<string, Key>, last: int) {
    forall name: string :: Matched(KeyAt(keys, name), c.interval, last)
  }

  /** The name's key matches a log that has room. */
  ghost predicate RoomFor<Id>(c: Config<Id>, keys: map<string, Key>, name: string, now: int) {
    exists log, last ::
      KeyMatches(KeyAt(keys, name), log, c.interval, last) && last <= now
      && |Window(log, now - c.interval, c.interval)| < c.rate
  }

  /** The visit finds its provider healthy and answering, and a window with room or a limiter call that fails. */
  ghost predicate GetsThrough<Id>(c: Config<Id>, w: World<Id>, svc: Id, v: Visit<Id>)
    requires svc in w.pool && svc in c.names
  {
    var found := Meanwhile(c, w, v);
    && found.pool[svc].healthy && v.outcome == Delivered
    && (v.call.Unrun? || v.call.AnswerLost? || RoomFor(c, found.keys, c.names[svc], v.now))
  }

  lemma LaterLog<Id>(c: Config<Id>, keys: map<string, Key>, last: int, later: int)
    requires Logged(c, keys, last) && last <= later
    ensures Logged(c, keys, later)
  {
    forall name: string ensures Matched(KeyAt(keys, name), c.interval, later) {
      assert Matched(KeyAt(keys, name), c.interval, last);
      var log :| KeyMatches(KeyAt(keys, name), log, c.interval, last);
      assert KeyMatches(KeyAt(keys, name), log, c.interval, later);
    }
  }

  lemma ScriptKeepsLogged<Id>(c: Config<Id>, keys: map<string, Key>, last: int, asker: string, asked: int, now: int,
                              evict: bool)
    requires Logged(c, keys, last) && last <= now && asked <= now
    ensures Logged(c, keys[asker := ScriptFor(KeyAt(keys, asker), c.interval, c.rate, asked, now, evict).key], now)
  {
    var a := ScriptFor(KeyAt(keys, asker), c.interval, c.rate, asked, now, evict);
    assert Matched(KeyAt(keys, asker), c.interval, last);
    var log :| KeyMatches(KeyAt(keys, asker), log, c.interval, last);
    LateScriptMatches(KeyAt(keys, asker), log, c.interval, c.rate, last, asked, now, evict);
    LaterLog(c, keys, last, now);
    var keys' := keys[asker := a.key];
    forall name: string ensures Matched(KeyAt(keys', name), c.interval, now) {
      if name == asker {
        assert KeyMatches(a.key, LogAfter(log, asked, a.limited), c.interval, now);
      } else {
        assert KeyAt(keys', name) == KeyAt(keys, name);
      }
    }
  }

  lemma {:induction false} LateKeepsLogged<Id>(c: Config<Id>, keys: map<string, Key>, last: int, late: seq<LateScript>,
                                               now: int)
    requires Logged(c, keys, last) && last <= now && AskedBefore(late, now)
    ensures Logged(c, RunAllLate(c, keys, late, now), now)
    decreases |late|
  {
    if late == [] {
      LaterLog(c, keys, last, now);
    } else {
      ScriptKeepsLogged(c, keys, last, late[0].name, late[0].asked, now, late[0].evict);
      LateKeepsLogged(c, RunLate(c, keys, late[0], now), now, late[1..], now);
    }
  }

  lemma VisitKeepsLogged<Id>(c: Config<Id>, w: World<Id>, svc: Id, v: Visit<Id>, last: int)
    requires svc in w.pool && svc in c.names && Logged(c, w.keys, last) && last <= v.now && AskedBefore(v.late, v.now)
    ensures Logged(c, Meanwhile(c, w, v).keys, v.now)
    ensures Logged(c, VisitOne(c, w, svc, v).world.keys, v.now)
  {
    LateKeepsLogged(c, w.keys, last, v.late, v.now);
    ScriptKeepsLogged(c, Meanwhile(c, w, v).keys, v.now, c.names[svc], v.now, v.now, v.evict);
  }

  lemma GetsThroughExactly<Id>(c: Config<Id>, w: World<Id>, svc: Id, v: Visit<Id>, last: int)
    requires svc in w.pool && svc in c.names && Thresholds(w, 0)
    requires Logged(c, w.keys, last) && last <= v.now && AskedBefore(v.late, v.now)
    ensures Serves(c, w, svc, v) <==> GetsThrough(c, w, svc, v)
  {
    VisitKeepsLogged(c, w, svc, v, last);
    RoomExactly(c, Meanwhile(c, w, v), c.names[svc], v);
  }

  lemma RoomExactly<Id>(c: Config<Id>, w: World<Id>, name: string, v: Visit<Id>)
    requires Logged(c, w.keys, v.now)
    ensures Limited(c, w, name, v) <==> v.call.Answered? && !RoomFor(c, w.keys, name, v.now)
  {
    assert Matched(KeyAt(w.keys, name), c.interval, v.now);
    var log :| KeyMatches(KeyAt(w.keys, name), log, c.interval, v.now);
    LimitedExactly(c, w, name, v, log, v.now);
    if RoomFor(c, w.keys, name, v.now) {
      var other, last :| KeyMatches(KeyAt(w.keys, name), other, c.interval, last) && last <= v.now
                      && |Window(other, v.now - c.interval, c.interval)| < c.rate;
      LimitedExactly(c, w, name, v, other, last);
    }
  }

  lemma {:induction false} WorldAtLogged<Id>(c: Config<Id>, w: World<Id>, k: nat, visits: seq<Visit<Id>>, from: int)
    requires Ready(c, w) && k <= |visits| && Logged(c, w.keys, from) && NoEarlier(visits, 0, from)
    ensures Logged(c, WorldAt(c, w, k, visits).keys, if k == 0 then from else visits[k - 1].now)
  {
    if k > 0 {
      var before, svc, v := WorldAt(c, w, k - 1, visits), Turn(c, k - 1), visits[k - 1];
      var last := if k == 1 then from else visits[k - 2].now;
      assert last <= v.now && AskedBefore(v.late, v.now);
      WorldAtLogged(c, w, k - 1, visits, from);
      VisitKeepsLogged(c, before, svc, v, last);
    }
  }

  ghost predicate GetsThroughAt<Id>(c: Config<Id>, w: World<Id>, k: nat, visits: seq<Visit<Id>>)
    requires Ready(c, w) && k < |visits|
  {
    GetsThrough(c, WorldAt(c, w, k, visits), c.svcs[k % |c.svcs|], visits[k])
  }

  lemma ServesByWindow<Id>(c: Config<Id>, w: World<Id>, k: nat, visits: seq<Visit<Id>>, from: int)
    requires Ready(c, w) && k < |visits| && Thresholds(w, 0) && Logged(c, w.keys, from) && NoEarlier(visits, 0, from)
    ensures ServesAt(c, w, k, visits) <==> GetsThroughAt(c, w, k, visits)
  {
    WorldAtLogged(c, w, k, visits, from);
    GetsThroughExactly(c, WorldAt(c, w, k, visits), Turn(c, k), visits[k], if k == 0 then from else visits[k - 1].now);
  }

  /**
   * A push succeeds exactly when one of its ten visits finds its provider healthy and answering, and its
   * name's window with room or the limiter call failing.
   */
  lemma SucceedsByWindow<Id>(c: Config<Id>, w: World<Id>, visits: seq<Visit<Id>>, from: int)
    requires Ready(c, w) && |visits| == 10 && Thresholds(w, 0)
    requires Logged(c, w.keys, from) && NoEarlier(visits, 0, from)
    ensures PushFrom(c, w, 0, visits).err == Nil <==> exists k :: 0 <= k < 10 && GetsThroughAt(c, w, k, visits)
  {
    SucceedsFrom(c, w, 0, visits);
    forall k: nat | k < 10 ensures ServesAt(c, w, k, visits) <==> GetsThroughAt(c, w, k, visits) {
      ServesByWindow(c, w, k, visits, from);
    }
  }

  /** The provider does not get its message through in its turn. */
  ghost predicate HeldUp<Id>(c: Config<Id>, w: World<Id>, i: nat, k: nat, visits: seq<Visit<Id>>)
    requires Ready(c, w) && i < |c.svcs| && k < |visits|
  {
    !GetsThrough(c, WorldAt(c, w, k, visits), c.svcs[i], visits[k])
  }

  /** It fails exactly when every provider was held up so in every one of its turns. */
  lemma FailsByWindow<Id>(c: Config<Id>, w: World<Id>, visits: seq<Visit<Id>>, from: int)
    requires Ready(c, w) && |visits| == 10 && Thresholds(w, 0)
    requires Logged(c, w.keys, from) && NoEarlier(visits, 0, from)
    ensures PushFrom(c, w, 0, visits).err == PusherError
       <==> forall i: nat, r: nat, k: nat :: HasTurn(c, i, r, k) ==> HeldUp(c, w, i, k, visits)
  {
    FailsExactly(c, w, visits);
    forall i: nat, r: nat, k: nat | HasTurn(c, i, r, k)
      ensures HeldUp(c, w, i, k, visits) <==> Passed(c, w, i, k, visits)
    {
      HeldUpInTurn(c, w, i, r, k, visits, from);
    }
  }

  lemma HeldUpInTurn<Id>(c: Config<Id>, w: World<Id>, i: nat, r: nat, k: nat, visits: seq<Visit<Id>>, from: int)
    requires Ready(c, w) && |visits| == 10 && Thresholds(w, 0) && HasTurn(c, i, r, k)
    requires Logged(c, w.keys, from) && NoEarlier(visits, 0, from)
    ensures HeldUp(c, w, i, k, visits) <==> Passed(c, w, i, k, visits)
  {
    TurnsGoRound(c, i, r);
    WorldAtLogged(c, w, k, visits, from);
    GetsThroughExactly(c, WorldAt(c, w, k, visits), c.svcs[i], visits[k], if k == 0 then from else visits[k - 1].now);
  }

  /** The first push of all to a provider that is in order: one attempt, delivered, and nil. */
  lemma FirstPushDelivers<Id>(c: Config<Id>, w: World<Id>, visits: seq<Visit<Id>>)
    requires Ready(c, w) && |visits| == 10 && c.rate > 0 && w.keys == map[]
    requires w.pool[c.svcs[0]].healthy && w.pool[c.svcs[0]].threshold >= 0
    requires visits[0].background == [] && visits[0].late == [] && visits[0].outcome == Delivered
    ensures var r := PushFrom(c, w, 0, visits);
            && r.err == Nil
            && r.world.attempts
               == w.attempts + [Attempt(c.names[c.svcs[0]], visits[0].now, visits[0].call != Answered, true)]
            && r.world.pool == w.pool[c.svcs[0] := w.pool[c.svcs[0]].(cnt := 0)]
  {
    var svc, v := c.svcs[0], visits[0];
    assert Turn(c, 0) == svc;
    assert KeyMatches(ABSENT, {}, c.interval, v.now);
    assert Window({}, v.now - c.interval, c.interval) == {};
    AttemptExactly(c, w, svc, v, {}, v.now);
    ScriptRecounts(ABSENT, {}, c.interval, c.rate, v.now, v.now, v.evict);
    NextVisit(c, w, 0, visits);
  }

  // ---------------------------------------------------------------- provider budget

  /** The milliseconds at which the limiter let an attempt on `name` through. */
  function Admitted(attempts: seq<Attempt>, name: string): set<int> {
    if attempts == [] then {} else
    var a := attempts[|attempts| - 1];
    Admitted(attempts[..|attempts| - 1], name) + if a.name == name && !a.unchecked then {a.now} else {}
  }

  /** The name's key covers its admitted attempts, and those are within the rate. */
  ghost predicate NameBudgeted(interval: int, rate: int, keys: map<string, Key>, attempts: seq<Attempt>,
                               last: int, name: string) {
    && KeyCovers(KeyAt(keys, name), Admitted(attempts, name), interval, last)
    && Bounded(Admitted(attempts, name), interval, Floor0(rate))
  }

  ghost predicate Budgeted<Id>(c: Config<Id>, w: World<Id>, last: int) {
    forall name: string :: NameBudgeted(c.interval, c.rate, w.keys, w.attempts, last, name)
  }

  lemma OneMoreAttempt(attempts: seq<Attempt>, a: Attempt, name: string)
    ensures Admitted(attempts + [a], name)
         == if a.name == name && !a.unchecked then Admitted(attempts, name) + {a.now} else Admitted(attempts, name)
  {
    assert (attempts + [a])[..|attempts|] == attempts;
  }

  lemma LaterName(interval: int, rate: int, keys: map<string, Key>, attempts: seq<Attempt>,
                  last: int, later: int, name: string)
    requires NameBudgeted(interval, rate, keys, attempts, last, name) && last <= later
    ensures NameBudgeted(interval, rate, keys, attempts, later, name)
  {
  }

  /** A script run for `name`, late or with its answer lost, keeps every name within budget. */
  lemma ScriptKeepsName(interval: int, rate: int, keys: map<string, Key>, attempts: seq<Attempt>, last: int,
                        asker: string, asked: int, now: int, evict: bool, name: string)
    requires NameBudgeted(interval, rate, keys, attempts, last, name) && last <= now && asked <= now
    ensures var a := ScriptFor(KeyAt(keys, asker), interval, rate, asked, now, evict);
            NameBudgeted(interval, rate, keys[asker := a.key], attempts, now, name)
  {
    if name == asker {
      ScriptCovers(KeyAt(keys, name), Admitted(attempts, name), interval, rate, last, asked, now, evict);
    } else {
      LaterName(interval, rate, keys, attempts, last, now, name);
    }
  }

  /** So does an answered call together with the attempt it lets through. */
  lemma AdmissionKeepsName(interval: int, rate: int, keys: map<string, Key>, attempts: seq<Attempt>, last: int,
                           asker: string, now: int, evict: bool, delivered: bool, name: string)
    requires NameBudgeted(interval, rate, keys, attempts, last, name) && last <= now
    requires !Script(KeyAt(keys, asker), interval, rate, now, evict).limited
    ensures var a := Script(KeyAt(keys, asker), interval, rate, now, evict);
            NameBudgeted(interval, rate, keys[asker := a.key], attempts + [Attempt(asker, now, false, delivered)],
                         now, name)
  {
    OneMoreAttempt(attempts, Attempt(asker, now, false, delivered), name);
    if name == asker {
      var log := Admitted(attempts, name);
      ScriptCovers(KeyAt(keys, name), log, interval, rate, last, now, now, evict);
      AdmissionKeepsBound(log, interval, rate, now);
    } else {
      LaterName(interval, rate, keys, attempts, last, now, name);
    }
  }

  predicate AskedBefore(late: seq<LateScript>, now: int) {
    forall i :: 0 <= i < |late| ==> late[i].asked <= now
  }

  lemma {:induction false} LateKeepsName<Id>(c: Config<Id>, keys: map<string, Key>, attempts: seq<Attempt>, last: int,
                                             late: seq<LateScript>, now: int, name: string)
    requires NameBudgeted(c.interval, c.rate, keys, attempts, last, name) && last <= now && AskedBefore(late, now)
    ensures NameBudgeted(c.interval, c.rate, RunAllLate(c, keys, late, now), attempts, now, name)
    decreases |late|
  {
    if late == [] {
      LaterName(c.interval, c.rate, keys, attempts, last, now, name);
    } else {
      ScriptKeepsName(c.interval, c.rate, keys, attempts, last, late[0].name, late[0].asked, now, late[0].evict, name);
      LateKeepsName(c, RunLate(c, keys, late[0], now), attempts, now, late[1..], now, name);
    }
  }

  /** A visit asks the limiter and attempts accordingly, attempts although the call failed, or does neither. */
  lemma VisitShape<Id>(c: Config<Id>, w: World<Id>, svc: Id, v: Visit<Id>)
    requires svc in w.pool && svc in c.names
    ensures var w', found, name := VisitOne(c, w, svc, v).world, Meanwhile(c, w, v), c.names[svc];
            var keys := AskedKeys(c, found, name, v);
            var attempt := Attempt(name, v.now, !v.call.Answered?, v.outcome.Delivered?);
            || (w'.keys == found.keys && w'.attempts == w.attempts)
            || (w'.keys == keys && w'.attempts == w.attempts && !v.call.Unrun?)
            || (w'.keys == keys && w'.attempts == w.attempts + [attempt] && !Limited(c, found, name, v))
  {
  }

  lemma VisitKeepsName<Id>(c: Config<Id>, w: World<Id>, svc: Id, v: Visit<Id>, last: int, name: string)
    requires svc in w.pool && svc in c.names
    requires NameBudgeted(c.interval, c.rate, w.keys, w.attempts, last, name)
    requires last <= v.now && AskedBefore(v.late, v.now)
    ensures var w' := VisitOne(c, w, svc, v).world;
            NameBudgeted(c.interval, c.rate, w'.keys, w'.attempts, v.now, name)
  {
    var found, asker := Meanwhile(c, w, v), c.names[svc];
    VisitShape(c, w, svc, v);
    LateKeepsName(c, w.keys, w.attempts, last, v.late, v.now, name);
    ScriptKeepsName(c.interval, c.rate, found.keys, w.attempts, v.now, asker, v.now, v.now, v.evict, name);
    OneMoreAttempt(w.attempts, Attempt(asker, v.now, true, v.outcome.Delivered?), name);
    if v.call.Answered? && !Limited(c, found, asker, v) {
      AdmissionKeepsName(c.interval, c.rate, found.keys, w.attempts, v.now, asker, v.now, v.evict,
                         v.outcome.Delivered?, name);
    }
  }

  lemma VisitKeepsBudget<Id>(c: Config<Id>, w: World<Id>, svc: Id, v: Visit<Id>, last: int)
    requires svc in w.pool && svc in c.names
    requires Budgeted(c, w, last) && last <= v.now && AskedBefore(v.late, v.now)
    ensures Budgeted(c, VisitOne(c, w, svc, v).world, v.now)
  {
    var w' := VisitOne(c, w, svc, v).world;
    forall name: string
      ensures NameBudgeted(c.interval, c.rate, w'.keys, w'.attempts, v.now, name)
    {
      VisitKeepsName(c, w, svc, v, last, name);
    }
  }

  /** The visits from `k` on happen in time order, none before `from`, and no late script before it was asked for. */
  predicate NoEarlier<Id>(visits: seq<Visit<Id>>, k: nat, from: int) {
    && (forall i :: k <= i < |visits| ==> AskedBefore(visits[i].late, visits[i].now))
    && (forall i :: k <= i < |visits| ==> from <= visits[i].now)
    && (forall i, j :: k <= i < j < |visits| ==> visits[i].now <= visits[j].now)
  }

  lemma {:induction false} PushKeepsBudget<Id>(c: Config<Id>, w: World<Id>, k: nat, visits: seq<Visit<Id>>, last: int)
    requires Ready(c, w) && |visits| == VISITS && k <= VISITS
    requires Budgeted(c, w, last) && NoEarlier(visits, k, last)
    ensures Ready(c, PushFrom(c, w, k, visits).world)
    ensures Budgeted(c, PushFrom(c, w, k, visits).world, if k < VISITS then visits[VISITS - 1].now else last)
    decreases VISITS - k
  {
    if k < VISITS {
      var svc := Turn(c, k);
      VisitKeepsBudget(c, w, svc, visits[k], last);
      var r := VisitOne(c, w, svc, visits[k]);
      if r.err == Nil {
        LaterMatches(c, r.world, visits[k].now, visits[VISITS - 1].now);
      } else {
        PushKeepsBudget(c, r.world, k + 1, visits, visits[k].now);
      }
    }
  }

  lemma LaterMatches<Id>(c: Config<Id>, w: World<Id>, last: int, later: int)
    requires Budgeted(c, w, last) && last <= later
    ensures Budgeted(c, w, later)
  {
    forall name: string ensures NameBudgeted(c.interval, c.rate, w.keys, w.attempts, later, name) {
      LaterName(c.interval, c.rate, w.keys, w.attempts, last, later, name);
    }
  }

  /** A run of pushes, one after the other, each with the inputs of its ten visits. */
  predicate WellTimed<Id>(calls: seq<seq<Visit<Id>>>, from: int) {
    calls == [] ||
    (|calls[0]| == VISITS && NoEarlier(calls[0], 0, from) && WellTimed(calls[1..], calls[0][VISITS - 1].now))
  }

  lemma {:induction false} PushKeepsReady<Id>(c: Config<Id>, w: World<Id>, k: nat, visits: seq<Visit<Id>>)
    requires Ready(c, w) && |visits| == VISITS && k <= VISITS
    ensures Ready(c, PushFrom(c, w, k, visits).world)
    decreases VISITS - k
  {
    if k < VISITS {
      var r := VisitOne(c, w, Turn(c, k), visits[k]);
      if r.err != Nil { PushKeepsReady(c, r.world, k + 1, visits); }
    }
  }

  function PushAll<Id>(c: Config<Id>, w: World<Id>, calls: seq<seq<Visit<Id>>>, from: int): World<Id>
    requires Ready(c, w) && WellTimed(calls, from)
    decreases |calls|
  {
    if calls == [] then w else
    PushKeepsReady(c, w, 0, calls[0]);
    PushAll(c, PushFrom(c, w, 0, calls[0]).world, calls[1..], calls[0][VISITS - 1].now)
  }

  lemma {:induction false} PushKeepsThresholds<Id>(c: Config<Id>, w: World<Id>, k: nat, visits: seq<Visit<Id>>)
    requires Ready(c, w) && |visits| == VISITS && k <= VISITS && Thresholds(w, 0)
    ensures Thresholds(PushFrom(c, w, k, visits).world, 0)
    decreases VISITS - k
  {
    if k < VISITS {
      VisitReports(c, w, Turn(c, k), visits[k]);
      NextVisit(c, w, k, visits);
      var r := VisitOne(c, w, Turn(c, k), visits[k]);
      if r.err != Nil { PushKeepsThresholds(c, r.world, k + 1, visits); }
    }
  }

  /** How many of the calls returned nil. */
  function Successes<Id>(c: Config<Id>, w: World<Id>, calls: seq<seq<Visit<Id>>>, from: int): nat
    requires Ready(c, w) && WellTimed(calls, from)
    decreases |calls|
  {
    if calls == [] then 0 else
    PushKeepsReady(c, w, 0, calls[0]);
    var r := PushFrom(c, w, 0, calls[0]);
    (if r.err == Nil then 1 else 0) + Successes(c, r.world, calls[1..], calls[0][VISITS - 1].now)
  }

  /** Over any run of pushes there are as many deliveries as calls that reported success. */
  lemma {:induction false} DeliveriesAreSuccesses<Id>(c: Config<Id>, w: World<Id>, calls: seq<seq<Visit<Id>>>,
                                                      from: int)
    requires Ready(c, w) && WellTimed(calls, from) && Thresholds(w, 0)
    ensures Deliveries(PushAll(c, w, calls, from).attempts) == Deliveries(w.attempts) + Successes(c, w, calls, from)
    decreases |calls|
  {
    if calls != [] {
      SingleDeliveryFrom(c, w, 0, calls[0]);
      PushKeepsThresholds(c, w, 0, calls[0]);
      PushKeepsReady(c, w, 0, calls[0]);
      DeliveriesAreSuccesses(c, PushFrom(c, w, 0, calls[0]).world, calls[1..], calls[0][VISITS - 1].now);
    }
  }

  function EndOf<Id>(calls: seq<seq<Visit<Id>>>, from: int): int
    requires WellTimed(calls, from)
  {
    if calls == [] then from else EndOf(calls[1..], calls[0][VISITS - 1].now)
  }

  lemma {:induction false} CallsKeepBudget<Id>(c: Config<Id>, w: World<Id>, calls: seq<seq<Visit<Id>>>, from: int)
    requires Ready(c, w) && WellTimed(calls, from) && Budgeted(c, w, from)
    ensures Budgeted(c, PushAll(c, w, calls, from), EndOf(calls, from))
    decreases |calls|
  {
    if calls != [] {
      PushKeepsBudget(c, w, 0, calls[0], from);
      CallsKeepBudget(c, PushFrom(c, w, 0, calls[0]).world, calls[1..], calls[0][VISITS - 1].now);
    }
  }

  /** Every key matches the attempts themselves: no call has failed, and none runs late. */
  ghost predicate Tracked<Id>(c: Config<Id>, w: World<Id>, last: int) {
    forall name: string :: KeyMatches(KeyAt(w.keys, name), Admitted(w.attempts, name), c.interval, last)
  }

  /**
   * While the limiter answers, a healthy provider is handed the message exactly when the attempts on its
   * name are fewer than the rate in the last interval - of the attempts there have been, and no others.
   */
  lemma AnsweredVisitExactly<Id>(c: Config<Id>, w: World<Id>, svc: Id, v: Visit<Id>, last: int)
    requires svc in w.pool && svc in c.names && Meanwhile(c, w, v).pool[svc].healthy
    requires Tracked(c, w, last) && last <= v.now && v.late == [] && v.call == Answered
    ensures var name, w' := c.names[svc], VisitOne(c, w, svc, v).world;
            && w'.attempts
               == (if |Window(Admitted(w.attempts, name), v.now - c.interval, c.interval)| < c.rate
                   then w.attempts + [Attempt(name, v.now, false, v.outcome == Delivered)] else w.attempts)
            && Tracked(c, w', v.now)
  {
    var name, w' := c.names[svc], VisitOne(c, w, svc, v).world;
    AttemptExactly(c, w, svc, v, Admitted(w.attempts, name), last);
    forall other: string ensures KeyMatches(KeyAt(w'.keys, other), Admitted(w'.attempts, other), c.interval, v.now) {
      OneMoreAttempt(w.attempts, Attempt(name, v.now, false, v.outcome == Delivered), other);
      assert KeyMatches(KeyAt(w.keys, other), Admitted(w.attempts, other), c.interval, last);
    }
  }

  lemma SkippedVisitTracked<Id>(c: Config<Id>, w: World<Id>, svc: Id, v: Visit<Id>, last: int)
    requires svc in w.pool && svc in c.names && !Meanwhile(c, w, v).pool[svc].healthy
    requires Tracked(c, w, last) && last <= v.now && v.late == []
    ensures Tracked(c, VisitOne(c, w, svc, v).world, v.now)
  {
    forall name: string ensures KeyMatches(KeyAt(w.keys, name), Admitted(w.attempts, name), c.interval, v.now) {
      assert KeyMatches(KeyAt(w.keys, name), Admitted(w.attempts, name), c.interval, last);
    }
  }

  predicate AllAnswered<Id>(visits: seq<Visit<Id>>) {
    forall i :: 0 <= i < |visits| ==> visits[i].call == Answered && visits[i].late == []
  }

  /** So in every visit of a push, from a run in which the limiter has answered so far. */
  lemma {:induction false} WorldAtTracked<Id>(c: Config<Id>, w: World<Id>, k: nat, visits: seq<Visit<Id>>, from: int)
    requires Ready(c, w) && k <= |visits| && AllAnswered(visits)
    requires Tracked(c, w, from) && NoEarlier(visits, 0, from)
    ensures Tracked(c, WorldAt(c, w, k, visits), if k == 0 then from else visits[k - 1].now)
  {
    if k > 0 {
      var before, svc, v := WorldAt(c, w, k - 1, visits), Turn(c, k - 1), visits[k - 1];
      var last := if k == 1 then from else visits[k - 2].now;
      WorldAtTracked(c, w, k - 1, visits, from);
      if Meanwhile(c, before, v).pool[svc].healthy {
        AnsweredVisitExactly(c, before, svc, v, last);
      } else {
        SkippedVisitTracked(c, before, svc, v, last);
      }
    }
  }

  /** Over any run of pushes, the attempts the limiter lets through to a provider name stay within its rate. */
  lemma ProviderBudget<Id>(c: Config<Id>, pool: map<Id, Breaker>, calls: seq<seq<Visit<Id>>>, from: int,
                           name: string, a: int)
    requires Ready(c, World(pool, map[], [])) && WellTimed(calls, from)
    ensures var end := PushAll(c, World(pool, map[], []), calls, from);
            |Window(Admitted(end.attempts, name), a, c.interval)| <= Floor0(c.rate)
  {
    var w := World(pool, map[], []);
    assert forall b: int :: Window({}, b, c.interval) == {};
    assert Budgeted(c, w, from);
    CallsKeepBudget(c, w, calls, from);
    var end := PushAll(c, w, calls, from);
    assert NameBudgeted(c.interval, c.rate, end.keys, end.attempts, EndOf(calls, from), name);
  }

  /** With a limiter that never fails those are all attempts. */
  lemma {:induction false} AllAttemptsChecked(attempts: seq<Attempt>, i: nat)
    requires forall j :: 0 <= j < |attempts| ==> !attempts[j].unchecked
    requires i < |attempts|
    ensures attempts[i].now in Admitted(attempts, attempts[i].name)
  {
    if i < |attempts| - 1 {
      assert attempts[..|attempts| - 1][i] == attempts[i];
      AllAttemptsChecked(attempts[..|attempts| - 1], i);
    }
  }
}
