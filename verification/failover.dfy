/**
 * The circuit breaker around one push provider.
 *
 * First the object as its single caller sees it, with its recovery goroutines as the
 * elements of `recoveries`; then runs of that object; then every interleaving of
 * concurrent pushes and recovery goroutines.
 */
module Failover {
  datatype Outcome = Delivered | DeadlineExceeded | Failed

  datatype PushError = Nil | Deadline | PusherError | Other

  /** One recovery goroutine: its run of answered pings, and whether it has returned. */
  datatype Recovery = Recovery(streak: nat, done: bool)

  datatype Breaker = Breaker(healthy: bool, cnt: int, threshold: int, recoveries: seq<Recovery>)

  const PINGS := 10

  function ErrorOf(outcome: Outcome): PushError {
    match outcome
    case Delivered => Nil
    case DeadlineExceeded => Deadline
    case Failed => Other
  }

  function AfterPush(b: Breaker, outcome: Outcome): Breaker {
    var cnt := if outcome.Delivered? then 0 else b.cnt + 1;
    if cnt > b.threshold then
      b.(cnt := cnt, healthy := false, recoveries := b.recoveries + [Recovery(0, false)])
    else b.(cnt := cnt)
  }

  function ReportedError(b: Breaker, outcome: Outcome): PushError {
    if AfterPush(b, outcome).cnt > b.threshold then PusherError else ErrorOf(outcome)
  }

  predicate Pinging(b: Breaker, i: nat) {
    i < |b.recoveries| && !b.recoveries[i].done
  }

  function AfterPing(b: Breaker, i: nat, ok: bool): Breaker
    requires Pinging(b, i)
  {
    var streak := if ok then b.recoveries[i].streak + 1 else 0;
    if streak >= PINGS then b.(healthy := true, recoveries := b.recoveries[i := Recovery(streak, true)])
    else b.(recoveries := b.recoveries[i := Recovery(streak, false)])
  }

  class FailoverPusher {
    const Name: string
    const threshold: int
    var Healthy: bool
    var cnt: int
    var recoveries: seq<Recovery>

    constructor (name: string, threshold: int)
      ensures Name == name && View() == Breaker(true, 0, threshold, [])
    {
      this.Name, this.threshold, Healthy, cnt, recoveries := name, threshold, true, 0, [];
    }

    function View(): Breaker
      reads this
    {
      Breaker(Healthy, cnt, threshold, recoveries)
    }

    method Push(outcome: Outcome) returns (err: PushError)
      modifies this
      ensures View() == AfterPush(old(View()), outcome)
      ensures err == ReportedError(old(View()), outcome)
    {
      match outcome {
        case Delivered => err := Nil; cnt := 0;
        case DeadlineExceeded => err := Deadline; cnt := cnt + 1;
        case Failed => err := Other; cnt := cnt + 1;
      }
      if cnt > threshold {
        err := PusherError;
        MarkNotAvailable();
      }
    }

    method MarkNotAvailable()
      modifies this
      ensures View() == old(View()).(healthy := false, recoveries := old(recoveries) + [Recovery(0, false)])
    {
      Healthy := false;
      recoveries := recoveries + [Recovery(0, false)];
    }

    /** One round of recovery goroutine `i`: it has slept, pinged, and looks at the answer. */
    method Ping(i: nat, ok: bool)
      requires Pinging(View(), i)
      modifies this
      ensures View() == AfterPing(old(View()), i, ok)
    {
      var streak := recoveries[i].streak;
      if ok {
        streak := streak + 1;
      } else {
        streak := 0;
      }
      recoveries := recoveries[i := Recovery(streak, false)];
      if streak >= PINGS {
        Healthy := true;
        recoveries := recoveries[i := Recovery(streak, true)];
      }
    }
  }

  // ---------------------------------------------------------------- runs with one caller

  datatype Event = Push(outcome: Outcome) | Ping(i: nat, ok: bool)

  function Step(b: Breaker, e: Event): Breaker {
    match e
    case Push(outcome) => AfterPush(b, outcome)
    case Ping(i, ok) => if Pinging(b, i) then AfterPing(b, i, ok) else b
  }

  function Replay(threshold: int, es: seq<Event>): Breaker {
    if es == [] then Breaker(true, 0, threshold, [])
    else Step(Replay(threshold, es[..|es| - 1]), es[|es| - 1])
  }

  /** Pings come only from recovery goroutines that are running. */
  predicate WellFormed(threshold: int, es: seq<Event>) {
    es == [] ||
    (WellFormed(threshold, es[..|es| - 1]) &&
     (es[|es| - 1].Ping? ==> Pinging(Replay(threshold, es[..|es| - 1]), es[|es| - 1].i)))
  }

  /** How many pushes have failed in a row, looking only at the pushes. */
  function TrailingFailures(es: seq<Event>): nat {
    if es == [] then 0 else
    match es[|es| - 1]
    case Ping(_, _) => TrailingFailures(es[..|es| - 1])
    case Push(outcome) => if outcome.Delivered? then 0 else TrailingFailures(es[..|es| - 1]) + 1
  }

  /** How many pings goroutine `i` has had answered in a row, looking only at its pings. */
  function TrailingPings(es: seq<Event>, i: nat): nat {
    if es == [] then 0 else
    match es[|es| - 1]
    case Push(_) => TrailingPings(es[..|es| - 1], i)
    case Ping(j, ok) =>
      if j != i then TrailingPings(es[..|es| - 1], i)
      else if ok then TrailingPings(es[..|es| - 1], i) + 1 else 0
  }

  /** The last event is a recovery goroutine's tenth answered ping in a row. */
  predicate Readmits(es: seq<Event>) {
    es != [] && es[|es| - 1].Ping? && es[|es| - 1].ok && TrailingPings(es, es[|es| - 1].i) == PINGS
  }

  /** Some readmission happened after the last push. */
  predicate ReadmittedSincePush(es: seq<Event>) {
    es != [] && es[|es| - 1].Ping? && (Readmits(es) || ReadmittedSincePush(es[..|es| - 1]))
  }

  lemma {:induction false} CntIsTrailingFailures(threshold: int, es: seq<Event>)
    ensures Replay(threshold, es).cnt == TrailingFailures(es)
    ensures Replay(threshold, es).threshold == threshold
  {
    if es != [] { CntIsTrailingFailures(threshold, es[..|es| - 1]); }
  }

  lemma {:induction false} StreakIsTrailingPings(threshold: int, es: seq<Event>, i: nat)
    requires WellFormed(threshold, es)
    ensures var b := Replay(threshold, es);
            if i < |b.recoveries|
            then b.recoveries[i] == Recovery(TrailingPings(es, i), TrailingPings(es, i) == PINGS)
            else TrailingPings(es, i) == 0
    ensures TrailingPings(es, i) <= PINGS
  {
    if es != [] { StreakIsTrailingPings(threshold, es[..|es| - 1], i); }
  }

  /** The provider is taken out exactly by a failed push that makes the failing run exceed the threshold. */
  lemma EjectionExactly(threshold: nat, es: seq<Event>, e: Event)
    requires Replay(threshold, es).healthy
    ensures !Replay(threshold, es + [e]).healthy <==>
              e.Push? && !e.outcome.Delivered? && TrailingFailures(es + [e]) > threshold
  {
    assert (es + [e])[..|es|] == es;
    CntIsTrailingFailures(threshold, es);
  }

  /** What a push reports after any history: its own error, unless it makes the failing run exceed the threshold. */
  lemma ReportExactly(threshold: nat, es: seq<Event>, outcome: Outcome)
    ensures ReportedError(Replay(threshold, es), outcome)
         == match outcome
            case Delivered => Nil
            case DeadlineExceeded => if TrailingFailures(es) + 1 > threshold then PusherError else Deadline
            case Failed => if TrailingFailures(es) + 1 > threshold then PusherError else Other
  {
    CntIsTrailingFailures(threshold, es);
  }

  /** Each failed push above the threshold starts one recovery goroutine; nothing else does, and none is forgotten. */
  lemma RecoveriesExactly(threshold: nat, es: seq<Event>, e: Event)
    ensures |Replay(threshold, es + [e]).recoveries|
         == |Replay(threshold, es).recoveries|
            + if e.Push? && !e.outcome.Delivered? && TrailingFailures(es + [e]) > threshold then 1 else 0
  {
    assert (es + [e])[..|es|] == es;
    CntIsTrailingFailures(threshold, es);
  }

  /** The provider comes back exactly on the tenth answered ping in a row of one recovery goroutine. */
  lemma ReadmissionExactly(threshold: nat, es: seq<Event>, e: Event)
    requires WellFormed(threshold, es + [e]) && !Replay(threshold, es).healthy
    ensures Replay(threshold, es + [e]).healthy <==> e.Ping? && e.ok && TrailingPings(es + [e], e.i) == 10
    ensures Replay(threshold, es + [e]).healthy <==> Readmits(es + [e])
  {
    assert (es + [e])[..|es|] == es;
    if e.Ping? { StreakIsTrailingPings(threshold, es, e.i); }
  }

  /** Healthy with a count above the threshold: exactly between a readmission and the next push. */
  lemma {:induction false} HalfOpenExactly(threshold: nat, es: seq<Event>)
    requires WellFormed(threshold, es)
    ensures var b := Replay(threshold, es);
            b.healthy && b.cnt > threshold <==> TrailingFailures(es) > threshold && ReadmittedSincePush(es)
  {
    CntIsTrailingFailures(threshold, es);
    if es != [] {
      var front, e := es[..|es| - 1], es[|es| - 1];
      HalfOpenExactly(threshold, front);
      CntIsTrailingFailures(threshold, front);
      if e.Ping? { StreakIsTrailingPings(threshold, front, e.i); }
    }
  }

  // ---------------------------------------------------------------- all interleavings

  /** Where a concurrent push stands between its atomic steps. */
  datatype Pusher =
    | Sending
    | Counting(outcome: Outcome)
    | Checking(outcome: Outcome)
    | Marking(outcome: Outcome)
    | Spawning(outcome: Outcome)
    | Returned(err: PushError, outcome: Outcome)

  /** Where a recovery goroutine stands. */
  datatype Recoverer = Sleeping(streak: nat) | Restoring | Gone

  datatype Shared = Shared(healthy: bool, cnt: int, threshold: int, pushers: seq<Pusher>, recoverers: seq<Recoverer>)

  datatype Action =
    | Begin
    | Answer(p: nat, outcome: Outcome)
    | Count(p: nat)
    | Check(p: nat)
    | Mark(p: nat)
    | Spawn(p: nat)
    | PingAnswer(r: nat, ok: bool)
    | Restore(r: nat)

  predicate Enabled(s: Shared, a: Action) {
    match a
    case Begin => true
    case Answer(p, _) => p < |s.pushers| && s.pushers[p].Sending?
    case Count(p) => p < |s.pushers| && s.pushers[p].Counting?
    case Check(p) => p < |s.pushers| && s.pushers[p].Checking?
    case Mark(p) => p < |s.pushers| && s.pushers[p].Marking?
    case Spawn(p) => p < |s.pushers| && s.pushers[p].Spawning?
    case PingAnswer(r, _) => r < |s.recoverers| && s.recoverers[r].Sleeping?
    case Restore(r) => r < |s.recoverers| && s.recoverers[r].Restoring?
  }

  function Do(s: Shared, a: Action): Shared
    requires Enabled(s, a)
  {
    match a
    case Begin => s.(pushers := s.pushers + [Sending])
    case Answer(p, outcome) => s.(pushers := s.pushers[p := Counting(outcome)])
    case Count(p) =>
      var outcome := s.pushers[p].outcome;
      s.(cnt := if outcome.Delivered? then 0 else s.cnt + 1, pushers := s.pushers[p := Checking(outcome)])
    case Check(p) =>
      var outcome := s.pushers[p].outcome;
      s.(pushers := s.pushers[p := if s.cnt > s.threshold then Marking(outcome)
                                   else Returned(ErrorOf(outcome), outcome)])
    case Mark(p) => s.(healthy := false, pushers := s.pushers[p := Spawning(s.pushers[p].outcome)])
    case Spawn(p) => s.(recoverers := s.recoverers + [Sleeping(0)],
                        pushers := s.pushers[p := Returned(PusherError, s.pushers[p].outcome)])
    case PingAnswer(r, ok) =>
      var streak := if ok then s.recoverers[r].streak + 1 else 0;
      s.(recoverers := s.recoverers[r := if streak >= PINGS then Restoring else Sleeping(streak)])
    case Restore(r) => s.(healthy := true, recoverers := s.recoverers[r := Gone])
  }

  predicate Legal(s: Shared, acts: seq<Action>)
    decreases |acts|
  {
    acts == [] || (Enabled(s, acts[0]) && Legal(Do(s, acts[0]), acts[1..]))
  }

  function Exec(s: Shared, acts: seq<Action>): Shared
    requires Legal(s, acts)
    decreases |acts|
  {
    if acts == [] then s else Exec(Do(s, acts[0]), acts[1..])
  }

  function Fresh(threshold: int): Shared { Shared(true, 0, threshold, [], []) }

  /** An unhealthy provider has someone left who will bring it back, or who is about to create that someone. */
  ghost predicate NotLost(s: Shared) {
    && (forall r :: 0 <= r < |s.recoverers| && s.recoverers[r].Sleeping? ==> s.recoverers[r].streak < PINGS)
    && (s.healthy
        || (exists r :: 0 <= r < |s.recoverers| && !s.recoverers[r].Gone?)
        || (exists p :: 0 <= p < |s.pushers| && s.pushers[p].Spawning?))
  }

  lemma StepKeepsProvider(s: Shared, a: Action)
    requires NotLost(s) && Enabled(s, a)
    ensures NotLost(Do(s, a))
  {
    var s' := Do(s, a);
    if !s'.healthy {
      if a.Mark? {
        assert s'.pushers[a.p].Spawning?;
      } else if a.Spawn? {
        assert !s'.recoverers[|s.recoverers|].Gone?;
      } else if r :| 0 <= r < |s.recoverers| && !s.recoverers[r].Gone? {
        assert !s'.recoverers[r].Gone?;
      } else {
        var p :| 0 <= p < |s.pushers| && s.pushers[p].Spawning?;
        assert s'.pushers[p].Spawning?;
      }
    }
  }

  lemma {:induction false} ProviderNeverLost(s: Shared, acts: seq<Action>)
    requires NotLost(s) && Legal(s, acts)
    ensures NotLost(Exec(s, acts))
    decreases |acts|
  {
    if acts != [] {
      StepKeepsProvider(s, acts[0]);
      ProviderNeverLost(Do(s, acts[0]), acts[1..]);
    }
  }

  lemma {:induction false} PingUntilRestored(s: Shared, r: nat) returns (acts: seq<Action>)
    requires r < |s.recoverers| && s.recoverers[r].Sleeping? && s.recoverers[r].streak < PINGS
    ensures Legal(s, acts) && Exec(s, acts).healthy
    ensures forall a :: a in acts ==> a == PingAnswer(r, true) || a == Restore(r)
    decreases PINGS - s.recoverers[r].streak
  {
    var s' := Do(s, PingAnswer(r, true));
    if s'.recoverers[r].Restoring? {
      acts := [PingAnswer(r, true), Restore(r)];
      assert acts[1..][1..] == [];
      assert Exec(s', [Restore(r)]) == Do(s', Restore(r)) by { assert [Restore(r)][1..] == []; }
    } else {
      var rest := PingUntilRestored(s', r);
      acts := [PingAnswer(r, true)] + rest;
      assert acts[1..] == rest;
    }
  }

  /** From every reachable state, answered pings alone make the provider healthy: no push and no repair is needed. */
  lemma RecoveryAlwaysPossible(threshold: int, past: seq<Action>) returns (acts: seq<Action>)
    requires Legal(Fresh(threshold), past)
    ensures var s := Exec(Fresh(threshold), past);
            Legal(s, acts) && Exec(s, acts).healthy
    ensures forall a :: a in acts ==> a.Spawn? || (a.PingAnswer? && a.ok) || a.Restore?
  {
    ProviderNeverLost(Fresh(threshold), past);
    var s := Exec(Fresh(threshold), past);
    if s.healthy {
      acts := [];
    } else if r :| 0 <= r < |s.recoverers| && !s.recoverers[r].Gone? {
      if s.recoverers[r].Restoring? {
        acts := [Restore(r)];
        assert acts[1..] == [];
      } else {
        acts := PingUntilRestored(s, r);
      }
    } else {
      var p :| 0 <= p < |s.pushers| && s.pushers[p].Spawning?;
      var rest := PingUntilRestored(Do(s, Spawn(p)), |s.recoverers|);
      acts := [Spawn(p)] + rest;
      assert acts[1..] == rest;
    }
  }

  // ---------------------------------------------------------------- the two views agree

  function Forget(r: Recoverer): Recovery {
    match r
    case Sleeping(streak) => Recovery(streak, false)
    case Restoring => Recovery(PINGS, true)
    case Gone => Recovery(PINGS, true)
  }

  ghost predicate Represents(b: Breaker, s: Shared) {
    && b.healthy == s.healthy && b.cnt == s.cnt && b.threshold == s.threshold
    && |b.recoveries| == |s.recoverers|
    && forall r :: 0 <= r < |s.recoverers| ==> b.recoveries[r] == Forget(s.recoverers[r])
  }

  lemma {:induction false} ExecAppend(s: Shared, a: seq<Action>, b: seq<Action>)
    requires Legal(s, a) && Legal(Exec(s, a), b)
    ensures Legal(s, a + b) && Exec(s, a + b) == Exec(Exec(s, a), b)
    decreases |a|
  {
    if a == [] {
      assert a + b == b;
    } else {
      ExecAppend(Do(s, a[0]), a[1..], b);
      assert (a + b)[1..] == a[1..] + b;
    }
  }

  lemma Then(s: Shared, acts: seq<Action>, a: Action) returns (longer: seq<Action>)
    requires Legal(s, acts) && Enabled(Exec(s, acts), a)
    ensures longer == acts + [a]
    ensures Legal(s, longer) && Exec(s, longer) == Do(Exec(s, acts), a)
  {
    longer := acts + [a];
    assert [a][1..] == [];
    ExecAppend(s, acts, [a]);
  }

  /**
   * A push whose steps nobody interrupts does to the shared state what the object's Push does, and
   * reports the same error.
   */
  lemma UninterruptedPush(b: Breaker, s: Shared, outcome: Outcome) returns (acts: seq<Action>)
    requires Represents(b, s)
    ensures Legal(s, acts)
    ensures Represents(AfterPush(b, outcome), Exec(s, acts))
    ensures Exec(s, acts).pushers == s.pushers + [Returned(ReportedError(b, outcome), outcome)]
  {
    var p := |s.pushers|;
    acts := Then(s, [], Begin);
    acts := Then(s, acts, Answer(p, outcome));
    acts := Then(s, acts, Count(p));
    acts := Then(s, acts, Check(p));
    if Exec(s, acts).pushers[p].Marking? {
      acts := Then(s, acts, Mark(p));
      acts := Then(s, acts, Spawn(p));
    }
  }

  /** A round of a recovery goroutine, with the restoration that follows ten answered pings, is the object's Ping. */
  lemma UninterruptedPing(b: Breaker, s: Shared, r: nat, ok: bool) returns (acts: seq<Action>)
    requires Represents(b, s) && r < |s.recoverers| && s.recoverers[r].Sleeping? && NotLost(s)
    ensures Pinging(b, r) && Legal(s, acts)
    ensures Represents(AfterPing(b, r, ok), Exec(s, acts))
    ensures Exec(s, acts).pushers == s.pushers && |Exec(s, acts).recoverers| == |s.recoverers|
    ensures Exec(s, acts).recoverers[r]
         == if !ok then Sleeping(0)
            else if s.recoverers[r].streak == 9 then Gone else Sleeping(s.recoverers[r].streak + 1)
  {
    acts := Then(s, [], PingAnswer(r, ok));
    if Exec(s, acts).recoverers[r].Restoring? {
      acts := Then(s, acts, Restore(r));
    }
  }

  // ---------------------------------------------------------------- when a delivered push is reported so

  function Tally(ps: seq<Pusher>, f: Pusher -> bool): nat {
    if ps == [] then 0
    else Tally(ps[..|ps| - 1], f) + if f(ps[|ps| - 1]) then 1 else 0
  }

  predicate InFlight(p: Pusher) { !p.Returned? }

  predicate CountedFailure(p: Pusher) { !p.Sending? && !p.Counting? && !p.outcome.Delivered? }

  lemma {:induction false} TallyUpdate(ps: seq<Pusher>, p: nat, x: Pusher, f: Pusher -> bool)
    requires p < |ps|
    ensures Tally(ps[p := x], f) + (if f(ps[p]) then 1 else 0) == Tally(ps, f) + if f(x) then 1 else 0
  {
    var front := ps[..|ps| - 1];
    if p < |front| {
      TallyUpdate(front, p, x, f);
      assert ps[p := x][..|ps| - 1] == front[p := x];
    } else {
      assert ps[p := x][..|ps| - 1] == front;
    }
  }

  lemma {:induction false} TallyBound(ps: seq<Pusher>, p: nat, f: Pusher -> bool)
    requires p < |ps|
    ensures if f(ps[p]) then Tally(ps, f) > 0 else Tally(ps, f) < |ps|
  {
    TallyUpdate(ps, p, ps[p], f);
    if p < |ps| - 1 {
      TallyBound(ps[..|ps| - 1], p, f);
    } else {
      TallyAtMostAll(ps[..|ps| - 1], f);
    }
  }

  lemma {:induction false} TallyAtMostAll(ps: seq<Pusher>, f: Pusher -> bool)
    ensures Tally(ps, f) <= |ps|
  {
    if ps != [] { TallyAtMostAll(ps[..|ps| - 1], f); }
  }

  lemma {:induction false} TallyTwo(ps: seq<Pusher>, p: nat, q: nat, f: Pusher -> bool)
    requires p < q < |ps| && f(ps[p]) && f(ps[q])
    ensures Tally(ps, f) >= 2
  {
    if q == |ps| - 1 {
      TallyBound(ps[..|ps| - 1], p, f);
    } else {
      TallyTwo(ps[..|ps| - 1], p, q, f);
    }
  }

  /** A step's effect on the number of pushes in flight. */
  lemma FlightStep(s: Shared, a: Action)
    requires Enabled(s, a)
    ensures Tally(Do(s, a).pushers, InFlight) <= Tally(s.pushers, InFlight) + if a.Begin? then 1 else 0
  {
    var s' := Do(s, a);
    if a.Begin? {
      assert s'.pushers[..|s.pushers|] == s.pushers;
    } else if !a.PingAnswer? && !a.Restore? {
      TallyUpdate(s.pushers, a.p, s'.pushers[a.p], InFlight);
    }
  }

  /** At most `width` pushes are in flight, now and after every action. */
  predicate AtOnce(s: Shared, acts: seq<Action>, width: nat)
    requires Legal(s, acts)
    decreases |acts|
  {
    Tally(s.pushers, InFlight) <= width && (acts == [] || AtOnce(Do(s, acts[0]), acts[1..], width))
  }

  /** The state of some run from a fresh provider with at most `width` pushes at once. */
  ghost predicate Reachable(threshold: nat, width: nat, s: Shared) {
    exists acts ::
      Legal(Fresh(threshold), acts) && AtOnce(Fresh(threshold), acts, width) && Exec(Fresh(threshold), acts) == s
  }

  predicate Misreported(p: Pusher) { p == Returned(PusherError, Delivered) }

  /** A delivered push that the check has sent, or is bound to send, to an error. */
  predicate Blamed(p: Pusher) {
    (p.Marking? || p.Spawning? || (p.Returned? && p.err.PusherError?)) && p.outcome.Delivered?
  }

  ghost predicate FailuresExplain(s: Shared) {
    && s.cnt <= Tally(s.pushers, CountedFailure)
    && forall p :: 0 <= p < |s.pushers| && Blamed(s.pushers[p]) ==> Tally(s.pushers, CountedFailure) > s.threshold
  }

  lemma FailuresExplainStep(s: Shared, a: Action)
    requires FailuresExplain(s) && Enabled(s, a)
    ensures FailuresExplain(Do(s, a))
  {
    var s' := Do(s, a);
    if a.Begin? {
      assert s'.pushers[..|s.pushers|] == s.pushers;
    } else if !a.PingAnswer? && !a.Restore? {
      TallyUpdate(s.pushers, a.p, s'.pushers[a.p], CountedFailure);
    }
    forall p | 0 <= p < |s'.pushers| && Blamed(s'.pushers[p])
      ensures Tally(s'.pushers, CountedFailure) > s'.threshold
    {
      assert p < |s.pushers|;
    }
  }

  /** With one push at a time a delivered one is checked against the count it has just cleared. */
  ghost predicate ClearedWhenChecked(s: Shared) {
    forall p :: 0 <= p < |s.pushers| ==>
      !Blamed(s.pushers[p]) && (s.pushers[p] == Checking(Delivered) ==> s.cnt == 0)
  }

  lemma ClearedStep(s: Shared, a: Action)
    requires ClearedWhenChecked(s) && Enabled(s, a) && s.threshold >= 0
    requires Tally(s.pushers, InFlight) <= 1
    ensures ClearedWhenChecked(Do(s, a))
  {
    var s' := Do(s, a);
    forall p | 0 <= p < |s'.pushers|
      ensures !Blamed(s'.pushers[p]) && (s'.pushers[p] == Checking(Delivered) ==> s'.cnt == 0)
    {
      if a.Count? && p != a.p && s.pushers[p].Checking? {
        if p < a.p { TallyTwo(s.pushers, p, a.p, InFlight); } else { TallyTwo(s.pushers, a.p, p, InFlight); }
      }
    }
  }

  lemma {:induction false} RunExplains(s: Shared, acts: seq<Action>, width: nat)
    requires Legal(s, acts) && AtOnce(s, acts, width) && s.threshold >= 0
    requires FailuresExplain(s) && (width <= 1 ==> ClearedWhenChecked(s))
    ensures var s' := Exec(s, acts);
            s'.threshold == s.threshold && FailuresExplain(s') && (width <= 1 ==> ClearedWhenChecked(s'))
    decreases |acts|
  {
    if acts != [] {
      FailuresExplainStep(s, acts[0]);
      if width <= 1 { ClearedStep(s, acts[0]); }
      RunExplains(Do(s, acts[0]), acts[1..], width);
    }
  }

  lemma {:induction false} AtOnceThen(s: Shared, acts: seq<Action>, a: Action, width: nat)
    requires Legal(s, acts) && AtOnce(s, acts, width) && Enabled(Exec(s, acts), a)
    requires Tally(Do(Exec(s, acts), a).pushers, InFlight) <= width
    ensures Legal(s, acts + [a]) && AtOnce(s, acts + [a], width)
    ensures Exec(s, acts + [a]) == Do(Exec(s, acts), a)
    decreases |acts|
  {
    if acts == [] {
      assert [a][1..] == [] && [] + [a] == [a];
    } else {
      AtOnceThen(Do(s, acts[0]), acts[1..], a, width);
      assert (acts + [a])[1..] == acts[1..] + [a];
    }
  }

  lemma Next(threshold: nat, s: Shared, a: Action) returns (s': Shared)
    requires Reachable(threshold, 2, s) && Enabled(s, a)
    requires a.Begin? ==> Tally(s.pushers, InFlight) <= 1
    ensures s' == Do(s, a) && Reachable(threshold, 2, s')
    ensures Tally(s'.pushers, InFlight) <= Tally(s.pushers, InFlight) + if a.Begin? then 1 else 0
  {
    var f := Fresh(threshold);
    var acts :| Legal(f, acts) && AtOnce(f, acts, 2) && Exec(f, acts) == s;
    ReachableWidth(f, acts, 2);
    FlightStep(s, a);
    AtOnceThen(f, acts, a, 2);
    s' := Do(s, a);
  }

  lemma {:induction false} ReachableWidth(s: Shared, acts: seq<Action>, width: nat)
    requires Legal(s, acts) && AtOnce(s, acts, width)
    ensures Tally(Exec(s, acts).pushers, InFlight) <= width
    decreases |acts|
  {
    if acts != [] { ReachableWidth(Do(s, acts[0]), acts[1..], width); }
  }

  lemma DeliveredCounted(threshold: nat) returns (s: Shared)
    ensures Reachable(threshold, 2, s) && Tally(s.pushers, InFlight) <= 1
    ensures s == Fresh(threshold).(pushers := [Checking(Delivered)])
  {
    s := Fresh(threshold);
    assert Legal(s, []) && AtOnce(s, [], 2) && Exec(s, []) == s;
    s := Next(threshold, s, Begin);
    s := Next(threshold, s, Answer(0, Delivered));
    s := Next(threshold, s, Count(0));
  }

  /** A delivered push waits for its check while n failing pushes come and go. */
  lemma {:induction false} FailuresComeAndGo(threshold: nat, n: nat) returns (s: Shared)
    requires n <= threshold
    ensures Reachable(threshold, 2, s) && Tally(s.pushers, InFlight) <= 1
    ensures s.cnt == n && s.threshold == threshold && |s.pushers| == n + 1 && s.pushers[0] == Checking(Delivered)
  {
    if n == 0 {
      s := DeliveredCounted(threshold);
    } else {
      s := FailuresComeAndGo(threshold, n - 1);
      s := OneFailureCounted(threshold, s);
      TallyUpdate(s.pushers, n, Returned(Other, Failed), InFlight);
      s := Next(threshold, s, Check(n));
    }
  }

  lemma OneFailureCounted(threshold: nat, s: Shared) returns (s': Shared)
    requires Reachable(threshold, 2, s) && Tally(s.pushers, InFlight) <= 1
    ensures Reachable(threshold, 2, s') && Tally(s'.pushers, InFlight) <= 2
    ensures s' == s.(cnt := s.cnt + 1, pushers := s.pushers + [Checking(Failed)])
  {
    var n := |s.pushers|;
    s' := Next(threshold, s, Begin);
    s' := Next(threshold, s', Answer(n, Failed));
    s' := Next(threshold, s', Count(n));
    assert s'.pushers == s.pushers + [Checking(Failed)];
  }

  /** One delivered push, and threshold + 1 failing ones that are counted between its count and its check. */
  lemma DeliveredYetReportedFailed(threshold: nat) returns (s: Shared)
    ensures Reachable(threshold, 2, s) && |s.pushers| == threshold + 2 && Misreported(s.pushers[0])
  {
    s := FailuresComeAndGo(threshold, threshold);
    s := OneFailureCounted(threshold, s);
    s := Next(threshold, s, Check(0));
    s := Next(threshold, s, Mark(0));
    s := Next(threshold, s, Spawn(0));
  }

  /** No run with so many pushes, so many of them at once, reports a delivered push as a provider error. */
  ghost predicate Truthful(threshold: nat, pushes: nat, width: nat) {
    forall s, p :: Reachable(threshold, width, s) && |s.pushers| <= pushes && 0 <= p < |s.pushers| ==>
      !Misreported(s.pushers[p])
  }

  lemma {:induction false} WidthGrows(s: Shared, acts: seq<Action>, width: nat, wider: nat)
    requires Legal(s, acts) && AtOnce(s, acts, width) && width <= wider
    ensures AtOnce(s, acts, wider)
    decreases |acts|
  {
    if acts != [] { WidthGrows(Do(s, acts[0]), acts[1..], width, wider); }
  }

  /**
   * Delivered pushes are reported as delivered exactly when pushes do not overlap, or are too few to
   * make up one delivered push and threshold + 1 failing ones.
   */
  lemma TruthfulExactly(threshold: nat, pushes: nat, width: nat)
    ensures Truthful(threshold, pushes, width) <==> width <= 1 || pushes <= threshold + 1
  {
    var f := Fresh(threshold);
    if width <= 1 || pushes <= threshold + 1 {
      forall s, p | Reachable(threshold, width, s) && |s.pushers| <= pushes && 0 <= p < |s.pushers|
        ensures !Misreported(s.pushers[p])
      {
        var acts :| Legal(f, acts) && AtOnce(f, acts, width) && Exec(f, acts) == s;
        RunExplains(f, acts, width);
        TallyBound(s.pushers, p, CountedFailure);
      }
    } else {
      var s := DeliveredYetReportedFailed(threshold);
      var acts :| Legal(f, acts) && AtOnce(f, acts, 2) && Exec(f, acts) == s;
      WidthGrows(f, acts, 2, width);
      assert Reachable(threshold, width, s) && Misreported(s.pushers[0]);
    }
  }
}
