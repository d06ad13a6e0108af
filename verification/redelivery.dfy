/**
 * What a push over several providers makes of the errors that concurrent pushes report: every
 * delivery that is misreported is a delivery too many.
 */
module Redelivery {
  import opened Failover
  import opened RateLimitPush

  /** What a visit comes to: the provider is skipped or limited, or its push returns. */
  datatype Try = Skipped | Pushed(result: Pusher)

  predicate Returned(tries: seq<Try>) {
    forall i :: 0 <= i < |tries| && tries[i].Pushed? ==> tries[i].result.Returned?
  }

  predicate Ends(t: Try)
    requires t.Pushed? ==> t.result.Returned?
  {
    t.Pushed? && t.result.err == Nil
  }

  /** The error of the push: nil with the first try that reports nil. */
  function CallError(tries: seq<Try>): PushError
    requires Returned(tries)
  {
    if tries == [] then PusherError else if Ends(tries[0]) then Nil else CallError(tries[1..])
  }

  /** How many of the tries that are made have this property of their result. */
  function MadeWith(tries: seq<Try>, property: Pusher -> bool): nat
    requires Returned(tries)
  {
    if tries == [] then 0 else
    (if tries[0].Pushed? && property(tries[0].result) then 1 else 0)
      + if Ends(tries[0]) then 0 else MadeWith(tries[1..], property)
  }

  predicate HasDelivered(p: Pusher) { p.Returned? && p.outcome.Delivered? }

  function DeliveriesIn(tries: seq<Try>): nat
    requires Returned(tries)
  {
    MadeWith(tries, HasDelivered)
  }

  /** A push reports what became of it, or that the provider is out. */
  predicate ReportsOrOut(p: Pusher) {
    p.Returned? ==> p.err == ErrorOf(p.outcome) || p.err == PusherError
  }

  lemma {:induction false} RunReportsOrOut(s: Shared, acts: seq<Action>, p: nat)
    requires Legal(s, acts) && forall i :: 0 <= i < |s.pushers| ==> ReportsOrOut(s.pushers[i])
    ensures p < |Exec(s, acts).pushers| ==> ReportsOrOut(Exec(s, acts).pushers[p])
    decreases |acts|
  {
    if acts != [] {
      RunReportsOrOut(Do(s, acts[0]), acts[1..], p);
    }
  }

  /** The result of some push on a provider with this threshold, with so many pushes, so many of them at once. */
  ghost predicate PossibleResult(p: Pusher, threshold: nat, pushes: nat, width: nat) {
    p.Returned? && exists s, i ::
      Reachable(threshold, width, s) && |s.pushers| <= pushes && 0 <= i < |s.pushers| && s.pushers[i] == p
  }

  ghost predicate PossibleCall(tries: seq<Try>, threshold: nat, pushes: nat, width: nat) {
    |tries| == VISITS
    && forall i :: 0 <= i < |tries| && tries[i].Pushed? ==> PossibleResult(tries[i].result, threshold, pushes, width)
  }

  lemma PossibleReports(p: Pusher, threshold: nat, pushes: nat, width: nat)
    requires PossibleResult(p, threshold, pushes, width)
    ensures ReportsOrOut(p)
  {
    var s, i :| Reachable(threshold, width, s) && |s.pushers| <= pushes && 0 <= i < |s.pushers| && s.pushers[i] == p;
    var acts :| Legal(Fresh(threshold), acts) && AtOnce(Fresh(threshold), acts, width)
             && Exec(Fresh(threshold), acts) == s;
    RunReportsOrOut(Fresh(threshold), acts, i);
  }

  /** There are as many deliveries as the call reports, and one more for every misreported one. */
  lemma {:induction false} DeliveriesReported(tries: seq<Try>)
    requires Returned(tries) && forall i :: 0 <= i < |tries| && tries[i].Pushed? ==> ReportsOrOut(tries[i].result)
    ensures DeliveriesIn(tries) == MadeWith(tries, Misreported) + if CallError(tries) == Nil then 1 else 0
  {
    if tries != [] && !Ends(tries[0]) {
      DeliveriesReported(tries[1..]);
    }
  }

  lemma PossibleCallReports(tries: seq<Try>, threshold: nat, pushes: nat, width: nat)
    requires PossibleCall(tries, threshold, pushes, width)
    ensures Returned(tries)
    ensures DeliveriesIn(tries) == MadeWith(tries, Misreported) + if CallError(tries) == Nil then 1 else 0
  {
    forall i | 0 <= i < |tries| && tries[i].Pushed? ensures ReportsOrOut(tries[i].result) {
      PossibleReports(tries[i].result, threshold, pushes, width);
    }
    DeliveriesReported(tries);
  }

  lemma {:induction false} NoneMisreported(tries: seq<Try>)
    requires Returned(tries) && forall i :: 0 <= i < |tries| && tries[i].Pushed? ==> !Misreported(tries[i].result)
    ensures MadeWith(tries, Misreported) == 0
  {
    if tries != [] { NoneMisreported(tries[1..]); }
  }

  /** One delivery if a call reports nil, and none if it reports an error. */
  ghost predicate OneDelivery(threshold: nat, pushes: nat, width: nat) {
    forall tries :: PossibleCall(tries, threshold, pushes, width) ==>
      Returned(tries) && DeliveriesIn(tries) == if CallError(tries) == Nil then 1 else 0
  }

  lemma DeliveredAlone(threshold: nat, width: nat)
    requires width >= 2
    ensures PossibleResult(Pusher.Returned(Nil, Delivered), threshold, 1, width)
  {
    var s := DeliveredCounted(threshold);
    s := Next(threshold, s, Check(0));
    Wider(threshold, s, width);
    assert s.pushers[0] == Pusher.Returned(Nil, Delivered);
  }

  lemma Wider(threshold: nat, s: Shared, width: nat)
    requires Reachable(threshold, 2, s) && width >= 2
    ensures Reachable(threshold, width, s)
  {
    var f := Fresh(threshold);
    var acts :| Legal(f, acts) && AtOnce(f, acts, 2) && Exec(f, acts) == s;
    WidthGrows(f, acts, 2, width);
  }

  /** One provider's delivery is misreported under concurrency, so another one delivers the message again. */
  lemma DeliveredAgain(threshold: nat, pushes: nat, width: nat) returns (tries: seq<Try>)
    requires width >= 2 && pushes >= threshold + 2
    ensures PossibleCall(tries, threshold, pushes, width) && Returned(tries)
    ensures CallError(tries) == Nil && DeliveriesIn(tries) == 2
  {
    var s := DeliveredYetReportedFailed(threshold);
    Wider(threshold, s, width);
    DeliveredAlone(threshold, width);
    var misreported, delivered := Pusher.Returned(PusherError, Delivered), Pusher.Returned(Nil, Delivered);
    assert s.pushers[0] == misreported;
    assert PossibleResult(misreported, threshold, pushes, width);
    var alone, i :| Reachable(threshold, width, alone) && |alone.pushers| <= 1
                 && 0 <= i < |alone.pushers| && alone.pushers[i] == delivered;
    assert PossibleResult(delivered, threshold, pushes, width);
    tries := [Pushed(misreported), Pushed(delivered)] + seq(VISITS - 2, _ => Skipped);
    assert tries[1..][0] == Pushed(delivered);
    assert MadeWith(tries[1..], HasDelivered) == 1 && CallError(tries[1..]) == Nil;
  }

  /**
   * Over concurrent providers a call delivers once if it reports nil and not at all otherwise, exactly
   * when pushes on a provider do not overlap, or are too few for threshold + 1 failing ones beside it.
   */
  lemma OneDeliveryExactly(threshold: nat, pushes: nat, width: nat)
    ensures OneDelivery(threshold, pushes, width) <==> width <= 1 || pushes <= threshold + 1
  {
    TruthfulExactly(threshold, pushes, width);
    if width <= 1 || pushes <= threshold + 1 {
      forall tries | PossibleCall(tries, threshold, pushes, width)
        ensures Returned(tries) && DeliveriesIn(tries) == if CallError(tries) == Nil then 1 else 0
      {
        PossibleCallReports(tries, threshold, pushes, width);
        NoneMisreported(tries);
      }
    } else {
      var tries := DeliveredAgain(threshold, pushes, width);
    }
  }

  // ---------------------------------------------------------------- one caller at a time

  /** What a visit with nobody else about comes to. */
  function TryOf<Id>(c: Config<Id>, w: World<Id>, svc: Id, v: Visit<Id>): Try
    requires svc in w.pool && svc in c.names
  {
    var found := Meanwhile(c, w, v);
    if !found.pool[svc].healthy || Limited(c, found, c.names[svc], v) then Skipped
    else Pushed(Pusher.Returned(ReportedError(found.pool[svc], v.outcome), v.outcome))
  }

  /** The tries of the visits from k on, were each of them made. */
  function TriesFrom<Id>(c: Config<Id>, w: World<Id>, k: nat, visits: seq<Visit<Id>>): (tries: seq<Try>)
    requires Ready(c, w) && |visits| == VISITS && k <= VISITS
    ensures Returned(tries) && |tries| == VISITS - k
    decreases VISITS - k
  {
    if k == VISITS then [] else
    [TryOf(c, w, Turn(c, k), visits[k])]
      + TriesFrom(c, VisitOne(c, w, Turn(c, k), visits[k]).world, k + 1, visits)
  }

  lemma VisitIsTry<Id>(c: Config<Id>, w: World<Id>, svc: Id, v: Visit<Id>)
    requires svc in w.pool && svc in c.names
    ensures var t, r := TryOf(c, w, svc, v), VisitOne(c, w, svc, v);
            && (t.Pushed? ==> t.result.Returned?)
            && (Ends(t) <==> r.err == Nil)
            && RateLimitPush.Deliveries(r.world.attempts)
               == RateLimitPush.Deliveries(w.attempts) + if t.Pushed? && HasDelivered(t.result) then 1 else 0
  {
    var r := VisitOne(c, w, svc, v).world;
    if r.attempts != w.attempts {
      assert r.attempts[..|r.attempts| - 1] == w.attempts;
    }
  }

  lemma TriesStep(t: Try, rest: seq<Try>, property: Pusher -> bool)
    requires Returned([t] + rest)
    ensures Returned(rest) && (t.Pushed? ==> t.result.Returned?)
    ensures CallError([t] + rest) == if Ends(t) then Nil else CallError(rest)
    ensures MadeWith([t] + rest, property)
         == (if t.Pushed? && property(t.result) then 1 else 0) + if Ends(t) then 0 else MadeWith(rest, property)
  {
    assert ([t] + rest)[0] == t && ([t] + rest)[1..] == rest;
    forall i | 0 <= i < |rest| && rest[i].Pushed? ensures rest[i].result.Returned? {
      assert ([t] + rest)[i + 1] == rest[i];
    }
  }

  /** A push that starts in this world comes to what the tries come to: the same error, and the same deliveries. */
  ghost predicate SameCall<Id>(w: World<Id>, r: Reply<Id>, tries: seq<Try>)
    requires Returned(tries)
  {
    && r.err == CallError(tries)
    && RateLimitPush.Deliveries(r.world.attempts) == RateLimitPush.Deliveries(w.attempts) + DeliveriesIn(tries)
  }

  lemma SameCallStep<Id>(w: World<Id>, next: World<Id>, t: Try, r: Reply<Id>, rest: seq<Try>)
    requires Returned([t] + rest) && Returned(rest) && SameCall(next, r, rest)
    requires RateLimitPush.Deliveries(next.attempts)
          == RateLimitPush.Deliveries(w.attempts) + if t.Pushed? && HasDelivered(t.result) then 1 else 0
    ensures t.Pushed? ==> t.result.Returned?
    ensures SameCall(w, if Ends(t) then Reply(next, Nil) else r, [t] + rest)
  {
    TriesStep(t, rest, HasDelivered);
  }

  /** A push with nobody else about is such a call. */
  lemma {:induction false} PushIsCall<Id>(c: Config<Id>, w: World<Id>, k: nat, visits: seq<Visit<Id>>)
    requires Ready(c, w) && |visits| == VISITS && k <= VISITS
    ensures SameCall(w, PushFrom(c, w, k, visits), TriesFrom(c, w, k, visits))
    decreases VISITS - k
  {
    if k < VISITS {
      var svc, v := Turn(c, k), visits[k];
      var next := VisitOne(c, w, svc, v).world;
      VisitIsTry(c, w, svc, v);
      NextVisit(c, w, k, visits);
      PushIsCall(c, next, k + 1, visits);
      SameCallStep(w, next, TryOf(c, w, svc, v), PushFrom(c, next, k + 1, visits), TriesFrom(c, next, k + 1, visits));
    }
  }
}
