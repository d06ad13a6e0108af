/**
 * When two pods claim the same type: each pod goes by the last update that a receiver took
 * from its hash, so what decides is the two views at those updates.
 */
module Claims {
  import opened Common
  import opened ConsistentHashing
  import opened Production

  // ---------------------------------------------------------------- two views

  /** Whatever the layout of the ring and the types, the two pods never both claim a type. */
  ghost predicate NeverBothClaim(p: string, viewP: set<string>, q: string, viewQ: set<string>) {
    forall lay, ringP, ringQ, types, t ::
      ValidLayout(lay) && RingFor(lay, ringP, viewP) && RingFor(lay, ringQ, viewQ) ==>
        !(t in Responsible(lay, ringP, types, p) && t in Responsible(lay, ringQ, types, q))
  }

  /** A pod with this view may claim something at all: an empty ring gives every key to the empty name. */
  predicate Claimant(pod: string, view: set<string>) { pod in view || (view == {} && pod == "") }

  function Code(name: string): nat {
    if name == [] then 0 else Code(name[..|name| - 1]) * 0x11_0000 + name[|name| - 1] as int + 1
  }

  lemma {:induction false} CodeInjective(a: string, b: string)
    requires Code(a) == Code(b)
    ensures a == b
  {
    if a != [] && b != [] {
      var x, y := a[|a| - 1] as int, b[|b| - 1] as int;
      assert 0 <= x < 0x11_0000 && 0 <= y < 0x11_0000;
      CodeInjective(a[..|a| - 1], b[..|b| - 1]);
      assert a == a[..|a| - 1] + [a[|a| - 1]] && b == b[..|b| - 1] + [b[|b| - 1]];
    }
  }

  /** Clockwise from every key: `first`, `second`, and then all the others. */
  function Podium(first: string, second: string): Layout {
    Layout(n => {if n == first then 1 else if n == second then 2 else 3 + Code(n)}, _ => 0)
  }

  lemma PodiumValid(first: string, second: string)
    ensures ValidLayout(Podium(first, second))
  {
    forall n: string, m: string | n != m
      ensures Podium(first, second).points(n) !! Podium(first, second).points(m)
    {
      if Code(n) == Code(m) { CodeInjective(n, m); }
    }
  }

  lemma PodiumOrder(first: string, second: string, ahead: string, n: string)
    requires first != second
    requires ahead == first || (ahead == second && n != first)
    ensures var lay := Podium(first, second);
            NoLater(0, First(lay.points(ahead), 0), First(lay.points(n), 0))
  {
    var lay := Podium(first, second);
    var a, b := First(lay.points(ahead), 0), First(lay.points(n), 0);
    assert a in lay.points(ahead) && b in lay.points(n);
  }

  lemma EmptyRing(lay: Layout, ring: Ring)
    requires RingFor(lay, ring, {})
    ensures ring == map[]
  {
    assert forall p :: p in ring ==> ring[p] in {};
    assert ring.Keys == {};
  }

  /** On that layout a pod that sees itself, but not the one before it, claims every key. */
  lemma PodiumClaims(first: string, second: string, ring: Ring, view: set<string>, pod: string, t: string)
    requires first != second && RingFor(Podium(first, second), ring, view) && Claimant(pod, view)
    requires pod == first || (pod == second && first !in view)
    ensures t in Responsible(Podium(first, second), ring, [t], pod)
  {
    var lay := Podium(first, second);
    PodiumValid(first, second);
    if pod in view {
      forall m | m in view ensures NoLater(0, First(lay.points(pod), 0), First(lay.points(m), 0)) {
        PodiumOrder(first, second, pod, m);
      }
      OwnerExactly(lay, ring, view, t, pod);
    } else {
      EmptyRing(lay, ring);
    }
    ResponsibleExactly(lay, ring, [t], pod, t);
  }

  lemma {:induction false} Listing(view: set<string>) returns (names: seq<string>)
    ensures Names(names) == view
    decreases |view|
  {
    if view == {} {
      names := [];
    } else {
      var n := Member(view);
      var rest := Listing(view - {n});
      names := rest + [n];
      assert Names(names) == Names(rest) + {n};
    }
  }

  lemma RingExists(lay: Layout, view: set<string>) returns (ring: Ring)
    requires ValidLayout(lay)
    ensures RingFor(lay, ring, view)
  {
    var names := Listing(view);
    ring := NewRing(lay, names);
    NewRingFor(lay, names);
  }

  lemma ClaimantOnly(lay: Layout, ring: Ring, view: set<string>, types: seq<string>, pod: string, t: string)
    requires ValidLayout(lay) && RingFor(lay, ring, view) && t in Responsible(lay, ring, types, pod)
    ensures Claimant(pod, view)
  {
    ResponsibleExactly(lay, ring, types, pod, t);
    if view != {} {
      OwnerExactly(lay, ring, view, t, pod);
    } else {
      EmptyRing(lay, ring);
    }
  }

  /** As far as the two may claim anything at all, each is in the other's view. */
  predicate Separated(p: string, viewP: set<string>, q: string, viewQ: set<string>) {
    Claimant(p, viewP) && Claimant(q, viewQ) ==> q in viewP && p in viewQ
  }

  lemma SeparatedNeverClaim(lay: Layout, ringP: Ring, ringQ: Ring, types: seq<string>, t: string,
                            p: string, viewP: set<string>, q: string, viewQ: set<string>)
    requires ValidLayout(lay) && RingFor(lay, ringP, viewP) && RingFor(lay, ringQ, viewQ)
    requires p != q && Separated(p, viewP, q, viewQ)
    ensures !(t in Responsible(lay, ringP, types, p) && t in Responsible(lay, ringQ, types, q))
  {
    if t in Responsible(lay, ringP, types, p) && t in Responsible(lay, ringQ, types, q) {
      ClaimantOnly(lay, ringP, viewP, types, p, t);
      ClaimantOnly(lay, ringQ, viewQ, types, q, t);
      assert p in viewP && q in viewQ;
      NoDoubleClaim(lay, ringP, viewP, ringQ, viewQ, p, q, types, t);
    }
  }

  /** The layout on which two pods that are not separated claim every type together. */
  function Clash(p: string, viewP: set<string>, q: string): Layout {
    if q in viewP then Podium(p, q) else Podium(q, p)
  }

  lemma ClashClaims(ringP: Ring, ringQ: Ring, t: string, p: string, viewP: set<string>, q: string, viewQ: set<string>)
    requires p != q && !Separated(p, viewP, q, viewQ)
    requires RingFor(Clash(p, viewP, q), ringP, viewP) && RingFor(Clash(p, viewP, q), ringQ, viewQ)
    ensures t in Responsible(Clash(p, viewP, q), ringP, [t], p) && t in Responsible(Clash(p, viewP, q), ringQ, [t], q)
  {
    if q in viewP {
      PodiumClaims(p, q, ringP, viewP, p, t);
      PodiumClaims(p, q, ringQ, viewQ, q, t);
    } else {
      PodiumClaims(q, p, ringP, viewP, p, t);
      PodiumClaims(q, p, ringQ, viewQ, q, t);
    }
  }

  /** The two views decide: no type is ever claimed twice exactly when each pod is in the other's view. */
  lemma NoDoubleClaimExactly(p: string, viewP: set<string>, q: string, viewQ: set<string>)
    requires p != q
    ensures NeverBothClaim(p, viewP, q, viewQ) <==>
              (Claimant(p, viewP) && Claimant(q, viewQ) ==> q in viewP && p in viewQ)
  {
    if Separated(p, viewP, q, viewQ) {
      forall lay, ringP, ringQ, types, t | ValidLayout(lay) && RingFor(lay, ringP, viewP) && RingFor(lay, ringQ, viewQ)
        ensures !(t in Responsible(lay, ringP, types, p) && t in Responsible(lay, ringQ, types, q))
      {
        SeparatedNeverClaim(lay, ringP, ringQ, types, t, p, viewP, q, viewQ);
      }
    } else {
      var lay := Clash(p, viewP, q);
      PodiumValid(p, q);
      PodiumValid(q, p);
      var ringP := RingExists(lay, viewP);
      var ringQ := RingExists(lay, viewQ);
      ClashClaims(ringP, ringQ, "", p, viewP, q, viewQ);
    }
  }

  // ---------------------------------------------------------------- a claimant for every type

  /** Every pod has a ring of its own, for its own view. */
  ghost predicate RingsFor(lay: Layout, rings: map<string, Ring>, views: map<string, set<string>>) {
    rings.Keys == views.Keys && forall p :: p in views ==> RingFor(lay, rings[p], views[p])
  }

  ghost predicate Claimed(lay: Layout, rings: map<string, Ring>, types: seq<string>, t: string) {
    exists p :: p in rings && t in Responsible(lay, rings[p], types, p)
  }

  /** Whatever the layout of the ring and the types, some pod claims every type. */
  ghost predicate AlwaysClaimed(views: map<string, set<string>>) {
    forall lay, rings, types, t :: ValidLayout(lay) && RingsFor(lay, rings, views) && t in types ==>
      Claimed(lay, rings, types, t)
  }

  /** Some pods that each see themselves, and see nobody else but one another. */
  ghost predicate SelfContained(group: set<string>, views: map<string, set<string>>) {
    && group != {} && group <= views.Keys
    && forall p :: p in group ==> Claimant(p, views[p]) && views[p] <= group
  }

  /** The pod of the group that is first for the key claims it. */
  lemma GroupClaims(lay: Layout, rings: map<string, Ring>, views: map<string, set<string>>, group: set<string>,
                    types: seq<string>, t: string)
    requires ValidLayout(lay) && RingsFor(lay, rings, views) && SelfContained(group, views) && t in types
    ensures Claimed(lay, rings, types, t)
  {
    var shared := RingExists(lay, group);
    var m := GetNode(lay, shared, t);
    OwnerExactly(lay, shared, group, t, m);
    if views[m] == {} {
      EmptyRing(lay, rings[m]);
    } else {
      OwnerExactly(lay, rings[m], views[m], t, m);
    }
    ResponsibleExactly(lay, rings[m], types, m, t);
  }

  /** The pod cannot claim anything, or sees somebody who is not among the others. */
  ghost predicate Blockable(p: string, views: map<string, set<string>>, others: set<string>)
    requires p in views
  {
    !Claimant(p, views[p]) || exists x :: x in views[p] && x !in others
  }

  /** Every pod of the order can be kept from claiming by the names that are not after it. */
  ghost predicate BlockingOrder(order: seq<string>, views: map<string, set<string>>) {
    && Distinct(order) && Names(order) <= views.Keys
    && forall i :: 0 <= i < |order| ==> order[i] in views && Blockable(order[i], views, Names(order[i..]))
  }

  lemma {:induction false} BlockingOrderExists(views: map<string, set<string>>, pods: set<string>)
    returns (order: seq<string>)
    requires pods <= views.Keys && forall group :: !SelfContained(group, views)
    ensures BlockingOrder(order, views) && Names(order) == pods
    decreases |pods|
  {
    if pods == {} {
      order := [];
    } else {
      assert !SelfContained(pods, views);
      var p :| p in pods && (!Claimant(p, views[p]) || !(views[p] <= pods));
      var rest := BlockingOrderExists(views, pods - {p});
      order := [p] + rest;
      assert Names(order) == {p} + Names(rest);
      forall i | 0 <= i < |order| ensures order[i] in views && Blockable(order[i], views, Names(order[i..])) {
        if i == 0 {
          assert order[0..] == order;
        } else {
          assert order[i..] == rest[i - 1..] && Blockable(rest[i - 1], views, Names(rest[i - 1..]));
        }
      }
      forall k | 0 <= k < |rest| ensures rest[k] != p { assert rest[k] in Names(rest); }
    }
  }

  function Place(order: seq<string>, n: string): int {
    if order == [] then 0 else if order[0] == n then 0 else 1 + Place(order[1..], n)
  }

  lemma {:induction false} PlaceOf(order: seq<string>, i: nat)
    requires Distinct(order) && i < |order|
    ensures Place(order, order[i]) == i
  {
    if i > 0 {
      assert order[0] != order[i] && order[1..][i - 1] == order[i];
      PlaceOf(order[1..], i - 1);
    }
  }

  /** Clockwise from every key: all other names, and then those of the order. */
  function Procession(order: seq<string>): Layout {
    Layout(n => {if n in order then Place(order, n) - |order| else 1 + Code(n)}, _ => 0)
  }

  lemma ProcessionValid(order: seq<string>)
    requires Distinct(order)
    ensures ValidLayout(Procession(order))
  {
    var lay := Procession(order);
    forall n: string, m: string | n != m ensures lay.points(n) !! lay.points(m) {
      if n in order {
        var i :| 0 <= i < |order| && order[i] == n;
        PlaceOf(order, i);
      }
      if m in order {
        var j :| 0 <= j < |order| && order[j] == m;
        PlaceOf(order, j);
      }
      if Code(n) == Code(m) { CodeInjective(n, m); }
    }
  }

  /** On that layout a pod of the order that sees somebody not after itself claims nothing. */
  lemma ProcessionBlocks(order: seq<string>, views: map<string, set<string>>, i: nat, ring: Ring, t: string)
    requires BlockingOrder(order, views) && i < |order| && order[i] in views
    requires RingFor(Procession(order), ring, views[order[i]])
    ensures t !in Responsible(Procession(order), ring, [t], order[i])
  {
    var lay, p := Procession(order), order[i];
    ProcessionValid(order);
    if t in Responsible(lay, ring, [t], p) {
      ClaimantOnly(lay, ring, views[p], [t], p, t);
      assert Blockable(p, views, Names(order[i..]));
      var x :| x in views[p] && x !in Names(order[i..]);
      ResponsibleExactly(lay, ring, [t], p, t);
      OwnerPrecedes(lay, ring, views[p], t, p, x);
      ProcessionOrder(order, i, x);
      assert false;
    }
  }

  lemma ProcessionOrder(order: seq<string>, i: nat, x: string)
    requires Distinct(order) && i < |order| && x !in Names(order[i..])
    ensures var lay := Procession(order);
            !NoLater(0, First(lay.points(order[i]), 0), First(lay.points(x), 0))
  {
    var lay := Procession(order);
    PlaceOf(order, i);
    var a, b := First(lay.points(order[i]), 0), First(lay.points(x), 0);
    assert a in lay.points(order[i]) && b in lay.points(x);
    forall k | i <= k < |order| ensures order[k] in Names(order[i..]) {
      assert order[i..][k - i] == order[k];
    }
    if x in order {
      var j :| 0 <= j < |order| && order[j] == x;
      PlaceOf(order, j);
    }
  }

  lemma {:induction false} RingsExist(lay: Layout, views: map<string, set<string>>) returns (rings: map<string, Ring>)
    requires ValidLayout(lay)
    ensures RingsFor(lay, rings, views)
    decreases |views|
  {
    if views == map[] {
      rings := map[];
    } else {
      var p := Member(views.Keys);
      var ring := RingExists(lay, views[p]);
      var rest := RingsExist(lay, views - {p});
      rings := rest[p := ring];
    }
  }

  /**
   * On every layout every type has a claimant exactly when some pods each see themselves and, of all
   * names, see none outside their group: one name too many in a view is enough to leave types unclaimed.
   */
  lemma AlwaysClaimedExactly(views: map<string, set<string>>)
    ensures AlwaysClaimed(views) <==> exists group :: SelfContained(group, views)
  {
    if group :| SelfContained(group, views) {
      forall lay, rings, types, t | ValidLayout(lay) && RingsFor(lay, rings, views) && t in types
        ensures Claimed(lay, rings, types, t)
      {
        GroupClaims(lay, rings, views, group, types, t);
      }
    } else {
      var order := BlockingOrderExists(views, views.Keys);
      var lay := Procession(order);
      ProcessionValid(order);
      var rings := RingsExist(lay, views);
      forall p | p in rings ensures "" !in Responsible(lay, rings[p], [""], p) {
        assert p in Names(order);
        var i :| 0 <= i < |order| && order[i] == p;
        ProcessionBlocks(order, views, i, rings[p], "");
      }
      assert !Claimed(lay, rings, [""], "");
    }
  }

  /** A name that is no pod's, in the view of every pod: on some layout its types have no claimant. */
  lemma StrangerLeavesUnclaimed(views: map<string, set<string>>, x: string)
    requires x !in views && forall p :: p in views ==> x in views[p]
    ensures !AlwaysClaimed(views)
  {
    AlwaysClaimedExactly(views);
    forall group | group != {} && group <= views.Keys ensures !SelfContained(group, views) {
      var p := Member(group);
      assert x in views[p] && x !in group;
    }
  }

  function SeeThemselves(views: map<string, set<string>>): set<string> {
    set p | p in views && p in views[p]
  }

  /** No two pods ever claim the same type. */
  ghost predicate NoneTwice(views: map<string, set<string>>) {
    forall p, q :: p in views && q in views && p != q ==> NeverBothClaim(p, views[p], q, views[q])
  }

  predicate AllSeparated(views: map<string, set<string>>) {
    forall p, q :: p in views && q in views && p != q ==> Separated(p, views[p], q, views[q])
  }

  lemma PairwiseSeparated(views: map<string, set<string>>)
    ensures NoneTwice(views) <==> AllSeparated(views)
  {
    forall p, q | p in views && q in views && p != q
      ensures NeverBothClaim(p, views[p], q, views[q]) <==> Separated(p, views[p], q, views[q])
    {
      NoDoubleClaimExactly(p, views[p], q, views[q]);
    }
  }

  /** The pods that see themselves are some, and each of them has just those pods in its view. */
  predicate OneCommonView(views: map<string, set<string>>) {
    SeeThemselves(views) != {} && forall p :: p in SeeThemselves(views) ==> views[p] == SeeThemselves(views)
  }

  /**
   * No type is ever without a claimant or with two exactly when the pods that see themselves have one
   * common view, and it is they.
   */
  lemma OneClaimantExactly(views: map<string, set<string>>)
    requires "" !in views
    ensures AlwaysClaimed(views) && NoneTwice(views) <==> OneCommonView(views)
  {
    AlwaysClaimedExactly(views);
    PairwiseSeparated(views);
    if OneCommonView(views) {
      CommonViewSuffices(views);
    }
    if AllSeparated(views) {
      if group :| SelfContained(group, views) {
        OneGroup(views, group);
      }
    }
  }

  lemma CommonViewSuffices(views: map<string, set<string>>)
    requires "" !in views && OneCommonView(views)
    ensures SelfContained(SeeThemselves(views), views) && AllSeparated(views)
  {
    var seers := SeeThemselves(views);
    forall p | p in seers ensures Claimant(p, views[p]) && views[p] <= seers {
      assert views[p] == seers;
    }
    forall p, q | p in views && q in views && p != q ensures Separated(p, views[p], q, views[q]) {
      if Claimant(p, views[p]) && Claimant(q, views[q]) {
        assert p in seers && q in seers;
      }
    }
  }

  lemma OneGroup(views: map<string, set<string>>, group: set<string>)
    requires "" !in views && SelfContained(group, views) && AllSeparated(views)
    ensures OneCommonView(views)
  {
    var c := Member(group);
    forall p | p in SeeThemselves(views) ensures p in group {
      if p != c { assert Separated(p, views[p], c, views[c]); }
    }
    forall p | p in group ensures p in SeeThemselves(views) {
      assert Claimant(p, views[p]);
    }
    forall p | p in group ensures views[p] == group {
      forall q | q in group ensures q in views[p] {
        if p != q { assert Separated(p, views[p], q, views[q]); }
      }
    }
    assert SeeThemselves(views) == group;
  }

  // ---------------------------------------------------------------- updates that nobody receives

  /** One change of a pod's hash, and whether somebody is receiving when its types are offered. */
  datatype Step = Step(change: Change, receiving: bool)

  function Changes(steps: seq<Step>): seq<Change> {
    seq(|steps|, i requires 0 <= i < |steps| => steps[i].change)
  }

  /** What the producer goes by: the types of the ring at the last update it received. */
  function ClaimedAfter(lay: Layout, ring: Ring, types: seq<string>, pod: string, steps: seq<Step>): seq<string> {
    if steps == [] then Responsible(lay, ring, types, pod)
    else if steps[|steps| - 1].receiving then Responsible(lay, RingAfter(lay, ring, Changes(steps)), types, pod)
    else ClaimedAfter(lay, ring, types, pod, steps[..|steps| - 1])
  }

  /** The view at the last update received. */
  function ReceivedView(view: set<string>, steps: seq<Step>): set<string> {
    if steps == [] then view
    else if steps[|steps| - 1].receiving then NodesAfter(view, Changes(steps))
    else ReceivedView(view, steps[..|steps| - 1])
  }

  /** Where the hash and the producer stand after some steps. */
  ghost predicate Followed(lay: Layout, ring0: Ring, nodes0: set<string>, types: seq<string>, pod: string,
                           steps: seq<Step>, ring: Ring, nodes: set<string>, claimed: seq<string>) {
    && nodes == NodesAfter(nodes0, Changes(steps))
    && ring == RingAfter(lay, ring0, Changes(steps))
    && claimed == ClaimedAfter(lay, ring0, types, pod, steps)
  }

  lemma FollowedStep(lay: Layout, ring0: Ring, nodes0: set<string>, types: seq<string>, pod: string, steps: seq<Step>,
                     ring: Ring, nodes: set<string>, claimed: seq<string>, step: Step, ring': Ring)
    requires ValidLayout(lay) && RingFor(lay, ring0, nodes0)
    requires Followed(lay, ring0, nodes0, types, pod, steps, ring, nodes, claimed)
    requires RingFor(lay, ring', NodesAfter(nodes, [step.change]))
    ensures Followed(lay, ring0, nodes0, types, pod, steps + [step], ring', NodesAfter(nodes, [step.change]),
                     if step.receiving then Responsible(lay, ring', types, pod) else claimed)
  {
    var longer := steps + [step];
    assert longer[..|steps|] == steps;
    ChangesAppend(nodes0, steps, step);
    ChangesKeepRing(lay, ring0, nodes0, Changes(longer));
    RingDetermined(lay, ring', RingAfter(lay, ring0, Changes(longer)), NodesAfter(nodes0, Changes(longer)));
  }

  lemma ChangesAppend(nodes0: set<string>, steps: seq<Step>, step: Step)
    ensures NodesAfter(nodes0, Changes(steps + [step])) == NodesAfter(NodesAfter(nodes0, Changes(steps)), [step.change])
  {
    assert Changes(steps + [step]) == Changes(steps) + [step.change];
    assert Changes(steps + [step])[..|steps|] == Changes(steps) && [step.change][..0] == [];
  }

  /** Applies a change to the hash; the producer takes what reaches a receiver. */
  method FollowOne(c: ConsistentHash, producer: Producer, step: Step)
    requires c.Valid()
    modifies c, producer`responsibleTypes
    ensures c.Valid() && c.nodes == NodesAfter(old(c.nodes), [step.change])
    ensures producer.responsibleTypes == if step.receiving then Responsible(c.layout, c.ring, c.types, c.podName)
                                         else old(producer.responsibleTypes)
  {
    assert [step.change][..0] == [];
    match step.change {
      case Added(name) => c.OnAddNode(name, step.receiving);
      case Deleted(name) => c.OnDelNode(name, step.receiving);
      case Reset(names) => c.SetNodes(names, step.receiving);
    }
    if step.receiving {
      producer.OnResponsibleTypes(c.published[|c.published| - 1]);
    }
  }

  method Follow(c: ConsistentHash, producer: Producer, steps: seq<Step>)
    requires c.Valid()
    requires producer.responsibleTypes == Responsible(c.layout, c.ring, c.types, c.podName)
    modifies c, producer`responsibleTypes
    ensures c.Valid() && c.nodes == NodesAfter(old(c.nodes), Changes(steps))
    ensures c.ring == RingAfter(c.layout, old(c.ring), Changes(steps))
    ensures producer.responsibleTypes == ClaimedAfter(c.layout, old(c.ring), c.types, c.podName, steps)
  {
    ghost var ring0, nodes0 := c.ring, c.nodes;
    var i := 0;
    while i < |steps|
      invariant 0 <= i <= |steps| && c.Valid()
      invariant Followed(c.layout, ring0, nodes0, c.types, c.podName, steps[..i],
                         c.ring, c.nodes, producer.responsibleTypes)
    {
      ghost var ring, nodes, claimed := c.ring, c.nodes, producer.responsibleTypes;
      FollowOne(c, producer, steps[i]);
      FollowedStep(c.layout, ring0, nodes0, c.types, c.podName, steps[..i], ring, nodes, claimed, steps[i], c.ring);
      assert steps[..i + 1] == steps[..i] + [steps[i]];
      i := i + 1;
    }
    assert steps[..i] == steps;
  }

  /** The claims are those of some ring for the view at the last update received. */
  lemma {:induction false} ClaimsOfReceivedView(lay: Layout, ring: Ring, view: set<string>, types: seq<string>,
                                                pod: string, steps: seq<Step>) returns (received: Ring)
    requires ValidLayout(lay) && RingFor(lay, ring, view)
    ensures RingFor(lay, received, ReceivedView(view, steps))
    ensures ClaimedAfter(lay, ring, types, pod, steps) == Responsible(lay, received, types, pod)
  {
    if steps == [] {
      received := ring;
    } else if steps[|steps| - 1].receiving {
      received := RingAfter(lay, ring, Changes(steps));
      ChangesKeepRing(lay, ring, view, Changes(steps));
    } else {
      received := ClaimsOfReceivedView(lay, ring, view, types, pod, steps[..|steps| - 1]);
    }
  }

  /** Two pods that start from these views and go through these steps never both claim a type, on any layout. */
  ghost predicate NeverBothClaimAfter(p: string, viewP: set<string>, stepsP: seq<Step>,
                                      q: string, viewQ: set<string>, stepsQ: seq<Step>) {
    forall lay, ringP, ringQ, types, t ::
      ValidLayout(lay) && RingFor(lay, ringP, viewP) && RingFor(lay, ringQ, viewQ) ==>
        !(t in ClaimedAfter(lay, ringP, types, p, stepsP) && t in ClaimedAfter(lay, ringQ, types, q, stepsQ))
  }

  /**
   * After any changes, received or dropped, no type is claimed twice exactly when each pod is in the
   * view of the other's last update that was received. Later updates, being dropped, do not matter.
   */
  lemma DroppedUpdatesExactly(p: string, viewP: set<string>, stepsP: seq<Step>,
                              q: string, viewQ: set<string>, stepsQ: seq<Step>)
    requires p != q
    ensures var lastP, lastQ := ReceivedView(viewP, stepsP), ReceivedView(viewQ, stepsQ);
            NeverBothClaimAfter(p, viewP, stepsP, q, viewQ, stepsQ) <==>
              (Claimant(p, lastP) && Claimant(q, lastQ) ==> q in lastP && p in lastQ)
  {
    var lastP, lastQ := ReceivedView(viewP, stepsP), ReceivedView(viewQ, stepsQ);
    if Separated(p, lastP, q, lastQ) {
      forall lay, ringP, ringQ, types, t | ValidLayout(lay) && RingFor(lay, ringP, viewP) && RingFor(lay, ringQ, viewQ)
        ensures !(t in ClaimedAfter(lay, ringP, types, p, stepsP) && t in ClaimedAfter(lay, ringQ, types, q, stepsQ))
      {
        var receivedP := ClaimsOfReceivedView(lay, ringP, viewP, types, p, stepsP);
        var receivedQ := ClaimsOfReceivedView(lay, ringQ, viewQ, types, q, stepsQ);
        SeparatedNeverClaim(lay, receivedP, receivedQ, types, t, p, lastP, q, lastQ);
      }
    } else {
      var lay := Clash(p, lastP, q);
      PodiumValid(p, q);
      PodiumValid(q, p);
      var ringP := RingExists(lay, viewP);
      var ringQ := RingExists(lay, viewQ);
      var receivedP := ClaimsOfReceivedView(lay, ringP, viewP, [""], p, stepsP);
      var receivedQ := ClaimsOfReceivedView(lay, ringQ, viewQ, [""], q, stepsQ);
      ClashClaims(receivedP, receivedQ, "", p, lastP, q, lastQ);
    }
  }

  /**
   * A pod p that saw nobody receive the news of q: on every layout the types claimed twice are exactly
   * those p had and q now has. Had the update been received there would be none.
   */
  lemma DroppedJoinClaimsTwice(lay: Layout, ring: Ring, view: set<string>, p: string, q: string, types: seq<string>,
                               t: string, receiving: bool)
    requires ValidLayout(lay) && RingFor(lay, ring, view) && p in view && q !in view
    ensures var joined := AddNode(lay, ring, q);
            (t in ClaimedAfter(lay, ring, types, p, [Step(Added(q), receiving)])
             && t in Responsible(lay, joined, types, q))
            <==> (!receiving && t in types && GetNode(lay, ring, t) == p && GetNode(lay, joined, t) == q)
  {
    var steps, joined := [Step(Added(q), receiving)], AddNode(lay, ring, q);
    assert steps[..0] == [];
    assert Changes(steps) == [Added(q)] && Changes(steps)[..0] == [];
    assert RingAfter(lay, ring, Changes(steps)) == joined;
    assert ClaimedAfter(lay, ring, types, p, steps) == Responsible(lay, if receiving then joined else ring, types, p);
    ResponsibleExactly(lay, ring, types, p, t);
    ResponsibleExactly(lay, joined, types, p, t);
    ResponsibleExactly(lay, joined, types, q, t);
  }
}
