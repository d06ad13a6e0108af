/**
 * What the pods of a cluster produce together: hashing decides who produces a type, paging
 * what is sent for it, and the counter what is hoped for.
 */
module Cluster {
  import opened Common
  import opened ConsistentHashing
  import opened Claims
  import opened DevicePaging
  import opened Production

  // ---------------------------------------------------------------- one session

  /**
   * A session on a table that stays as it is sends the first min(100p, num, available) positive
   * IDs in order, p being the pages completed; without an error that is min(num, available).
   */
  lemma SessionOnFixedTable(replies: seq<Reply>, tables: seq<set<int>>, table: set<int>, ids: seq<int>, num: int)
    requires |replies| >= Pages(num) && Enumerates(ids, table)
    requires Paged(replies[..Completed(replies, num)], tables, num)
    requires forall i :: 0 <= i < |tables| ==> tables[i] == table
    ensures 0 <= Least(Reached(num, Completed(replies, num)), |ids|)
    ensures SessionIds(replies, num) == ids[..Least(Reached(num, Completed(replies, num)), |ids|)]
    ensures Completed(replies, num) == Pages(num) && num >= 0 ==> SessionIds(replies, num) == ids[..Least(num, |ids|)]
  {
    FixedTableSendsFirst(replies[..Completed(replies, num)], tables, table, ids, num);
    if num > 0 { ReachedStep(num, Pages(num)); }
  }

  /**
   * A session without an error, on a table that stays as it is, puts one message on the queue for each of
   * the first min(num, available) positive IDs, in order: with the task's topic, that ID and no type.
   */
  method SendFirst(p: Producer, topic: Topic, typ: string, num: int, replies: seq<Reply>,
                   ghost table: set<int>, ghost ids: seq<int>) returns (err: bool)
    requires num >= 0 && |replies| >= Pages(num) && Completed(replies, num) == Pages(num)
    requires ReadFrom(replies, table, ids, num)
    modifies p`log, p.dao
    ensures !err
    ensures var n := if num < |ids| then num else |ids|;
            && |p.log| == |old(p.log)| + n && p.log[..|old(p.log)|] == old(p.log)
            && forall i :: 0 <= i < n ==> p.log[|old(p.log)| + i] == Message(topic, Device("", ids[i]))
  {
    SessionOnFixedTable(replies, seq(Pages(num), _ => table), table, ids, num);
    ghost var ds := Tagged(typ, SessionIds(replies, num));
    forall i | 0 <= i < |ds| ensures Wire(topic, ds)[i] == Message(topic, Device("", ids[i])) {
      MessageExactly(topic, ds, i);
    }
    err := p.ReadAndSend(topic, typ, num, replies);
  }

  // ---------------------------------------------------------------- counting deliveries

  lemma {:induction false} TaggedCount(typ: string, ids: seq<int>, d: Delivery)
    ensures multiset(Tagged(typ, ids))[d] == if d.typ == typ then multiset(ids)[d.id] else 0
  {
    if ids != [] {
      var front, last := ids[..|ids| - 1], ids[|ids| - 1];
      TaggedCount(typ, front, d);
      assert ids == front + [last];
      assert Tagged(typ, ids) == Tagged(typ, front) + [Delivery(typ, last)];
    }
  }

  /** How often a delivery is made when the types are produced, each once. */
  lemma {:induction false} DeliveryCount(types: seq<string>, num: int, answers: map<string, seq<Reply>>, d: Delivery)
    requires Answered(types, num, answers) && Distinct(types)
    ensures multiset(Deliveries(types, num, answers))[d]
         == if d.typ in types then multiset(SessionIds(answers[d.typ], num))[d.id] else 0
  {
    if types != [] {
      var front, last := types[..|types| - 1], types[|types| - 1];
      DeliveryCount(front, num, answers, d);
      TaggedCount(last, SessionIds(answers[last], num), d);
      assert last !in front && (d.typ in types <==> d.typ in front || d.typ == last);
    }
  }

  // ---------------------------------------------------------------- one task, all pods

  function Produced(lay: Layout, ring: Ring, known: seq<string>, cfg: PushConfig, pod: string): seq<string> {
    InterSet(Responsible(lay, ring, known, pod), cfg.deviceTypeList)
  }

  /** A pod of the cluster with the ring it works on, and the view that the ring was built for. */
  datatype Member = Member(pod: string, ring: Ring, view: set<string>)

  ghost predicate AllAnswered(lay: Layout, known: seq<string>, cfg: PushConfig, members: seq<Member>,
                              answers: map<string, seq<Reply>>) {
    forall m :: m in members ==> Answered(Produced(lay, m.ring, known, cfg, m.pod), cfg.num, answers)
  }

  /** `answers` are the replies to whichever pod reads the type. */
  ghost function ClusterDeliveries(lay: Layout, known: seq<string>, cfg: PushConfig, members: seq<Member>,
                                   answers: map<string, seq<Reply>>): seq<Delivery>
    requires AllAnswered(lay, known, cfg, members, answers)
  {
    if members == [] then [] else
    var last := members[|members| - 1];
    ClusterDeliveries(lay, known, cfg, members[..|members| - 1], answers)
      + Deliveries(Produced(lay, last.ring, known, cfg, last.pod), cfg.num, answers)
  }

  predicate Listed(known: seq<string>, cfg: PushConfig, t: string) {
    t in known && t in cfg.deviceTypeList
  }

  lemma ProducedExactly(lay: Layout, ring: Ring, known: seq<string>, cfg: PushConfig, pod: string, t: string)
    ensures Distinct(Produced(lay, ring, known, cfg, pod))
    ensures t in Produced(lay, ring, known, cfg, pod) <==>
              t in Responsible(lay, ring, known, pod) && t in cfg.deviceTypeList
  {
    InterSetExactly(Responsible(lay, ring, known, pod), cfg.deviceTypeList);
  }

  /** Each pod has a ring for its view, and no two of them can claim the same type. */
  ghost predicate Apart(lay: Layout, members: seq<Member>) {
    && (forall i :: 0 <= i < |members| ==> RingFor(lay, members[i].ring, members[i].view))
    && (forall i, j :: 0 <= i < j < |members| ==>
          members[i].pod != members[j].pod
          && Separated(members[i].pod, members[i].view, members[j].pod, members[j].view))
  }

  predicate ClaimedBySome(lay: Layout, known: seq<string>, members: seq<Member>, t: string) {
    exists i :: 0 <= i < |members| && t in Responsible(lay, members[i].ring, known, members[i].pod)
  }

  /** Of pods that are apart only one claims a type. */
  lemma LastClaimsAlone(lay: Layout, known: seq<string>, members: seq<Member>, t: string)
    requires ValidLayout(lay) && Apart(lay, members) && members != []
    ensures var front, last := members[..|members| - 1], members[|members| - 1];
            var byLast := t in Responsible(lay, last.ring, known, last.pod);
            && !(ClaimedBySome(lay, known, front, t) && byLast)
            && (ClaimedBySome(lay, known, members, t) <==> ClaimedBySome(lay, known, front, t) || byLast)
  {
    var n := |members| - 1;
    var front, last := members[..n], members[n];
    if t in Responsible(lay, last.ring, known, last.pod) {
      forall i | 0 <= i < n ensures t !in Responsible(lay, front[i].ring, known, front[i].pod) {
        var m := members[i];
        SeparatedNeverClaim(lay, m.ring, last.ring, known, t, m.pod, m.view, last.pod, last.view);
      }
    }
    if i :| 0 <= i < n && t in Responsible(lay, front[i].ring, known, front[i].pod) {
      assert members[i] == front[i];
    }
    if i :| 0 <= i < |members| && t in Responsible(lay, members[i].ring, known, members[i].pod) {
      if i < n { assert front[i] == members[i]; }
    }
  }

  /**
   * Pods with views of their own, any two of them apart: a delivery is made as often as in one session
   * of its type if some pod claims the type and it is listed, and not at all otherwise.
   */
  lemma {:induction false} MembersCount(lay: Layout, known: seq<string>, cfg: PushConfig, members: seq<Member>,
                                        answers: map<string, seq<Reply>>, d: Delivery)
    requires ValidLayout(lay) && Apart(lay, members) && AllAnswered(lay, known, cfg, members, answers)
    ensures var made := d.typ in cfg.deviceTypeList && ClaimedBySome(lay, known, members, d.typ);
            && (made ==> d.typ in answers && |answers[d.typ]| >= Pages(cfg.num))
            && multiset(ClusterDeliveries(lay, known, cfg, members, answers))[d]
               == if made then multiset(SessionIds(answers[d.typ], cfg.num))[d.id] else 0
  {
    if members != [] {
      var front, last := members[..|members| - 1], members[|members| - 1];
      MembersCount(lay, known, cfg, front, answers, d);
      LastClaimsAlone(lay, known, members, d.typ);
      ProducedExactly(lay, last.ring, known, cfg, last.pod, d.typ);
      DeliveryCount(Produced(lay, last.ring, known, cfg, last.pod), cfg.num, answers, d);
    }
  }

  /** Every type that anybody produces is read to the end, without error, from a table that stays as it is. */
  ghost predicate Undisturbed(known: seq<string>, cfg: PushConfig, answers: map<string, seq<Reply>>,
                              ids: map<string, seq<int>>) {
    forall t :: Listed(known, cfg, t) ==>
      && t in answers && t in ids && |answers[t]| >= Pages(cfg.num)
      && Completed(answers[t], cfg.num) == Pages(cfg.num)
      && exists table :: ReadFrom(answers[t], table, ids[t], cfg.num)
  }

  ghost predicate ReadFrom(replies: seq<Reply>, table: set<int>, ids: seq<int>, num: int)
    requires |replies| >= Pages(num)
  {
    && Enumerates(ids, table)
    && Paged(replies[..Pages(num)], seq(Pages(num), _ => table), num)
  }

  /**
   * Pods with views of their own, any two of them apart, on tables that stay as they are: they deliver
   * together, for every listed type that one of them claims, each of its first min(num, available)
   * positive device IDs exactly once, and nothing else.
   */
  lemma OwnViewsExactlyOnce(lay: Layout, known: seq<string>, cfg: PushConfig, members: seq<Member>,
                            answers: map<string, seq<Reply>>, ids: map<string, seq<int>>, d: Delivery)
    requires ValidLayout(lay) && Apart(lay, members) && AllAnswered(lay, known, cfg, members, answers)
    requires cfg.num >= 0 && Undisturbed(known, cfg, answers, ids)
    ensures ClaimedBySome(lay, known, members, d.typ) ==> d.typ in known
    ensures multiset(ClusterDeliveries(lay, known, cfg, members, answers))[d]
         == if d.typ in cfg.deviceTypeList && ClaimedBySome(lay, known, members, d.typ)
               && d.id in ids[d.typ][..Least(cfg.num, |ids[d.typ]|)] then 1 else 0
  {
    MembersCount(lay, known, cfg, members, answers, d);
    if i :| 0 <= i < |members| && d.typ in Responsible(lay, members[i].ring, known, members[i].pod) {
      ResponsibleExactly(lay, members[i].ring, known, members[i].pod, d.typ);
      if d.typ in cfg.deviceTypeList {
        assert Listed(known, cfg, d.typ);
        SessionCount(answers[d.typ], ids[d.typ], cfg.num, d.id);
      }
    }
  }

  function Sharing(pods: seq<string>, ring: Ring): seq<Member> {
    seq(|pods|, i requires 0 <= i < |pods| => Member(pods[i], ring, Names(pods)))
  }

  /**
   * The pods share one view, and it is they: together they deliver, for every known and listed
   * type, each of its first min(num, available) positive device IDs exactly once, and nothing else.
   */
  lemma ClusterWideExactlyOnce(lay: Layout, ring: Ring, known: seq<string>, cfg: PushConfig, pods: seq<string>,
                               answers: map<string, seq<Reply>>, ids: map<string, seq<int>>, d: Delivery)
    requires ValidLayout(lay) && pods != [] && Distinct(pods) && RingFor(lay, ring, Names(pods))
    requires cfg.num >= 0 && Undisturbed(known, cfg, answers, ids)
    requires AllAnswered(lay, known, cfg, Sharing(pods, ring), answers)
    ensures multiset(ClusterDeliveries(lay, known, cfg, Sharing(pods, ring), answers))[d]
         == if Listed(known, cfg, d.typ) && d.id in ids[d.typ][..Least(cfg.num, |ids[d.typ]|)] then 1 else 0
  {
    SharingApart(lay, pods, ring);
    SharingClaims(lay, known, pods, ring, d.typ);
    OwnViewsExactlyOnce(lay, known, cfg, Sharing(pods, ring), answers, ids, d);
  }

  lemma SharingApart(lay: Layout, pods: seq<string>, ring: Ring)
    requires Distinct(pods) && RingFor(lay, ring, Names(pods))
    ensures Apart(lay, Sharing(pods, ring))
  {
  }

  lemma SharingClaims(lay: Layout, known: seq<string>, pods: seq<string>, ring: Ring, t: string)
    requires ValidLayout(lay) && pods != [] && RingFor(lay, ring, Names(pods))
    ensures ClaimedBySome(lay, known, Sharing(pods, ring), t) <==> t in known
  {
    assert pods[0] in Names(pods);
    var members := Sharing(pods, ring);
    if t in known {
      ExactlyOneOwner(lay, ring, Names(pods), known, t);
      var i :| 0 <= i < |pods| && pods[i] == GetNode(lay, ring, t);
      assert members[i] == Member(pods[i], ring, Names(pods));
    } else {
      forall i | 0 <= i < |members| ensures t !in Responsible(lay, members[i].ring, known, members[i].pod) {
        ResponsibleExactly(lay, members[i].ring, known, members[i].pod, t);
      }
    }
  }

  lemma SessionCount(replies: seq<Reply>, ids: seq<int>, num: int, id: int)
    requires num >= 0 && |replies| >= Pages(num) && Completed(replies, num) == Pages(num)
    requires exists table :: ReadFrom(replies, table, ids, num)
    ensures multiset(SessionIds(replies, num))[id] == if id in ids[..Least(num, |ids|)] then 1 else 0
  {
    var table :| ReadFrom(replies, table, ids, num);
    SessionOnFixedTable(replies, seq(Pages(num), _ => table), table, ids, num);
    DistinctCount(ids[..Least(num, |ids|)], id);
  }

  // ---------------------------------------------------------------- accounting

  /** One error-free task of one pod: the types it produced and the replies it got. */
  datatype Task = Task(types: seq<string>, num: int, answers: map<string, seq<Reply>>,
                       tables: map<string, seq<set<int>>>)

  ghost predicate Produces(task: Task) {
    && task.num >= 0 && Answered(task.types, task.num, task.answers)
    && ErrorFree(task.types, task.num, task.answers)
    && forall t :: t in task.types ==>
         t in task.tables && Paged(task.answers[t][..Pages(task.num)], task.tables[t], task.num)
  }

  function Hoped(tasks: seq<Task>): int {
    if tasks == [] then 0 else
    Hoped(tasks[..|tasks| - 1]) + |tasks[|tasks| - 1].types| * tasks[|tasks| - 1].num
  }

  ghost predicate AllProduce(tasks: seq<Task>) {
    tasks == [] || (AllProduce(tasks[..|tasks| - 1]) && Produces(tasks[|tasks| - 1]))
  }

  ghost function Sent(tasks: seq<Task>): int
    requires AllProduce(tasks)
  {
    if tasks == [] then 0 else
    var last := tasks[|tasks| - 1];
    Sent(tasks[..|tasks| - 1]) + |Deliveries(last.types, last.num, last.answers)|
  }

  /** Every page of every produced type came back full: the table always had the rows that were asked for. */
  ghost predicate TypesFull(types: seq<string>, num: int, answers: map<string, seq<Reply>>)
    requires Answered(types, num, answers)
  {
    types == [] ||
    (TypesFull(types[..|types| - 1], num, answers) && AllFull(answers[types[|types| - 1]][..Pages(num)], num))
  }

  ghost predicate TasksFull(tasks: seq<Task>)
    requires AllProduce(tasks)
  {
    tasks == [] ||
    (TasksFull(tasks[..|tasks| - 1]) &&
     TypesFull(tasks[|tasks| - 1].types, tasks[|tasks| - 1].num, tasks[|tasks| - 1].answers))
  }

  lemma SessionLength(replies: seq<Reply>, tables: seq<set<int>>, num: int)
    requires num >= 0 && |replies| >= Pages(num) && Completed(replies, num) == Pages(num)
    requires Paged(replies[..Pages(num)], tables, num)
    ensures |SessionIds(replies, num)| <= num
    ensures |SessionIds(replies, num)| == num <==> AllFull(replies[..Pages(num)], num)
  {
    SentAtMost(replies[..Pages(num)], tables, num);
    if num > 0 { ReachedStep(num, Pages(num)); }
  }

  lemma OneMoreTypeHoped(n: nat, num: int)
    ensures (n + 1) * num == n * num + num
  {
  }

  lemma {:induction false} TaskAccounting(types: seq<string>, num: int, answers: map<string, seq<Reply>>,
                                          tables: map<string, seq<set<int>>>)
    requires Produces(Task(types, num, answers, tables))
    ensures |Deliveries(types, num, answers)| <= |types| * num
    ensures |Deliveries(types, num, answers)| == |types| * num <==> TypesFull(types, num, answers)
  {
    if types != [] {
      var front, last := types[..|types| - 1], types[|types| - 1];
      TaskAccounting(front, num, answers, tables);
      SessionLength(answers[last], tables[last], num);
      OneMoreTypeHoped(|front|, num);
      assert |Deliveries(types, num, answers)|
          == |Deliveries(front, num, answers)| + |SessionIds(answers[last], num)|;
    }
  }

  /**
   * Over any error-free tasks what is hoped for covers what is sent, and equals it exactly when no
   * page ever fell short.
   */
  lemma {:induction false} ProductionAccounting(tasks: seq<Task>)
    requires AllProduce(tasks)
    ensures Sent(tasks) <= Hoped(tasks)
    ensures Sent(tasks) == Hoped(tasks) <==> TasksFull(tasks)
  {
    if tasks != [] {
      var last := tasks[|tasks| - 1];
      ProductionAccounting(tasks[..|tasks| - 1]);
      TaskAccounting(last.types, last.num, last.answers, last.tables);
    }
  }

  /** On a table that stays as it is, no page falls short exactly when it has as many positive IDs as are wanted. */
  lemma FullExactly(replies: seq<Reply>, table: set<int>, ids: seq<int>, num: int)
    requires num >= 0 && |replies| >= Pages(num) && Completed(replies, num) == Pages(num)
    requires ReadFrom(replies, table, ids, num)
    ensures AllFull(replies[..Pages(num)], num) <==> |ids| >= num
  {
    var tables := seq(Pages(num), _ => table);
    SessionOnFixedTable(replies, tables, table, ids, num);
    SessionLength(replies, tables, num);
  }
}
