/**
 * What the message queue holds after a task: in whatever order the types' pages were sent, and
 * no matter what type they were read for.
 */
module WireContents {
  import opened Common
  import opened DevicePaging
  import opened Production

  // ---------------------------------------------------------------- types are lost

  function IdsOf(ds: seq<Delivery>): seq<int> {
    seq(|ds|, i requires 0 <= i < |ds| => ds[i].id)
  }

  lemma MessageAt(columns: set<Column>, topic: Topic, ds: seq<Delivery>, i: nat)
    requires i < |ds|
    ensures Messages(columns, topic, ds)[i].device == AsRead(columns, ds[i].typ, ds[i].id)
  {
  }

  /** The messages determine what was delivered. */
  ghost predicate TellsAll(columns: set<Column>, topic: Topic) {
    forall a, b :: Messages(columns, topic, a) == Messages(columns, topic, b) ==> a == b
  }

  /** They would exactly if the page query selected the type as well as the ID. */
  lemma TellsAllExactly(columns: set<Column>, topic: Topic)
    ensures TellsAll(columns, topic) <==> TypeColumn in columns && CIdColumn in columns
  {
    if TypeColumn in columns && CIdColumn in columns {
      forall a, b | Messages(columns, topic, a) == Messages(columns, topic, b) ensures a == b {
        assert |Messages(columns, topic, a)| == |a| && |Messages(columns, topic, b)| == |b|;
        forall i | 0 <= i < |a| ensures a[i] == b[i] {
          MessageAt(columns, topic, a, i);
          MessageAt(columns, topic, b, i);
        }
      }
    } else {
      var a := [Delivery("DeviceA", 1)];
      var b := if TypeColumn in columns then [Delivery("DeviceA", 2)] else [Delivery("DeviceB", 1)];
      assert a[0] != b[0];
      assert Messages(columns, topic, a) == Messages(columns, topic, b);
    }
  }

  /** The columns the code selects leave the IDs, in order, and nothing else. */
  lemma WireTellsIdsOnly(topic: Topic, a: seq<Delivery>, b: seq<Delivery>)
    ensures Wire(topic, a) == Wire(topic, b) <==> IdsOf(a) == IdsOf(b)
  {
    assert |Wire(topic, a)| == |IdsOf(a)| == |a| && |Wire(topic, b)| == |IdsOf(b)| == |b|;
    if |a| == |b| {
      forall i | 0 <= i < |a| ensures Wire(topic, a)[i] == Wire(topic, b)[i] <==> IdsOf(a)[i] == IdsOf(b)[i] {
        MessageAt(SELECTED, topic, a, i);
        MessageAt(SELECTED, topic, b, i);
      }
    }
  }

  /** The same replies for other types. */
  predicate Relabelled(a: seq<string>, answersA: map<string, seq<Reply>>,
                       b: seq<string>, answersB: map<string, seq<Reply>>) {
    |a| == |b| && forall i :: 0 <= i < |a| ==> a[i] in answersA && b[i] in answersB && answersA[a[i]] == answersB[b[i]]
  }

  lemma OneTypeWire(topic: Topic, num: int, types: seq<string>, answers: map<string, seq<Reply>>)
    requires types != [] && Answered(types, num, answers)
    ensures var front, last := types[..|types| - 1], types[|types| - 1];
            Wire(topic, Deliveries(types, num, answers))
            == Wire(topic, Deliveries(front, num, answers)) + Wire(topic, Tagged(last, SessionIds(answers[last], num)))
  {
    var front, last := types[..|types| - 1], types[|types| - 1];
    WireConcat(topic, Deliveries(front, num, answers), Tagged(last, SessionIds(answers[last], num)));
  }

  lemma TypeIsLost(topic: Topic, a: string, b: string, ids: seq<int>)
    ensures Wire(topic, Tagged(a, ids)) == Wire(topic, Tagged(b, ids))
  {
    WireTellsIdsOnly(topic, Tagged(a, ids), Tagged(b, ids));
    assert IdsOf(Tagged(a, ids)) == IdsOf(Tagged(b, ids));
  }

  lemma {:induction false} RelabelledWire(topic: Topic, num: int, a: seq<string>, answersA: map<string, seq<Reply>>,
                                          b: seq<string>, answersB: map<string, seq<Reply>>)
    requires Answered(a, num, answersA) && Answered(b, num, answersB) && Relabelled(a, answersA, b, answersB)
    ensures Wire(topic, Deliveries(a, num, answersA)) == Wire(topic, Deliveries(b, num, answersB))
  {
    var n := |a| - 1;
    if a != [] {
      assert Relabelled(a[..n], answersA, b[..n], answersB);
      RelabelledWire(topic, num, a[..n], answersA, b[..n], answersB);
      OneTypeWire(topic, num, a, answersA);
      OneTypeWire(topic, num, b, answersB);
      TypeIsLost(topic, a[n], b[n], SessionIds(answersA[a[n]], num));
    }
  }

  lemma RelabelledErrors(num: int, a: seq<string>, answersA: map<string, seq<Reply>>,
                         b: seq<string>, answersB: map<string, seq<Reply>>)
    requires Answered(a, num, answersA) && Answered(b, num, answersB) && Relabelled(a, answersA, b, answersB)
    ensures ErrorFree(a, num, answersA) ==> ErrorFree(b, num, answersB)
  {
    if ErrorFree(a, num, answersA) {
      forall t | t in b ensures Completed(answersB[t], num) == Pages(num) {
        var i :| 0 <= i < |b| && b[i] == t;
        assert a[i] in a;
      }
    }
  }

  /** Two producers that work on different types, and get the same replies, leave the same messages behind. */
  method ProduceForOtherTypes(p: Producer, q: Producer, cfg: PushConfig,
                              answersP: map<string, seq<Reply>>, answersQ: map<string, seq<Reply>>)
    returns (failedP: bool, failedQ: bool)
    requires p != q && p.log == q.log
    requires Answered(InterSet(p.responsibleTypes, cfg.deviceTypeList), cfg.num, answersP)
    requires Answered(InterSet(q.responsibleTypes, cfg.deviceTypeList), cfg.num, answersQ)
    requires Relabelled(InterSet(p.responsibleTypes, cfg.deviceTypeList), answersP,
                        InterSet(q.responsibleTypes, cfg.deviceTypeList), answersQ)
    modifies p`log, p.dao, p.counter, q`log, q.dao, q.counter
    ensures p.log == q.log && failedP == failedQ
  {
    RelabelledWire(cfg.topic, cfg.num, InterSet(p.responsibleTypes, cfg.deviceTypeList), answersP,
                   InterSet(q.responsibleTypes, cfg.deviceTypeList), answersQ);
    RelabelledErrors(cfg.num, InterSet(p.responsibleTypes, cfg.deviceTypeList), answersP,
                     InterSet(q.responsibleTypes, cfg.deviceTypeList), answersQ);
    RelabelledErrors(cfg.num, InterSet(q.responsibleTypes, cfg.deviceTypeList), answersQ,
                     InterSet(p.responsibleTypes, cfg.deviceTypeList), answersP);
    failedP := p.DoTask(cfg, answersP);
    failedQ := q.DoTask(cfg, answersQ);
  }

  /** Nothing that reads the queue can name the types of every task that may have filled it. */
  lemma NothingRecoversTypes(read: seq<Message> -> seq<string>, topic: Topic, num: int, a: seq<string>, b: seq<string>,
                             answersA: map<string, seq<Reply>>, answersB: map<string, seq<Reply>>)
    requires Answered(a, num, answersA) && Answered(b, num, answersB) && Relabelled(a, answersA, b, answersB)
    requires read(Wire(topic, Deliveries(a, num, answersA))) == a
    requires read(Wire(topic, Deliveries(b, num, answersB))) == b
    ensures a == b
  {
    RelabelledWire(topic, num, a, answersA, b, answersB);
  }

  // ---------------------------------------------------------------- types are sent concurrently

  /** One goroutine for each type; an entry of the schedule is the next page of its type, if one is left to send. */
  function Interleaved(schedule: seq<string>, num: int, answers: map<string, seq<Reply>>): seq<Delivery>
    requires Answered(schedule, num, answers)
  {
    if schedule == [] then [] else
    var front, t := schedule[..|schedule| - 1], schedule[|schedule| - 1];
    Interleaved(front, num, answers)
      + Page(t, Turns(front, t), num, answers[t])
  }

  function Turns(schedule: seq<string>, t: string): nat {
    if schedule == [] then 0
    else Turns(schedule[..|schedule| - 1], t) + if schedule[|schedule| - 1] == t then 1 else 0
  }

  /** Every type has had turns for all its pages, and only these types have had any. */
  predicate Complete(schedule: seq<string>, types: seq<string>, num: int, answers: map<string, seq<Reply>>)
    requires Answered(types, num, answers)
  {
    && (forall t :: t in types ==> Turns(schedule, t) >= Completed(answers[t], num))
    && (forall t :: t in schedule ==> t in types)
  }

  /** The deliveries of one type, in order. */
  function OfType(t: string, ds: seq<Delivery>): seq<Delivery> {
    if ds == [] then [] else
    OfType(t, ds[..|ds| - 1]) + if ds[|ds| - 1].typ == t then [ds[|ds| - 1]] else []
  }

  lemma {:induction false} OfTypeConcat(t: string, a: seq<Delivery>, b: seq<Delivery>)
    ensures OfType(t, a + b) == OfType(t, a) + OfType(t, b)
  {
    if b == [] {
      assert a + b == a;
    } else {
      OfTypeConcat(t, a, b[..|b| - 1]);
      assert (a + b)[..|a + b| - 1] == a + b[..|b| - 1];
    }
  }

  lemma {:induction false} OfTypeTagged(t: string, typ: string, ids: seq<int>)
    ensures OfType(t, Tagged(typ, ids)) == if t == typ then Tagged(typ, ids) else []
  {
    if ids != [] {
      OfTypeTagged(t, typ, ids[..|ids| - 1]);
      assert Tagged(typ, ids)[..|ids| - 1] == Tagged(typ, ids[..|ids| - 1]);
    }
  }

  /** What a session has sent after k turns. */
  function SentInTurns(t: string, k: nat, num: int, rs: seq<Reply>): seq<Delivery>
    requires |rs| >= Pages(num)
  {
    Tagged(t, SentIds(if k < Completed(rs, num) then rs[..k] else rs[..Completed(rs, num)]))
  }

  function Page(t: string, k: nat, num: int, rs: seq<Reply>): seq<Delivery>
    requires |rs| >= Pages(num)
  {
    if k < Completed(rs, num) then Tagged(t, rs[k].rows) else []
  }

  lemma OneMoreTurn(schedule: seq<string>, last: string, num: int, answers: map<string, seq<Reply>>, t: string)
    requires Answered(schedule, num, answers) && last in answers && |answers[last]| >= Pages(num)
    ensures OfType(t, Interleaved(schedule + [last], num, answers))
         == OfType(t, Interleaved(schedule, num, answers))
            + if last == t then Page(t, Turns(schedule, t), num, answers[t]) else []
  {
    assert (schedule + [last])[..|schedule|] == schedule;
    var page := Page(last, Turns(schedule, last), num, answers[last]);
    OfTypeConcat(t, Interleaved(schedule, num, answers), page);
    if page != [] { OfTypeTagged(t, last, answers[last][Turns(schedule, last)].rows); }
  }

  lemma {:induction false} InterleavedOfType(schedule: seq<string>, num: int, answers: map<string, seq<Reply>>,
                                             t: string)
    requires Answered(schedule, num, answers) && t in answers && |answers[t]| >= Pages(num)
    ensures OfType(t, Interleaved(schedule, num, answers)) == SentInTurns(t, Turns(schedule, t), num, answers[t])
  {
    if schedule == [] {
      assert SentInTurns(t, 0, num, answers[t]) == [];
    } else {
      var front, last := schedule[..|schedule| - 1], schedule[|schedule| - 1];
      assert schedule == front + [last];
      InterleavedOfType(front, num, answers, t);
      OneMoreTurn(front, last, num, answers, t);
      TurnTaken(front, last, t);
      if last == t { OneMorePage(t, Turns(front, t), num, answers[t]); }
    }
  }

  lemma TurnTaken(schedule: seq<string>, last: string, t: string)
    ensures Turns(schedule + [last], t) == Turns(schedule, t) + if last == t then 1 else 0
  {
    assert (schedule + [last])[..|schedule|] == schedule;
  }

  lemma OneMorePage(t: string, k: nat, num: int, rs: seq<Reply>)
    requires |rs| >= Pages(num)
    ensures SentInTurns(t, k + 1, num, rs) == SentInTurns(t, k, num, rs) + Page(t, k, num, rs)
  {
    if k < Completed(rs, num) {
      assert rs[..k + 1][..k] == rs[..k];
      assert SentIds(rs[..k + 1]) == SentIds(rs[..k]) + rs[k].rows;
    }
  }

  lemma {:induction false} DeliveriesOfType(types: seq<string>, num: int, answers: map<string, seq<Reply>>, t: string)
    requires Answered(types, num, answers) && Distinct(types)
    ensures OfType(t, Deliveries(types, num, answers))
         == if t in types then Tagged(t, SessionIds(answers[t], num)) else []
  {
    if types != [] {
      var front, last := types[..|types| - 1], types[|types| - 1];
      DeliveriesOfType(front, num, answers, t);
      OfTypeConcat(t, Deliveries(front, num, answers), Tagged(last, SessionIds(answers[last], num)));
      OfTypeTagged(t, last, SessionIds(answers[last], num));
      assert last !in front && (t in types <==> t in front || t == last);
    }
  }

  /**
   * However the concurrent sessions of a task interleave their pages, every type's devices are sent
   * as when the types are produced one after the other: the same ones, as often, and in the same order.
   */
  lemma InterleavingIrrelevant(schedule: seq<string>, types: seq<string>, num: int,
                               answers: map<string, seq<Reply>>, t: string)
    requires Answered(types, num, answers) && Distinct(types) && Complete(schedule, types, num, answers)
    ensures Answered(schedule, num, answers)
    ensures OfType(t, Interleaved(schedule, num, answers)) == OfType(t, Deliveries(types, num, answers))
  {
    DeliveriesOfType(types, num, answers, t);
    if t in types {
      InterleavedOfType(schedule, num, answers, t);
    } else {
      NeverScheduled(schedule, num, answers, t);
    }
  }

  lemma {:induction false} NeverScheduled(schedule: seq<string>, num: int, answers: map<string, seq<Reply>>, t: string)
    requires Answered(schedule, num, answers) && t !in schedule
    ensures OfType(t, Interleaved(schedule, num, answers)) == []
  {
    if schedule != [] {
      var front, last := schedule[..|schedule| - 1], schedule[|schedule| - 1];
      assert schedule == front + [last];
      NeverScheduled(front, num, answers, t);
      OneMoreTurn(front, last, num, answers, t);
    }
  }

  lemma {:induction false} OfTypeCount(ds: seq<Delivery>, d: Delivery)
    ensures multiset(ds)[d] == multiset(OfType(d.typ, ds))[d]
  {
    if ds != [] {
      var front, last := ds[..|ds| - 1], ds[|ds| - 1];
      OfTypeCount(front, d);
      assert ds == front + [last];
    }
  }

  function Without(ds: seq<Delivery>, i: nat): seq<Delivery>
    requires i < |ds|
  {
    ds[..i] + ds[i + 1..]
  }

  lemma WireWithout(topic: Topic, ds: seq<Delivery>, i: nat)
    requires i < |ds|
    ensures multiset(Without(ds, i)) == multiset(ds) - multiset{ds[i]}
    ensures multiset(Wire(topic, ds)) == multiset(Wire(topic, Without(ds, i))) + multiset(Wire(topic, [ds[i]]))
  {
    var before, at, after := ds[..i], [ds[i]], ds[i + 1..];
    assert ds == before + at + after;
    WireConcat(topic, before + at, after);
    WireConcat(topic, before, at);
    WireConcat(topic, before, after);
  }

  /** The same deliveries in any order are the same messages in some order. */
  lemma {:induction false} SameMessages(topic: Topic, a: seq<Delivery>, b: seq<Delivery>)
    requires multiset(a) == multiset(b)
    ensures multiset(Wire(topic, a)) == multiset(Wire(topic, b))
    decreases |a|
  {
    assert |multiset(a)| == |a| && |multiset(b)| == |b|;
    if a != [] {
      assert a[0] in multiset(b);
      var i :| 0 <= i < |b| && b[i] == a[0];
      WireWithout(topic, a, 0);
      WireWithout(topic, b, i);
      SameMessages(topic, Without(a, 0), Without(b, i));
    }
  }

  /** The queue holds the same messages, each as often, in every interleaving of the sessions. */
  lemma InterleavingSameQueue(topic: Topic, schedule: seq<string>, types: seq<string>, num: int,
                              answers: map<string, seq<Reply>>)
    requires Answered(types, num, answers) && Distinct(types) && Complete(schedule, types, num, answers)
    ensures Answered(schedule, num, answers)
    ensures multiset(Wire(topic, Interleaved(schedule, num, answers)))
         == multiset(Wire(topic, Deliveries(types, num, answers)))
  {
    assert Answered(schedule, num, answers);
    var a, b := Interleaved(schedule, num, answers), Deliveries(types, num, answers);
    forall d: Delivery ensures multiset(a)[d] == multiset(b)[d] {
      InterleavingIrrelevant(schedule, types, num, answers, d.typ);
      OfTypeCount(a, d);
      OfTypeCount(b, d);
    }
    SameMessages(topic, a, b);
  }
}
