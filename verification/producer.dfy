/**
 * Producing one task: the types this pod is responsible for, each read page by page and sent.
 */
module Production {
  import opened Common
  import opened DevicePaging
  import opened Counting

  datatype Topic = Topic(name: string, domain: string)

  /** What goes on the wire. */
  datatype Message = Message(topic: Topic, device: Device)

  datatype PushConfig = PushConfig(topic: Topic, deviceTypeList: seq<string>, num: int)

  /** A device that has been read for a session of its type. */
  datatype Delivery = Delivery(typ: string, id: int)

  /** The messages of these deliveries, had the page query selected these columns. */
  function Messages(columns: set<Column>, topic: Topic, ds: seq<Delivery>): seq<Message> {
    seq(|ds|, i requires 0 <= i < |ds| => Message(topic, AsRead(columns, ds[i].typ, ds[i].id)))
  }

  /** What they put on the queue. */
  function Wire(topic: Topic, ds: seq<Delivery>): seq<Message> { Messages(SELECTED, topic, ds) }

  /** A message carries the task's topic, the device's ID, and no type. */
  lemma MessageExactly(topic: Topic, ds: seq<Delivery>, i: nat)
    requires i < |ds|
    ensures |Wire(topic, ds)| == |ds| && Wire(topic, ds)[i] == Message(topic, Device("", ds[i].id))
  {
  }

  /** The common elements, each once. */
  function InterSet(a: seq<string>, b: seq<string>): seq<string> {
    if a == [] then [] else
    var front, last := InterSet(a[..|a| - 1], b), a[|a| - 1];
    if last in b && last !in front then front + [last] else front
  }

  lemma {:induction false} InterSetExactly(a: seq<string>, b: seq<string>)
    ensures Distinct(InterSet(a, b))
    ensures forall t :: t in InterSet(a, b) <==> t in a && t in b
  {
    if a != [] {
      InterSetExactly(a[..|a| - 1], b);
      forall t ensures t in InterSet(a, b) <==> t in a && t in b {
        assert t in a <==> t in a[..|a| - 1] || t == a[|a| - 1];
      }
    }
  }

  /** The pages of a session that were read and sent; an error ends it. */
  function Completed(rs: seq<Reply>, num: int): (p: nat)
    requires |rs| >= Pages(num)
    ensures p <= Pages(num)
  {
    CompletedFrom(rs[..Pages(num)], 0)
  }

  function Tagged(typ: string, ids: seq<int>): seq<Delivery> {
    seq(|ids|, i requires 0 <= i < |ids| => Delivery(typ, ids[i]))
  }

  predicate Answered(types: seq<string>, num: int, answers: map<string, seq<Reply>>) {
    forall t :: t in types ==> t in answers && |answers[t]| >= Pages(num)
  }

  function SessionIds(rs: seq<Reply>, num: int): seq<int>
    requires |rs| >= Pages(num)
  {
    SentIds(rs[..Completed(rs, num)])
  }

  function Deliveries(types: seq<string>, num: int, answers: map<string, seq<Reply>>): seq<Delivery>
    requires Answered(types, num, answers)
  {
    if types == [] then [] else
    var t := types[|types| - 1];
    Deliveries(types[..|types| - 1], num, answers) + Tagged(t, SessionIds(answers[t], num))
  }

  predicate ErrorFree(types: seq<string>, num: int, answers: map<string, seq<Reply>>)
    requires Answered(types, num, answers)
  {
    forall t :: t in types ==> Completed(answers[t], num) == Pages(num)
  }

  /** The pages a session asks for: those it completes, and the one an error ends it at. */
  function SessionQueries(typ: string, rs: seq<Reply>, num: int): seq<Query>
    requires |rs| >= Pages(num)
  {
    Queries(typ, rs, num, Completed(rs, num) + if Completed(rs, num) < Pages(num) then 1 else 0)
  }

  function TaskQueries(types: seq<string>, num: int, answers: map<string, seq<Reply>>): seq<Query>
    requires Answered(types, num, answers)
  {
    if types == [] then [] else
    var t := types[|types| - 1];
    TaskQueries(types[..|types| - 1], num, answers) + SessionQueries(t, answers[t], num)
  }

  /** A session asks for pages of its own type, of a hundred rows or the rest, each behind the last row before it. */
  lemma QueriesExactly(typ: string, rs: seq<Reply>, num: int, k: nat)
    requires |rs| >= Pages(num) && k < |SessionQueries(typ, rs, num)|
    ensures SessionQueries(typ, rs, num)[k]
         == Query(typ, if num - 100 * k < 100 then num - 100 * k else 100, CursorAfter(rs[..k]))
  {
  }

  /** A task asks for what the sessions of its types ask for, and for nothing else. */
  lemma {:induction false} TaskAsksExactly(types: seq<string>, num: int, answers: map<string, seq<Reply>>, q: Query)
    requires Answered(types, num, answers)
    ensures q in TaskQueries(types, num, answers) <==> q.typ in types && q in SessionQueries(q.typ, answers[q.typ], num)
  {
    if types != [] {
      var front, last := types[..|types| - 1], types[|types| - 1];
      TaskAsksExactly(front, num, answers, q);
      assert q.typ in types <==> q.typ in front || q.typ == last;
      var asked := SessionQueries(last, answers[last], num);
      if q in asked {
        var k :| 0 <= k < |asked| && asked[k] == q;
        QueriesExactly(last, answers[last], num, k);
      }
    }
  }

  /** A session after k completed pages: what it has sent, what it has asked for, where its cursor is. */
  ghost predicate InSession(topic: Topic, typ: string, replies: seq<Reply>, num: int, k: nat,
                            log0: seq<Message>, asked0: seq<Query>, log: seq<Message>, asked: seq<Query>, cursor: int)
    requires |replies| >= Pages(num)
  {
    && k <= Pages(num)
    && CompletedFrom(replies[..Pages(num)], k) == Completed(replies, num)
    && log == log0 + Wire(topic, Tagged(typ, SentIds(replies[..k])))
    && asked == asked0 + Queries(typ, replies, num, k)
    && cursor == CursorAfter(replies[..k])
  }

  lemma StartsEmpty(topic: Topic, typ: string, replies: seq<Reply>, num: int)
    requires |replies| >= Pages(num)
    ensures forall log: seq<Message>, asked: seq<Query> ::
              InSession(topic, typ, replies, num, 0, log, asked, log, asked, 0)
  {
  }

  /** One more page: an error there ends the session with that page asked for, otherwise the session goes on. */
  lemma NextPage(topic: Topic, typ: string, replies: seq<Reply>, num: int, k: nat,
                 log0: seq<Message>, asked0: seq<Query>, log: seq<Message>, asked: seq<Query>, cursor: int)
    requires |replies| >= Pages(num) && k < Pages(num)
    requires InSession(topic, typ, replies, num, k, log0, asked0, log, asked, cursor)
    ensures var r := replies[k];
            var asked' := asked + [Query(typ, LimitAt(num, k), cursor)];
            if r.readErr || r.sendErr
            then Completed(replies, num) == k && log == log0 + Wire(topic, Tagged(typ, SessionIds(replies, num)))
                 && asked' == asked0 + Queries(typ, replies, num, k + 1)
            else InSession(topic, typ, replies, num, k + 1, log0, asked0,
                           log + Wire(topic, Tagged(typ, r.rows)), asked', Moved(cursor, r.rows))
  {
    var r := replies[k];
    assert replies[..k + 1][..k] == replies[..k] && replies[..Pages(num)][k] == r;
    assert Queries(typ, replies, num, k + 1) == Queries(typ, replies, num, k) + [Query(typ, LimitAt(num, k), cursor)];
    assert SentIds(replies[..k + 1]) == SentIds(replies[..k]) + r.rows;
    WireConcat(topic, Tagged(typ, SentIds(replies[..k])), Tagged(typ, r.rows));
    assert Tagged(typ, SentIds(replies[..k + 1])) == Tagged(typ, SentIds(replies[..k])) + Tagged(typ, r.rows);
  }

  lemma WireConcat(topic: Topic, a: seq<Delivery>, b: seq<Delivery>)
    ensures Wire(topic, a + b) == Wire(topic, a) + Wire(topic, b)
  {
  }

  /** A task after its first i types: what it has sent, and whether any of them failed. */
  ghost predicate InTask(topic: Topic, types: seq<string>, num: int, answers: map<string, seq<Reply>>, i: nat,
                         log0: seq<Message>, asked0: seq<Query>, log: seq<Message>, asked: seq<Query>, failed: bool)
    requires Answered(types, num, answers)
  {
    && i <= |types|
    && (failed <==> !ErrorFree(types[..i], num, answers))
    && log == log0 + Wire(topic, Deliveries(types[..i], num, answers))
    && asked == asked0 + TaskQueries(types[..i], num, answers)
  }

  lemma OneMoreType(topic: Topic, types: seq<string>, num: int, answers: map<string, seq<Reply>>, i: nat,
                    log0: seq<Message>, asked0: seq<Query>, log: seq<Message>, asked: seq<Query>, failed: bool)
    requires Answered(types, num, answers) && i < |types|
    requires InTask(topic, types, num, answers, i, log0, asked0, log, asked, failed)
    ensures var t := types[i];
            var err := Completed(answers[t], num) < Pages(num);
            InTask(topic, types, num, answers, i + 1, log0, asked0,
                   log + Wire(topic, Tagged(t, SessionIds(answers[t], num))),
                   asked + SessionQueries(t, answers[t], num), failed || err)
  {
    assert types[..i + 1][..i] == types[..i];
    WireConcat(topic, Deliveries(types[..i], num, answers), Tagged(types[i], SessionIds(answers[types[i]], num)));
  }

  class Producer {
    const dao: DeviceDAO
    const counter: Counter
    var responsibleTypes: seq<string>
    /** The message queue's log. */
    var log: seq<Message>

    constructor (dao: DeviceDAO, counter: Counter, responsibleTypes: seq<string>)
      ensures this.dao == dao && this.counter == counter
      ensures this.responsibleTypes == responsibleTypes && log == []
    {
      this.dao, this.counter, this.responsibleTypes, log := dao, counter, responsibleTypes, [];
    }

    /** What the watching goroutine does with the keys it receives. */
    method OnResponsibleTypes(types: seq<string>)
      modifies this`responsibleTypes
      ensures responsibleTypes == types
    {
      responsibleTypes := types;
    }

    /** All of the batch, or none of it. */
    method SendMessages(msgs: seq<Message>, fails: bool) returns (err: bool)
      modifies this`log
      ensures err == fails && log == if fails then old(log) else old(log) + msgs
    {
      if !fails {
        log := log + msgs;
      }
      err := fails;
    }

    /** One page: read it, turn it into messages, send them. */
    method ReadAndSendPage(topic: Topic, deviceTyp: string, limit: int, reply: Reply, cursor: Cursor)
      returns (err: bool)
      modifies this`log, dao, cursor
      ensures err == (reply.readErr || reply.sendErr)
      ensures log == if err then old(log) else old(log) + Wire(topic, Tagged(deviceTyp, reply.rows))
      ensures dao.asked == old(dao.asked) + [Query(deviceTyp, limit, old(cursor.data))]
      ensures cursor.data == Moved(old(cursor.data), reply.rows)
    {
      var devices, readErr := dao.FindDevicesPage(deviceTyp, limit, reply, cursor);
      if readErr { return true; }
      var msgs := [];
      for j := 0 to |devices|
        invariant msgs == Wire(topic, Tagged(deviceTyp, reply.rows[..j]))
      {
        msgs := msgs + [Message(topic, devices[j])];
      }
      assert reply.rows[..|devices|] == reply.rows;
      err := SendMessages(msgs, reply.sendErr);
    }

    method ReadAndSend(topic: Topic, deviceTyp: string, num: int, replies: seq<Reply>) returns (err: bool)
      requires |replies| >= Pages(num)
      modifies this`log, dao
      ensures err <==> Completed(replies, num) < Pages(num)
      ensures log == old(log) + Wire(topic, Tagged(deviceTyp, SessionIds(replies, num)))
      ensures dao.asked == old(dao.asked) + SessionQueries(deviceTyp, replies, num)
    {
      ghost var log0, asked0 := log, dao.asked;
      var i, k := 0, 0;
      var cursor := new Cursor();
      StartsEmpty(topic, deviceTyp, replies, num);
      err := false;
      while i < num
        invariant i == 100 * k && 0 <= k <= Pages(num) && !err
        invariant InSession(topic, deviceTyp, replies, num, k, log0, asked0, log, dao.asked, cursor.data)
        decreases num - i
      {
        var limit := if num - i < BATCH then num - i else BATCH;
        NextPage(topic, deviceTyp, replies, num, k, log0, asked0, log, dao.asked, cursor.data);
        err := ReadAndSendPage(topic, deviceTyp, limit, replies[k], cursor);
        if err { return; }
        i := i + BATCH;
        k := k + 1;
      }
    }

    /** Every type is read and sent to the end or to its own error, whatever happens to the others. */
    method ProduceTypes(cfg: PushConfig, types: seq<string>, answers: map<string, seq<Reply>>) returns (failed: bool)
      requires Answered(types, cfg.num, answers)
      modifies this`log, dao
      ensures failed <==> !ErrorFree(types, cfg.num, answers)
      ensures log == old(log) + Wire(cfg.topic, Deliveries(types, cfg.num, answers))
      ensures dao.asked == old(dao.asked) + TaskQueries(types, cfg.num, answers)
    {
      failed := false;
      ghost var log0, asked0 := log, dao.asked;
      var i := 0;
      while i < |types|
        invariant InTask(cfg.topic, types, cfg.num, answers, i, log0, asked0, log, dao.asked, failed)
      {
        OneMoreType(cfg.topic, types, cfg.num, answers, i, log0, asked0, log, dao.asked, failed);
        var err := ReadAndSend(cfg.topic, types[i], cfg.num, answers[types[i]]);
        if err {
          failed := true;
        }
        i := i + 1;
      }
      assert types[..i] == types;
    }

    method DoTask(cfg: PushConfig, answers: map<string, seq<Reply>>) returns (failed: bool)
      requires Answered(InterSet(responsibleTypes, cfg.deviceTypeList), cfg.num, answers)
      modifies this`log, dao, counter
      ensures var types := InterSet(responsibleTypes, cfg.deviceTypeList);
              && (failed <==> !ErrorFree(types, cfg.num, answers))
              && log == old(log) + Wire(cfg.topic, Deliveries(types, cfg.num, answers))
              && dao.asked == old(dao.asked) + TaskQueries(types, cfg.num, answers)
              && counter.hopeCount == old(counter.hopeCount) + (if failed then 0 else |types| * cfg.num)
              && counter.pushedCount == old(counter.pushedCount)
    {
      var produceTypes := InterSet(responsibleTypes, cfg.deviceTypeList);
      failed := ProduceTypes(cfg, produceTypes, answers);
      if !failed {
        counter.AddHopeCount(|produceTypes| * cfg.num);
      }
    }
  }
}
