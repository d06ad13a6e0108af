/**
 * The service registry as a log of puts and deletes read by key prefix, and the view of the
 * pods that one pod keeps by listing once and then following the events.
 */
module ServiceRegistry {
  import opened Common
  import opened ConsistentHashing
  import opened Claims

  datatype Instance = Instance(address: string, serviceName: string, weight: nat, note: string)

  function InstanceKey(ins: Instance): string { ins.serviceName + "/" + ins.address }

  datatype Op = Put(key: string, ins: Instance) | Delete(key: string)

  /** The key-value content after the log; a revision is a length of the log. */
  function Store(log: seq<Op>): map<string, Instance> {
    if log == [] then map[] else
    var before := Store(log[..|log| - 1]);
    match log[|log| - 1]
    case Put(key, ins) => before[key := ins]
    case Delete(key) => before - {key}
  }

  /** A prefix read: Dafny's `<=` on strings is "is a prefix of". */
  function Matching(store: map<string, Instance>, prefix: string): set<string> {
    set k | k in store && prefix <= k
  }

  /** A prefix read returns the keys that begin with the prefix, the prefix itself among them. */
  lemma MatchingExactly(store: map<string, Instance>, prefix: string, rest: string)
    ensures prefix + rest in Matching(store, prefix) <==> prefix + rest in store
    ensures forall k :: k in Matching(store, prefix) ==> k in store && |k| >= |prefix| && k[..|prefix|] == prefix
  {
    assert prefix <= prefix + rest;
  }

  datatype EventKind = PutKind | DeleteKind

  /** What the watch delivers; a delete carries no value. */
  datatype RawEvent = RawEvent(kind: EventKind, value: Option<Instance>)

  datatype Event = UnknownEvent | PutEvent(ins: Instance) | DeleteEvent(ins: Instance)

  /** A value that does not decode becomes an event that means nothing. */
  function Decode(raw: RawEvent): Event {
    match raw.value
    case None => UnknownEvent
    case Some(ins) => if raw.kind.PutKind? then PutEvent(ins) else DeleteEvent(ins)
  }

  /** Only an event with a value that decodes means something. */
  lemma DecodeExactly(ins: Instance, kind: EventKind)
    ensures Decode(RawEvent(kind, None)) == UnknownEvent
    ensures Decode(RawEvent(PutKind, Some(ins))) == PutEvent(ins)
    ensures Decode(RawEvent(DeleteKind, Some(ins))) == DeleteEvent(ins)
  {
  }

  function RawEventsOf(before: map<string, Instance>, op: Op, prefix: string): seq<RawEvent> {
    if !(prefix <= op.key) then [] else
    match op
    case Put(_, ins) => [RawEvent(PutKind, Some(ins))]
    case Delete(key) => if key in before then [RawEvent(DeleteKind, None)] else []
  }

  /** A watch delivers one event for a put or an effective delete under its prefix, and a delete without a value. */
  lemma RawEventsExactly(before: map<string, Instance>, op: Op, prefix: string)
    ensures |RawEventsOf(before, op, prefix)|
         == if prefix <= op.key && (op.Put? || op.key in before) then 1 else 0
    ensures forall raw :: raw in RawEventsOf(before, op, prefix) ==>
              raw == if op.Put? then RawEvent(PutKind, Some(op.ins)) else RawEvent(DeleteKind, None)
  {
  }

  function DecodeAll(raws: seq<RawEvent>): seq<Event> {
    seq(|raws|, i requires 0 <= i < |raws| => Decode(raws[i]))
  }

  /** What a subscription opened at revision `from` has delivered once the log has grown to `log`. */
  function EventsSince(log: seq<Op>, from: nat, prefix: string): seq<Event> {
    if |log| <= from then [] else
    var front := log[..|log| - 1];
    EventsSince(front, from, prefix) + DecodeAll(RawEventsOf(Store(front), log[|log| - 1], prefix))
  }

  class Registry {
    var log: seq<Op>

    constructor ()
      ensures log == []
    {
      log := [];
    }

    method Register(ins: Instance)
      modifies this
      ensures log == old(log) + [Put(ins.serviceName + "/" + ins.address, ins)]
      ensures Store(log) == Store(old(log))[ins.serviceName + "/" + ins.address := ins]
    {
      log := log + [Put(InstanceKey(ins), ins)];
    }

    method UnRegister(ins: Instance)
      modifies this
      ensures log == old(log) + [Delete(ins.serviceName + "/" + ins.address)]
      ensures Store(log) == Store(old(log)) - {ins.serviceName + "/" + ins.address}
    {
      log := log + [Delete(InstanceKey(ins))];
    }

    /** Every instance under the prefix, once per key. */
    method ListService(serviceName: string) returns (instances: seq<Instance>)
      ensures Lists(instances, Store(log), serviceName)
      ensures Names(AddressesOf(instances)) == Live(log, serviceName)
    {
      instances := ReadPrefix(Store(log), serviceName);
    }
  }

  /** The instances stored under these keys, in this order. */
  function InstancesAt(store: map<string, Instance>, keys: seq<string>): seq<Instance>
    requires forall k :: k in keys ==> k in store
  {
    seq(|keys|, i requires 0 <= i < |keys| => store[keys[i]])
  }

  /** The instances are those of the keys with the prefix, each key once. */
  ghost predicate Lists(instances: seq<Instance>, store: map<string, Instance>, prefix: string) {
    exists keys: seq<string> ::
      Distinct(keys) && Names(keys) == Matching(store, prefix)
      && (forall k :: k in keys ==> k in store) && instances == InstancesAt(store, keys)
  }

  method ReadPrefix(kvs: map<string, Instance>, prefix: string) returns (instances: seq<Instance>)
    ensures Lists(instances, kvs, prefix)
    ensures Names(AddressesOf(instances)) == Addresses(kvs, prefix)
  {
    var todo := Matching(kvs, prefix);
    ghost var keys: seq<string> := [];
    instances := [];
    while todo != {}
      invariant todo <= Matching(kvs, prefix)
      invariant Distinct(keys) && Names(keys) == Matching(kvs, prefix) - todo
      invariant forall k :: k in keys ==> k in kvs && k !in todo
      invariant instances == InstancesAt(kvs, keys)
      decreases |todo|
    {
      var k :| k in todo;
      OneMoreKey(kvs, prefix, keys, todo, k);
      instances := instances + [kvs[k]];
      keys := keys + [k];
      todo := todo - {k};
    }
    ListedAddresses(kvs, prefix, keys);
  }

  lemma OneMoreKey(kvs: map<string, Instance>, prefix: string, keys: seq<string>, todo: set<string>, k: string)
    requires todo <= Matching(kvs, prefix) && k in todo
    requires Distinct(keys) && Names(keys) == Matching(kvs, prefix) - todo
    requires forall other :: other in keys ==> other in kvs && other !in todo
    ensures Distinct(keys + [k]) && Names(keys + [k]) == Matching(kvs, prefix) - (todo - {k})
    ensures forall other :: other in keys + [k] ==> other in kvs && other !in todo - {k}
    ensures InstancesAt(kvs, keys + [k]) == InstancesAt(kvs, keys) + [kvs[k]]
  {
    assert Names(keys + [k]) == Names(keys) + {k};
    forall i | 0 <= i < |keys| ensures keys[i] != k {
      assert keys[i] in keys;
    }
  }

  lemma {:induction false} AddressesOfKeys(kvs: map<string, Instance>, keys: seq<string>, a: string)
    requires forall k :: k in keys ==> k in kvs
    ensures a in AddressesOf(InstancesAt(kvs, keys)) <==> exists k :: k in keys && kvs[k].address == a
  {
    if keys != [] {
      var front, last := keys[..|keys| - 1], keys[|keys| - 1];
      assert InstancesAt(kvs, keys)[..|keys| - 1] == InstancesAt(kvs, front);
      AddressesOfKeys(kvs, front, a);
      assert forall k :: k in keys <==> k in front || k == last;
    }
  }

  lemma ListedAddresses(kvs: map<string, Instance>, prefix: string, keys: seq<string>)
    requires Names(keys) == Matching(kvs, prefix) && forall k :: k in keys ==> k in kvs
    ensures Names(AddressesOf(InstancesAt(kvs, keys))) == Addresses(kvs, prefix)
  {
    assert forall k :: k in keys <==> k in Names(keys);
    forall a ensures a in AddressesOf(InstancesAt(kvs, keys)) <==> a in Addresses(kvs, prefix) {
      AddressesOfKeys(kvs, keys, a);
    }
  }

  function AddressesOf(instances: seq<Instance>): seq<string> {
    if instances == [] then [] else AddressesOf(instances[..|instances| - 1]) + [instances[|instances| - 1].address]
  }

  function Addresses(store: map<string, Instance>, prefix: string): set<string> {
    set k | k in Matching(store, prefix) :: store[k].address
  }

  /** The addresses a listing returns. */
  function Live(log: seq<Op>, prefix: string): set<string> { Addresses(Store(log), prefix) }

  // ---------------------------------------------------------------- registrations

  datatype Call = Registers(ins: Instance) | Unregisters(ins: Instance)

  /** What the calls write to the log. */
  function LogOf(calls: seq<Call>): seq<Op> {
    if calls == [] then [] else
    var last := calls[|calls| - 1];
    LogOf(calls[..|calls| - 1])
      + [if last.Registers? then Put(InstanceKey(last.ins), last.ins) else Delete(InstanceKey(last.ins))]
  }

  method Perform(r: Registry, calls: seq<Call>)
    modifies r
    ensures r.log == old(r.log) + LogOf(calls)
  {
    var i := 0;
    while i < |calls|
      invariant 0 <= i <= |calls| && r.log == old(r.log) + LogOf(calls[..i])
    {
      assert calls[..i + 1][..i] == calls[..i];
      match calls[i] {
        case Registers(ins) => r.Register(ins);
        case Unregisters(ins) => r.UnRegister(ins);
      }
      i := i + 1;
    }
    assert calls[..i] == calls;
  }

  predicate About(call: Call, service: string, address: string) {
    call.ins.serviceName == service && call.ins.address == address
  }

  /** A registration of the address under the service that no later call takes back. */
  predicate Registered(calls: seq<Call>, service: string, address: string) {
    exists i :: 0 <= i < |calls| && calls[i].Registers? && About(calls[i], service, address)
             && forall j :: i < j < |calls| && About(calls[j], service, address) ==> calls[j].Registers?
  }

  /** A service name has no slash. */
  predicate Plain(name: string) { '/' !in name }

  ghost predicate PlainCalls(calls: seq<Call>) {
    forall i :: 0 <= i < |calls| ==> Plain(calls[i].ins.serviceName)
  }

  lemma RegisteredStep(calls: seq<Call>, call: Call, service: string, address: string)
    ensures Registered(calls + [call], service, address)
       <==> if About(call, service, address) then call.Registers? else Registered(calls, service, address)
  {
    var all := calls + [call];
    assert all[|calls|] == call;
    if Registered(calls, service, address) && (About(call, service, address) ==> call.Registers?) {
      var i :| 0 <= i < |calls| && calls[i].Registers? && About(calls[i], service, address)
            && forall j :: i < j < |calls| && About(calls[j], service, address) ==> calls[j].Registers?;
      assert all[i] == calls[i];
    }
    if !About(call, service, address) && Registered(all, service, address) {
      var i :| 0 <= i < |all| && all[i].Registers? && About(all[i], service, address)
            && forall j :: i < j < |all| && About(all[j], service, address) ==> all[j].Registers?;
      assert calls[i] == all[i];
      assert forall j :: i < j < |calls| ==> calls[j] == all[j];
    }
  }

  lemma NoSlash(s: string)
    requires Plain(s)
    ensures forall i :: 0 <= i < |s| ==> s[i] != '/'
  {
    forall i | 0 <= i < |s| ensures s[i] != '/' { assert s[i] in s; }
  }

  /** The key tells service and address. */
  lemma KeyTells(s: string, a: string, t: string, b: string)
    requires Plain(s) && Plain(t) && s + "/" + a == t + "/" + b
    ensures s == t && a == b
  {
    var k, l := s + "/" + a, t + "/" + b;
    NoSlash(s);
    NoSlash(t);
    assert k[..|s|] == s && l[..|t|] == t;
    assert k[|s|] == '/' && l[|t|] == '/';
    assert forall i :: 0 <= i < |s| ==> k[i] != '/';
    assert forall i :: 0 <= i < |t| ==> l[i] != '/';
    assert k[|s| + 1..] == a && l[|t| + 1..] == b;
  }

  /** A plain name is a prefix of a key exactly if it is one of the service's name. */
  lemma PrefixTells(s: string, t: string, a: string)
    requires Plain(s)
    ensures s <= t + "/" + a <==> s <= t
  {
    var key := t + "/" + a;
    NoSlash(s);
    assert key[..|t|] == t && key[|t|] == '/';
    if s <= key {
      assert forall i :: 0 <= i < |s| ==> s[i] == key[i];
      assert |s| <= |t|;
      assert s == key[..|s|] == t[..|s|];
    }
  }

  lemma CallsLast(calls: seq<Call>, call: Call)
    ensures LogOf(calls + [call])
         == LogOf(calls)
            + [if call.Registers? then Put(InstanceKey(call.ins), call.ins) else Delete(InstanceKey(call.ins))]
    ensures Store(LogOf(calls + [call]))
         == if call.Registers? then Store(LogOf(calls))[InstanceKey(call.ins) := call.ins]
            else Store(LogOf(calls)) - {InstanceKey(call.ins)}
  {
    assert (calls + [call])[..|calls|] == calls;
    var log := LogOf(calls + [call]);
    assert log[..|log| - 1] == LogOf(calls);
  }

  /** What is stored under a service and an address: an instance with both, if the last such call registered it. */
  lemma {:induction false} StoredExactly(calls: seq<Call>, service: string, address: string)
    requires PlainCalls(calls) && Plain(service)
    ensures var store, key := Store(LogOf(calls)), service + "/" + address;
            && (key in store <==> Registered(calls, service, address))
            && (key in store ==> store[key].serviceName == service && store[key].address == address)
  {
    if calls != [] {
      var front, last := calls[..|calls| - 1], calls[|calls| - 1];
      assert calls == front + [last];
      StoredExactly(front, service, address);
      RegisteredStep(front, last, service, address);
      CallsLast(front, last);
      if last.ins.serviceName + "/" + last.ins.address == service + "/" + address {
        KeyTells(last.ins.serviceName, last.ins.address, service, address);
      }
    }
  }

  /** Every key is that of its instance. */
  lemma {:induction false} KeysTell(calls: seq<Call>, key: string)
    requires PlainCalls(calls) && key in Store(LogOf(calls))
    ensures var ins := Store(LogOf(calls))[key];
            key == ins.serviceName + "/" + ins.address && Plain(ins.serviceName)
  {
    var front, last := calls[..|calls| - 1], calls[|calls| - 1];
    assert calls == front + [last];
    CallsLast(front, last);
    if last.Unregisters? || key != InstanceKey(last.ins) { KeysTell(front, key); }
  }

  /**
   * After any registrations and unregistrations the listing of a service has exactly the addresses whose
   * last call was a registration - under the service, or under a name that the service is a prefix of.
   */
  lemma ListingExactly(calls: seq<Call>, service: string, address: string)
    requires PlainCalls(calls) && Plain(service)
    ensures address in Live(LogOf(calls), service) <==>
              exists t :: Plain(t) && service <= t && Registered(calls, t, address)
  {
    var store := Store(LogOf(calls));
    if address in Live(LogOf(calls), service) {
      var key :| key in Matching(store, service) && store[key].address == address;
      KeysTell(calls, key);
      var t := store[key].serviceName;
      StoredExactly(calls, t, address);
      PrefixTells(service, t, address);
      assert Plain(t) && service <= t && Registered(calls, t, address);
    }
    if t :| Plain(t) && service <= t && Registered(calls, t, address) {
      StoredExactly(calls, t, address);
      PrefixTells(service, t, address);
      assert t + "/" + address in Matching(store, service);
    }
  }

  /** No call is under a longer name that begins like the service's. */
  predicate Alone(calls: seq<Call>, service: string) {
    forall i :: 0 <= i < |calls| && service <= calls[i].ins.serviceName ==> calls[i].ins.serviceName == service
  }

  /** With no such name, they are exactly the service's own addresses. */
  lemma OwnListingExactly(calls: seq<Call>, service: string, address: string)
    requires PlainCalls(calls) && Plain(service) && Alone(calls, service)
    ensures address in Live(LogOf(calls), service) <==> Registered(calls, service, address)
  {
    ListingExactly(calls, service, address);
    if t :| Plain(t) && service <= t && Registered(calls, t, address) {
      var i :| 0 <= i < |calls| && calls[i].Registers? && About(calls[i], t, address);
      assert calls[i].ins.serviceName == service;
    }
  }

  /**
   * A listing is the service's own exactly when whatever is registered under a longer name that begins
   * like it is registered under the service as well.
   */
  lemma ListingIsOwnExactly(calls: seq<Call>, service: string)
    requires PlainCalls(calls) && Plain(service)
    ensures (forall a :: a in Live(LogOf(calls), service) <==> Registered(calls, service, a))
       <==> forall t, a :: Plain(t) && service <= t && Registered(calls, t, a) ==> Registered(calls, service, a)
  {
    forall a ensures a in Live(LogOf(calls), service) <==>
                       exists t :: Plain(t) && service <= t && Registered(calls, t, a) {
      ListingExactly(calls, service, a);
    }
    assert service <= service;
  }

  lemma ListingAfterCall(calls: seq<Call>, call: Call, address: string)
    requires PlainCalls(calls) && Plain(call.ins.serviceName) && Alone(calls, call.ins.serviceName)
    ensures var before := Live(LogOf(calls), call.ins.serviceName);
            var after := Live(LogOf(calls + [call]), call.ins.serviceName);
            address in after <==> if address == call.ins.address then call.Registers? else address in before
  {
    OwnListingExactly(calls, call.ins.serviceName, address);
    OwnListingExactly(calls + [call], call.ins.serviceName, address);
    RegisteredStep(calls, call, call.ins.serviceName, address);
  }

  /** A registration makes its own address live and leaves every other one as it was. */
  lemma RegistrationAdds(calls: seq<Call>, ins: Instance)
    requires PlainCalls(calls) && Plain(ins.serviceName) && Alone(calls, ins.serviceName)
    ensures Live(LogOf(calls + [Registers(ins)]), ins.serviceName)
         == Live(LogOf(calls), ins.serviceName) + {ins.address}
  {
    var before, after := Live(LogOf(calls), ins.serviceName), Live(LogOf(calls + [Registers(ins)]), ins.serviceName);
    forall a ensures a in after <==> a in before || a == ins.address {
      ListingAfterCall(calls, Registers(ins), a);
    }
  }

  /** An unregistration takes away its own address and no other. */
  lemma UnregistrationTakesAway(calls: seq<Call>, ins: Instance)
    requires PlainCalls(calls) && Plain(ins.serviceName) && Alone(calls, ins.serviceName)
    ensures Live(LogOf(calls + [Unregisters(ins)]), ins.serviceName)
         == Live(LogOf(calls), ins.serviceName) - {ins.address}
  {
    var before, after := Live(LogOf(calls), ins.serviceName), Live(LogOf(calls + [Unregisters(ins)]), ins.serviceName);
    forall a ensures a in after <==> a in before && a != ins.address {
      ListingAfterCall(calls, Unregisters(ins), a);
    }
  }

  // ---------------------------------------------------------------- the watching pod

  datatype Arrival = Arrival(event: Event, receiving: bool)

  function Noted(nodes: set<string>, e: Event): set<string> {
    match e
    case PutEvent(ins) => nodes + {ins.address}
    case DeleteEvent(ins) => nodes - {ins.address}
    case UnknownEvent => nodes
  }

  function ViewAfter(nodes: set<string>, events: seq<Event>): set<string> {
    if events == [] then nodes else Noted(ViewAfter(nodes, events[..|events| - 1]), events[|events| - 1])
  }

  predicate Deletes(e: Event, a: string) { e.DeleteEvent? && e.ins.address == a }

  predicate Puts(e: Event, a: string) { e.PutEvent? && e.ins.address == a }

  predicate Undeleted(events: seq<Event>, a: string) {
    forall j :: 0 <= j < |events| ==> !Deletes(events[j], a)
  }

  /** Some event puts the address, and none deletes it after that. */
  predicate PutToStay(events: seq<Event>, a: string) {
    exists i :: 0 <= i < |events| && Puts(events[i], a) && Undeleted(events[i + 1..], a)
  }

  lemma PutToStayStep(events: seq<Event>, e: Event, a: string)
    ensures PutToStay(events + [e], a) <==> Puts(e, a) || (PutToStay(events, a) && !Deletes(e, a))
    ensures Undeleted(events + [e], a) <==> Undeleted(events, a) && !Deletes(e, a)
  {
    var all := events + [e];
    assert all[|events|] == e && all[|events| + 1..] == [];
    forall i | 0 <= i < |events|
      ensures all[i] == events[i] && (Undeleted(all[i + 1..], a) <==> Undeleted(events[i + 1..], a) && !Deletes(e, a))
    {
      UndeletedLast(events[i + 1..], e, a);
      assert all[i + 1..] == events[i + 1..] + [e];
    }
    UndeletedLast(events, e, a);
  }

  lemma UndeletedLast(events: seq<Event>, e: Event, a: string)
    ensures Undeleted(events + [e], a) <==> Undeleted(events, a) && !Deletes(e, a)
  {
    var all := events + [e];
    assert all[|events|] == e;
    assert forall j :: 0 <= j < |events| ==> all[j] == events[j];
  }

  /** An address is in the view exactly if it was there, or was put, and no event has deleted it since. */
  lemma {:induction false} ViewExactly(nodes: set<string>, events: seq<Event>, a: string)
    ensures a in ViewAfter(nodes, events) <==> (a in nodes && Undeleted(events, a)) || PutToStay(events, a)
  {
    if events != [] {
      var front, last := events[..|events| - 1], events[|events| - 1];
      assert events == front + [last];
      ViewExactly(nodes, front, a);
      PutToStayStep(front, last, a);
    }
  }

  function EventsIn(arrivals: seq<Arrival>): seq<Event> {
    seq(|arrivals|, i requires 0 <= i < |arrivals| => arrivals[i].event)
  }

  method WatchNodes(c: ConsistentHash, arrivals: seq<Arrival>)
    requires c.Valid()
    modifies c
    ensures c.Valid() && c.nodes == ViewAfter(old(c.nodes), EventsIn(arrivals))
  {
    var i := 0;
    while i < |arrivals|
      invariant 0 <= i <= |arrivals|
      invariant c.Valid() && c.nodes == ViewAfter(old(c.nodes), EventsIn(arrivals[..i]))
    {
      assert EventsIn(arrivals[..i + 1]) == EventsIn(arrivals[..i]) + [arrivals[i].event];
      match arrivals[i].event {
        case PutEvent(ins) => c.OnAddNode(ins.address, arrivals[i].receiving);
        case DeleteEvent(ins) => c.OnDelNode(ins.address, arrivals[i].receiving);
        case UnknownEvent =>
      }
      i := i + 1;
    }
    assert arrivals[..|arrivals|] == arrivals;
  }

  /** The addresses put under the prefix from revision `from` on. */
  function PutSince(log: seq<Op>, from: nat, prefix: string): set<string> {
    if |log| <= from then {} else
    var last := log[|log| - 1];
    PutSince(log[..|log| - 1], from, prefix) + PutBy(last, prefix)
  }

  lemma ViewAppend(nodes: set<string>, events: seq<Event>, more: seq<Event>)
    requires |more| <= 1
    ensures ViewAfter(nodes, events + more) == ViewAfter(ViewAfter(nodes, events), more)
  {
    if more == [] {
      assert events + more == events;
    } else {
      assert (events + more)[..|events|] == events && more[..0] == [];
    }
  }

  /** The address that an operation puts under the prefix, if it does. */
  function PutBy(op: Op, prefix: string): set<string> {
    if op.Put? && prefix <= op.key then {op.ins.address} else {}
  }

  lemma OneEvent(nodes: set<string>, e: Event)
    ensures ViewAfter(nodes, [e]) == Noted(nodes, e)
  {
    assert [e][..0] == [];
  }

  /** What a watching pod makes of one operation: a put adds its address, and a delete changes nothing. */
  lemma OneOperation(nodes: set<string>, before: map<string, Instance>, op: Op, prefix: string)
    ensures var events := DecodeAll(RawEventsOf(before, op, prefix));
            |events| <= 1 && ViewAfter(nodes, events) == nodes + PutBy(op, prefix)
  {
    var raws := RawEventsOf(before, op, prefix);
    if raws != [] {
      OneEvent(nodes, Decode(raws[0]));
      assert DecodeAll(raws) == [Decode(raws[0])];
    }
  }

  /** No delete ever reaches the view: it is what was there, plus every address put since the subscription. */
  lemma {:induction false} ViewOnlyGrows(nodes: set<string>, log: seq<Op>, from: nat, prefix: string)
    ensures ViewAfter(nodes, EventsSince(log, from, prefix)) == nodes + PutSince(log, from, prefix)
  {
    if |log| > from {
      var front, last := log[..|log| - 1], log[|log| - 1];
      ViewOnlyGrows(nodes, front, from, prefix);
      OneOperation(ViewAfter(nodes, EventsSince(front, from, prefix)), Store(front), last, prefix);
      ViewAppend(nodes, EventsSince(front, from, prefix), DecodeAll(RawEventsOf(Store(front), last, prefix)));
    }
  }

  lemma {:induction false} LiveFromListing(log: seq<Op>, from: nat, prefix: string)
    requires from <= |log|
    ensures Live(log, prefix) <= Live(log[..from], prefix) + PutSince(log, from, prefix)
  {
    if |log| == from {
      assert log[..from] == log;
    } else {
      var front := log[..|log| - 1];
      LiveFromListing(front, from, prefix);
      assert front[..from] == log[..from];
      forall a | a in Live(log, prefix)
        ensures a in Live(log[..from], prefix) + PutSince(log, from, prefix)
      {
        var k :| k in Matching(Store(log), prefix) && Store(log)[k].address == a;
        if !(log[|log| - 1].Put? && log[|log| - 1].key == k) {
          assert k in Matching(Store(front), prefix) && Store(front)[k].address == a;
          assert a in Live(front, prefix);
        }
      }
    }
  }

  /**
   * Listing and subscription at one revision, any number of events consumed: the view has
   * every live address, and equals the live listing exactly when no address that was listed
   * or put since has gone.
   */
  lemma ConservativeCache(log: seq<Op>, from: nat, prefix: string)
    requires from <= |log|
    ensures var listed := Live(log[..from], prefix);
            var view := ViewAfter(listed, EventsSince(log, from, prefix));
            && view == listed + PutSince(log, from, prefix)
            && Live(log, prefix) <= view
            && (view == Live(log, prefix) <==>
                 forall a :: a in listed || a in PutSince(log, from, prefix) ==> a in Live(log, prefix))
  {
    ViewOnlyGrows(Live(log[..from], prefix), log, from, prefix);
    LiveFromListing(log, from, prefix);
  }

  /** A subscription opened later than the listing misses exactly the live addresses put only in between. */
  lemma GapMissesExactly(log: seq<Op>, listing: nat, subscription: nat, prefix: string)
    requires listing <= subscription <= |log|
    ensures var listed := Live(log[..listing], prefix);
            var view := ViewAfter(listed, EventsSince(log, subscription, prefix));
            Live(log, prefix) <= view <==>
              forall a :: a in Live(log, prefix) && a in PutSince(log[..subscription], listing, prefix) ==>
                a in listed || a in PutSince(log, subscription, prefix)
  {
    ViewOnlyGrows(Live(log[..listing], prefix), log, subscription, prefix);
    LiveFromListing(log, listing, prefix);
    PutSplits(log, listing, subscription, prefix);
  }

  lemma {:induction false} PutSplits(log: seq<Op>, a: nat, b: nat, prefix: string)
    requires a <= b <= |log|
    ensures PutSince(log, a, prefix) == PutSince(log[..b], a, prefix) + PutSince(log, b, prefix)
  {
    if |log| == b {
      assert log[..b] == log;
    } else {
      PutSplits(log[..|log| - 1], a, b, prefix);
      assert log[..|log| - 1][..b] == log[..b];
    }
  }

  // ---------------------------------------------------------------- a pod that lists again

  /** What a pod does about its node view: hear of the next operation, or list again, with or without success. */
  datatype Look = Hear | List(at: nat) | ListFails

  /** The view, and the position in the log up to which the events have been consumed. */
  datatype Watcher = Watcher(view: set<string>, heard: nat)

  function HeardAfter(heard: nat, looks: seq<Look>): (h: nat)
    ensures h >= heard
  {
    if looks == [] then heard
    else HeardAfter(heard, looks[..|looks| - 1]) + if looks[|looks| - 1].Hear? then 1 else 0
  }

  predicate Possible(log: seq<Op>, heard: nat, looks: seq<Look>) {
    && HeardAfter(heard, looks) <= |log|
    && forall i :: 0 <= i < |looks| && looks[i].List? ==> looks[i].at <= |log|
  }

  function Looked(log: seq<Op>, prefix: string, w: Watcher, look: Look): Watcher
    requires look.Hear? ==> w.heard < |log|
    requires look.List? ==> look.at <= |log|
  {
    match look
    case Hear =>
      var events := DecodeAll(RawEventsOf(Store(log[..w.heard]), log[w.heard], prefix));
      Watcher(ViewAfter(w.view, events), w.heard + 1)
    case List(at) => w.(view := Live(log[..at], prefix))
    case ListFails => w.(view := {})
  }

  function After(log: seq<Op>, prefix: string, start: Watcher, looks: seq<Look>): (w: Watcher)
    requires Possible(log, start.heard, looks)
    ensures w.heard == HeardAfter(start.heard, looks)
  {
    if looks == [] then start
    else Looked(log, prefix, After(log, prefix, start, looks[..|looks| - 1]), looks[|looks| - 1])
  }

  /** Both goroutines of the hash at work: the events one by one, and the listing that sets the nodes anew. */
  method Watch(c: ConsistentHash, log: seq<Op>, prefix: string, subscription: nat,
               looks: seq<Look>, receiving: seq<bool>)
    requires c.Valid() && Possible(log, subscription, looks) && |receiving| == |looks|
    modifies c
    ensures c.Valid() && c.nodes == After(log, prefix, Watcher(old(c.nodes), subscription), looks).view
  {
    ghost var start := Watcher(c.nodes, subscription);
    var i, heard := 0, subscription;
    while i < |looks|
      invariant 0 <= i <= |looks| && c.Valid() && Possible(log, subscription, looks[..i])
      invariant Watcher(c.nodes, heard) == After(log, prefix, start, looks[..i])
    {
      PossibleUpTo(log, subscription, looks, i + 1);
      assert looks[..i + 1][..i] == looks[..i] && looks[..i + 1][i] == looks[i];
      heard := LookOnce(c, log, prefix, heard, looks[i], receiving[i]);
      i := i + 1;
    }
    assert looks[..i] == looks;
  }

  method LookOnce(c: ConsistentHash, log: seq<Op>, prefix: string, heard: nat, look: Look, receiving: bool)
    returns (now: nat)
    requires c.Valid() && (look.Hear? ==> heard < |log|) && (look.List? ==> look.at <= |log|)
    modifies c
    ensures c.Valid() && Watcher(c.nodes, now) == Looked(log, prefix, Watcher(old(c.nodes), heard), look)
  {
    now := heard;
    match look {
      case Hear =>
        var events := DecodeAll(RawEventsOf(Store(log[..heard]), log[heard], prefix));
        var arrivals := seq(|events|, i requires 0 <= i < |events| => Arrival(events[i], receiving));
        assert EventsIn(arrivals) == events;
        WatchNodes(c, arrivals);
        now := heard + 1;
      case List(at) =>
        var instances := ReadPrefix(Store(log[..at]), prefix);
        c.SetNodes(AddressesOf(instances), receiving);
      case ListFails =>
        c.SetNodes([], receiving);
    }
  }

  lemma {:induction false} HeardRises(heard: nat, looks: seq<Look>, i: nat)
    requires i <= |looks|
    ensures HeardAfter(heard, looks[..i]) <= HeardAfter(heard, looks)
    decreases |looks|
  {
    if i == |looks| {
      assert looks[..i] == looks;
    } else {
      HeardRises(heard, looks[..|looks| - 1], i);
      assert looks[..|looks| - 1][..i] == looks[..i];
    }
  }

  lemma PossibleUpTo(log: seq<Op>, heard: nat, looks: seq<Look>, i: nat)
    requires Possible(log, heard, looks) && i <= |looks|
    ensures Possible(log, heard, looks[..i])
  {
    HeardRises(heard, looks, i);
    assert forall k :: 0 <= k < i ==> looks[..i][k] == looks[k];
  }

  /** A listing: what it returned, if anything, and how far the events had been consumed when it took effect. */
  datatype Listing = Listing(at: Option<nat>, heard: nat)

  function LastListing(first: Listing, looks: seq<Look>, heard: nat): Listing {
    if looks == [] then first else
    var front := looks[..|looks| - 1];
    match looks[|looks| - 1]
    case Hear => LastListing(first, front, heard)
    case List(at) => Listing(Some(at), HeardAfter(heard, front))
    case ListFails => Listing(None, HeardAfter(heard, front))
  }

  /** A pod's life as far as its node view goes, from the first listing and the subscription on. */
  datatype Life = Life(log: seq<Op>, listing: nat, subscription: nat, looks: seq<Look>)

  predicate Lived(life: Life) {
    life.listing <= |life.log| && Possible(life.log, life.subscription, life.looks)
  }

  function Heard(life: Life): nat { HeardAfter(life.subscription, life.looks) }

  function Last(life: Life): Listing {
    LastListing(Listing(Some(life.listing), life.subscription), life.looks, life.subscription)
  }

  function View(life: Life, prefix: string): set<string>
    requires Lived(life)
  {
    var start := Watcher(Live(life.log[..life.listing], prefix), life.subscription);
    After(life.log, prefix, start, life.looks).view
  }

  function Listed(log: seq<Op>, prefix: string, l: Listing): set<string>
    requires l.at.Some? ==> l.at.value <= |log|
  {
    if l.at.Some? then Live(log[..l.at.value], prefix) else {}
  }

  /** Whatever else a pod has done, its view is its last listing and the addresses it has heard of since. */
  lemma {:induction false} ViewFromLastListing(life: Life, prefix: string)
    requires Lived(life)
    ensures Last(life).heard <= Heard(life) <= |life.log|
    ensures Last(life).at.Some? ==> Last(life).at.value <= |life.log|
    ensures View(life, prefix)
         == Listed(life.log, prefix, Last(life)) + PutSince(life.log[..Heard(life)], Last(life).heard, prefix)
    decreases |life.looks|
  {
    var n := |life.looks| - 1;
    if life.looks != [] {
      var before := life.(looks := life.looks[..n]);
      PossibleUpTo(life.log, life.subscription, life.looks, n);
      ViewFromLastListing(before, prefix);
      if life.looks[n].Hear? {
        var heard := Heard(before);
        OneOperation(View(before, prefix), Store(life.log[..heard]), life.log[heard], prefix);
        assert life.log[..heard + 1][..heard] == life.log[..heard];
      }
    }
  }

  /** The log goes no further than the pod has looked, by listing or by listening. */
  predicate CaughtUp(life: Life) {
    Heard(life) == |life.log| || Last(life).at == Some(|life.log|)
  }

  lemma LastListingWithin(life: Life)
    requires Lived(life)
    ensures Last(life).heard <= Heard(life) <= |life.log|
    ensures Last(life).at.Some? ==> Last(life).at.value <= |life.log|
  {
    ViewFromLastListing(life, "");
  }

  /**
   * The last listing lacks the address, and so do the events consumed since; after a listing that
   * succeeded it was put in the gap that the listing came before and the events after.
   */
  predicate Missed(life: Life, prefix: string, a: string)
    requires Lived(life)
  {
    LastListingWithin(life);
    var l, heard := Last(life), Heard(life);
    && a !in PutSince(life.log[..heard], l.heard, prefix)
    && (l.at.Some? ==>
          && a in PutSince(life.log[..l.heard], l.at.value, prefix)
          && a !in Live(life.log[..l.at.value], prefix))
  }

  /** Of a live address: it is in the view exactly unless the last listing missed it in this way. */
  lemma LiveInViewExactly(life: Life, prefix: string, a: string)
    requires Lived(life) && CaughtUp(life) && a in Live(life.log, prefix)
    ensures a in View(life, prefix) <==> !Missed(life, prefix, a)
  {
    ViewFromLastListing(life, prefix);
    var l := Last(life);
    if l.at.Some? {
      LiveFromListing(life.log, l.at.value, prefix);
      if l.heard <= l.at.value {
        PutSplits(life.log, l.heard, l.at.value, prefix);
      } else {
        PutSplits(life.log, l.at.value, l.heard, prefix);
      }
      assert life.log[..|life.log|] == life.log;
    }
  }

  /** A listing that succeeded and was not overtaken by the events leaves no live address out. */
  lemma ListedAgainSeesAll(life: Life, prefix: string)
    requires Lived(life) && CaughtUp(life) && Last(life).at.Some? && Last(life).heard <= Last(life).at.value
    ensures Live(life.log, prefix) <= View(life, prefix)
  {
    LastListingWithin(life);
    assert PutSince(life.log[..Last(life).heard], Last(life).at.value, prefix) == {};
    forall a | a in Live(life.log, prefix) ensures a in View(life, prefix) {
      LiveInViewExactly(life, prefix, a);
    }
  }

  /**
   * The lives of two pods that are live in both logs: no type is ever claimed twice exactly when the
   * last listing of neither has missed the other - as far as both claim anything at all.
   */
  lemma NoDoubleClaimFromRegistry(prefix: string, p: string, lifeP: Life, q: string, lifeQ: Life)
    requires Lived(lifeP) && Lived(lifeQ) && CaughtUp(lifeP) && CaughtUp(lifeQ) && p != q
    requires {p, q} <= Live(lifeP.log, prefix) && {p, q} <= Live(lifeQ.log, prefix)
    ensures NeverBothClaim(p, View(lifeP, prefix), q, View(lifeQ, prefix)) <==>
              (Claimant(p, View(lifeP, prefix)) && Claimant(q, View(lifeQ, prefix)) ==>
                !Missed(lifeP, prefix, q) && !Missed(lifeQ, prefix, p))
  {
    NoDoubleClaimExactly(p, View(lifeP, prefix), q, View(lifeQ, prefix));
    LiveInViewExactly(lifeP, prefix, q);
    LiveInViewExactly(lifeQ, prefix, p);
  }

  /** Two live pods that have both listed again, neither overtaken by its own events, never claim the same type. */
  lemma ListedAgainNeverBothClaim(prefix: string, p: string, lifeP: Life, q: string, lifeQ: Life)
    requires Lived(lifeP) && Lived(lifeQ) && CaughtUp(lifeP) && CaughtUp(lifeQ) && p != q
    requires {p, q} <= Live(lifeP.log, prefix) && {p, q} <= Live(lifeQ.log, prefix)
    requires Last(lifeP).at.Some? && Last(lifeP).heard <= Last(lifeP).at.value
    requires Last(lifeQ).at.Some? && Last(lifeQ).heard <= Last(lifeQ).at.value
    ensures NeverBothClaim(p, View(lifeP, prefix), q, View(lifeQ, prefix))
  {
    NoDoubleClaimExactly(p, View(lifeP, prefix), q, View(lifeQ, prefix));
    ListedAgainSeesAll(lifeP, prefix);
    ListedAgainSeesAll(lifeQ, prefix);
  }

  function Views(lives: map<string, Life>, prefix: string): map<string, set<string>>
    requires forall p :: p in lives ==> Lived(lives[p])
  {
    map p | p in lives :: View(lives[p], prefix)
  }

  /** The pod has just listed the whole log, or failed to. */
  predicate JustListed(life: Life) {
    life.looks != [] && life.looks[|life.looks| - 1] in {List(|life.log|), ListFails}
  }

  lemma JustListedView(life: Life, prefix: string)
    requires Lived(life) && JustListed(life)
    ensures View(life, prefix) == if Last(life).at.Some? then Live(life.log, prefix) else {}
  {
    ViewFromLastListing(life, prefix);
    assert life.log[..|life.log|] == life.log;
  }

  /** The pods are those that are live, and each has just listed again or failed to. */
  ghost predicate AllJustListed(log: seq<Op>, prefix: string, lives: map<string, Life>) {
    && lives.Keys == Live(log, prefix)
    && forall p :: p in lives ==> Lived(lives[p]) && lives[p].log == log && JustListed(lives[p])
  }

  lemma JustListedViews(log: seq<Op>, prefix: string, lives: map<string, Life>)
    requires AllJustListed(log, prefix, lives) && lives.Keys != {}
    ensures var views := Views(lives, prefix);
            && (forall p :: p in lives ==> views[p] == lives.Keys || views[p] == {})
            && ((forall p :: p in lives ==> Last(lives[p]).at.Some?) <==>
                 forall p :: p in lives ==> views[p] == lives.Keys)
  {
    forall p | p in lives
      ensures View(lives[p], prefix) == if Last(lives[p]).at.Some? then lives.Keys else {}
    {
      JustListedView(lives[p], prefix);
    }
  }

  /**
   * Of pods that have just listed again every type has a claimant, on every layout, exactly when none
   * of those listings failed. A pod whose listing failed sets its nodes to none, and what belongs to
   * it has no claimant, for the others go on seeing it.
   */
  lemma ClaimedAfterListingExactly(log: seq<Op>, prefix: string, lives: map<string, Life>)
    requires AllJustListed(log, prefix, lives) && lives != map[] && "" !in lives
    ensures AlwaysClaimed(Views(lives, prefix)) <==> forall p :: p in lives ==> Last(lives[p]).at.Some?
  {
    assert lives.Keys != {};
    JustListedViews(log, prefix, lives);
    FailedSeeNothing(Views(lives, prefix), lives.Keys);
    AlwaysClaimedExactly(Views(lives, prefix));
  }

  /** Of pods that see either all of themselves or nobody, a group is self-contained only if it is everybody. */
  lemma FailedSeeNothing(views: map<string, set<string>>, pods: set<string>)
    requires views.Keys == pods != {} && "" !in pods
    requires forall p :: p in pods ==> views[p] == pods || views[p] == {}
    ensures (exists group :: SelfContained(group, views)) <==> forall p :: p in pods ==> views[p] == pods
  {
    if forall p :: p in pods ==> views[p] == pods {
      assert SelfContained(pods, views);
    }
    if group :| SelfContained(group, views) {
      var c := Member(group);
      assert views[c] == pods;
    }
  }

  /** The gap is real: whoever registers between a pod's listing and subscription is unseen until its next listing. */
  lemma UnseenUntilListedAgain(service: string, p: Instance, q: Instance)
    requires p.serviceName == q.serviceName == service && p.address != q.address
    ensures var log := [Put(InstanceKey(p), p), Put(InstanceKey(q), q)];
            && Lived(Life(log, 1, 2, [])) && Lived(Life(log, 1, 2, [List(2)]))
            && q.address in Live(log, service)
            && q.address !in View(Life(log, 1, 2, []), service)
            && q.address in View(Life(log, 1, 2, [List(2)]), service)
  {
    var log := [Put(InstanceKey(p), p), Put(InstanceKey(q), q)];
    assert log[..1] == [Put(InstanceKey(p), p)] && log[..1][..0] == [] && log[..2] == log;
    assert Store(log[..1]) == map[InstanceKey(p) := p];
    assert Store(log) == Store(log[..1])[InstanceKey(q) := q];
    assert InstanceKey(q) in Matching(Store(log), service);
    assert [List(2)][..0] == [];
  }
}
