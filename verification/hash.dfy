/**
 * Consistent hashing of device types onto pods.
 *
 * A node owns a fixed, non-empty set of points that depends on its name only, no point
 * belongs to two nodes, and a key belongs to the node of the first point clockwise from it.
 */
module ConsistentHashing {
  import opened Common

  datatype Layout = Layout(points: string -> set<int>, position: string -> int)

  ghost predicate ValidLayout(lay: Layout) {
    && (forall n: string :: lay.points(n) != {})
    && (forall n: string, m: string :: n != m ==> lay.points(n) !! lay.points(m))
  }

  /** The circle: which node each occupied point belongs to. */
  type Ring = map<int, string>

  /** p comes no later than q when one walks clockwise from pos. */
  predicate NoLater(pos: int, p: int, q: int) {
    if p > pos then q <= pos || p <= q else q <= pos && p <= q
  }

  ghost predicate IsFirst(s: set<int>, pos: int, p: int) {
    p in s && forall q :: q in s ==> NoLater(pos, p, q)
  }

  lemma {:induction false} FirstExists(s: set<int>, pos: int)
    requires s != {}
    ensures exists p :: IsFirst(s, pos, p)
    decreases |s|
  {
    var x := Member(s);
    var rest := s - {x};
    if rest == {} {
      assert s == {x} && IsFirst(s, pos, x);
    } else {
      FirstExists(rest, pos);
      var p :| IsFirst(rest, pos, p);
      var first := if NoLater(pos, p, x) then p else x;
      forall q | q in s ensures NoLater(pos, first, q) {
        assert q in rest || q == x;
      }
      assert IsFirst(s, pos, first);
    }
  }

  /** The first point clockwise: the next one up, or the lowest of all. */
  function First(s: set<int>, pos: int): (r: int)
    requires s != {}
    ensures IsFirst(s, pos, r)
  {
    FirstExists(s, pos);
    assert exists p :: p in s && forall q :: q in s ==> NoLater(pos, p, q) by {
      var p :| IsFirst(s, pos, p);
      assert p in s && forall q :: q in s ==> NoLater(pos, p, q);
    }
    var p :| p in s && forall q :: q in s ==> NoLater(pos, p, q);
    p
  }

  /** The least point above the position if there is one, and the lowest point of all otherwise. */
  lemma FirstInOrder(s: set<int>, pos: int)
    requires s != {}
    ensures var r := First(s, pos);
            && r in s
            && ((exists q :: q in s && q > pos) ==> r > pos && forall q :: q in s && q > pos ==> r <= q)
            && ((forall q :: q in s ==> q <= pos) ==> forall q :: q in s ==> r <= q)
  {
  }

  function AddNode(lay: Layout, ring: Ring, name: string): Ring {
    ring + map p | p in lay.points(name) :: name
  }

  function RemoveNode(lay: Layout, ring: Ring, name: string): Ring {
    ring - lay.points(name)
  }

  function NewRing(lay: Layout, nodes: seq<string>): Ring {
    if nodes == [] then map[] else AddNode(lay, NewRing(lay, nodes[..|nodes| - 1]), nodes[|nodes| - 1])
  }

  /** The node a key belongs to; the empty name when there is no node. */
  function GetNode(lay: Layout, ring: Ring, key: string): string {
    if ring == map[] then "" else ring[First(ring.Keys, lay.position(key))]
  }

  function Names(names: seq<string>): set<string> { set n | n in names }

  class ConsistentHash {
    const layout: Layout
    const podName: string
    const types: seq<string>
    var nodes: set<string>
    var ring: Ring
    /** What has been handed to a receiver waiting on the responsible-keys channel. */
    var published: seq<seq<string>>

    ghost predicate Valid()
      reads this
    {
      ValidLayout(layout) && RingFor(layout, ring, nodes)
    }

    constructor (layout: Layout, podName: string, types: seq<string>, listed: seq<string>)
      requires ValidLayout(layout)
      ensures Valid() && this.layout == layout && this.podName == podName && this.types == types
      ensures nodes == Names(listed) && published == []
    {
      this.layout, this.podName, this.types, published := layout, podName, types, [];
      nodes := Names(listed);
      ring := NewRing(layout, listed);
      new;
      NewRingFor(layout, listed);
    }

    /** The device types `pod` is responsible for, in the order of the type list. */
    method Hash(pod: string) returns (res: seq<string>)
      ensures res == Responsible(layout, ring, types, pod)
    {
      res := [];
      var i := 0;
      while i < |types|
        invariant 0 <= i <= |types|
        invariant res == Responsible(layout, ring, types[..i], pod)
      {
        assert types[..i + 1][..i] == types[..i];
        var node := GetNode(layout, ring, types[i]);
        if node == pod {
          res := res + [types[i]];
        }
        i := i + 1;
      }
      assert types[..|types|] == types;
    }

    /** The keys go out only if somebody is receiving; otherwise they are dropped. */
    method Publish(receiving: bool)
      modifies this`published
      ensures published == if receiving then old(published) + [Responsible(layout, ring, types, podName)]
                           else old(published)
    {
      if receiving {
        var keys := Hash(podName);
        published := published + [keys];
      }
    }

    method OnAddNode(name: string, receiving: bool)
      requires Valid()
      modifies this
      ensures Valid() && nodes == old(nodes) + {name}
      ensures published == if receiving then old(published) + [Responsible(layout, ring, types, podName)]
                           else old(published)
    {
      AddKeepsRing(layout, ring, nodes, name);
      nodes := nodes + {name};
      ring := AddNode(layout, ring, name);
      Publish(receiving);
    }

    method OnDelNode(name: string, receiving: bool)
      requires Valid()
      modifies this
      ensures Valid() && nodes == old(nodes) - {name}
      ensures published == if receiving then old(published) + [Responsible(layout, ring, types, podName)]
                           else old(published)
    {
      RemoveKeepsRing(layout, ring, nodes, name);
      nodes := nodes - {name};
      ring := RemoveNode(layout, ring, name);
      Publish(receiving);
    }

    /** Replaces the ring only; the node set is the caller's business. */
    method OnSetNodes(names: seq<string>, receiving: bool)
      modifies this`ring, this`published
      ensures ring == NewRing(layout, names)
      ensures published == if receiving then old(published) + [Responsible(layout, ring, types, podName)]
                           else old(published)
    {
      ring := NewRing(layout, names);
      Publish(receiving);
    }

    method SetNodes(names: seq<string>, receiving: bool)
      requires Valid()
      modifies this
      ensures Valid() && nodes == Names(names)
      ensures published == if receiving then old(published) + [Responsible(layout, ring, types, podName)]
                           else old(published)
    {
      nodes := Names(names);
      OnSetNodes(names, receiving);
      NewRingFor(layout, names);
    }
  }

  function Responsible(lay: Layout, ring: Ring, types: seq<string>, pod: string): seq<string> {
    if types == [] then [] else
    var last := types[|types| - 1];
    Responsible(lay, ring, types[..|types| - 1], pod) + if GetNode(lay, ring, last) == pod then [last] else []
  }

  /** The owner of a key: the node of the least point above its position, or of the lowest point if none is above. */
  lemma OwnerInOrder(lay: Layout, ring: Ring, key: string, p: int)
    requires p in ring
    requires (lay.position(key) < p && forall q :: q in ring && q > lay.position(key) ==> p <= q)
          || forall q :: q in ring ==> p <= q <= lay.position(key)
    ensures GetNode(lay, ring, key) == ring[p]
  {
    FirstInOrder(ring.Keys, lay.position(key));
    assert p in ring.Keys;
  }

  /** With no node there is no owner: the empty name. */
  lemma NoOwner(lay: Layout, key: string)
    ensures GetNode(lay, map[], key) == ""
  {
  }

  lemma ResponsibleForOne(lay: Layout, ring: Ring, front: seq<string>, t: string, pod: string)
    ensures Responsible(lay, ring, front + [t], pod)
         == Responsible(lay, ring, front, pod) + if GetNode(lay, ring, t) == pod then [t] else []
    ensures Responsible(lay, ring, [], pod) == []
  {
    assert (front + [t])[..|front|] == front;
  }

  /** The types come out one by one in the order of the list, each as often as it is there. */
  lemma {:induction false} ResponsibleInOrder(lay: Layout, ring: Ring, a: seq<string>, b: seq<string>, pod: string)
    ensures Responsible(lay, ring, a + b, pod) == Responsible(lay, ring, a, pod) + Responsible(lay, ring, b, pod)
    decreases |b|
  {
    if b == [] {
      assert a + b == a;
    } else {
      var front, t := b[..|b| - 1], b[|b| - 1];
      assert b == front + [t] && a + b == (a + front) + [t];
      ResponsibleInOrder(lay, ring, a, front, pod);
      ResponsibleForOne(lay, ring, a + front, t, pod);
      ResponsibleForOne(lay, ring, front, t, pod);
    }
  }

  lemma {:induction false} ResponsibleExactly(lay: Layout, ring: Ring, types: seq<string>, pod: string, t: string)
    ensures t in Responsible(lay, ring, types, pod) <==> t in types && GetNode(lay, ring, t) == pod
  {
    if types != [] {
      ResponsibleExactly(lay, ring, types[..|types| - 1], pod, t);
      assert t in types <==> t in types[..|types| - 1] || t == types[|types| - 1];
    }
  }

  // ---------------------------------------------------------------- the ring is its node set

  /** The ring holds exactly the points of the nodes, each with its own node. */
  ghost predicate RingFor(lay: Layout, ring: Ring, nodes: set<string>) {
    && (forall p :: p in ring ==> ring[p] in nodes && p in lay.points(ring[p]))
    && (forall n, p :: n in nodes && p in lay.points(n) ==> p in ring && ring[p] == n)
  }

  lemma AddKeepsRing(lay: Layout, ring: Ring, nodes: set<string>, name: string)
    requires ValidLayout(lay) && RingFor(lay, ring, nodes)
    ensures RingFor(lay, AddNode(lay, ring, name), nodes + {name})
  {
  }

  lemma RemoveKeepsRing(lay: Layout, ring: Ring, nodes: set<string>, name: string)
    requires ValidLayout(lay) && RingFor(lay, ring, nodes)
    ensures RingFor(lay, RemoveNode(lay, ring, name), nodes - {name})
  {
  }

  lemma {:induction false} NewRingFor(lay: Layout, names: seq<string>)
    requires ValidLayout(lay)
    ensures RingFor(lay, NewRing(lay, names), Names(names))
  {
    if names != [] {
      var front, last := names[..|names| - 1], names[|names| - 1];
      NewRingFor(lay, front);
      AddKeepsRing(lay, NewRing(lay, front), Names(front), last);
      assert Names(names) == Names(front) + {last};
    }
  }

  lemma RingDetermined(lay: Layout, r1: Ring, r2: Ring, nodes: set<string>)
    requires RingFor(lay, r1, nodes) && RingFor(lay, r2, nodes)
    ensures r1 == r2
  {
    forall p ensures p in r1 <==> p in r2 {
      if p in r1 { assert r1[p] in nodes && p in lay.points(r1[p]); }
      if p in r2 { assert r2[p] in nodes && p in lay.points(r2[p]); }
    }
    forall p | p in r1 ensures r1[p] == r2[p] {
      assert r1[p] in nodes && p in lay.points(r1[p]);
    }
  }

  datatype Change = Added(name: string) | Deleted(name: string) | Reset(names: seq<string>)

  function NodesAfter(nodes: set<string>, changes: seq<Change>): set<string> {
    if changes == [] then nodes else
    var before := NodesAfter(nodes, changes[..|changes| - 1]);
    match changes[|changes| - 1]
    case Added(name) => before + {name}
    case Deleted(name) => before - {name}
    case Reset(names) => Names(names)
  }

  predicate Mentions(c: Change, n: string) { c.Reset? || c.name == n }

  predicate SaysPresent(c: Change, n: string) { c == Added(n) || (c.Reset? && n in c.names) }

  predicate Unmentioned(changes: seq<Change>, n: string) {
    forall j :: 0 <= j < |changes| ==> !Mentions(changes[j], n)
  }

  /** Some change says that the node is there, and no later one mentions it. */
  predicate SaidPresent(changes: seq<Change>, n: string) {
    exists i :: 0 <= i < |changes| && SaysPresent(changes[i], n) && Unmentioned(changes[i + 1..], n)
  }

  lemma UnmentionedLast(changes: seq<Change>, c: Change, n: string)
    ensures Unmentioned(changes + [c], n) <==> Unmentioned(changes, n) && !Mentions(c, n)
  {
    assert (changes + [c])[|changes|] == c;
    assert forall j :: 0 <= j < |changes| ==> (changes + [c])[j] == changes[j];
  }

  lemma SaidPresentLast(changes: seq<Change>, c: Change, n: string)
    ensures SaidPresent(changes + [c], n) <==> SaysPresent(c, n) || (SaidPresent(changes, n) && !Mentions(c, n))
  {
    var all := changes + [c];
    assert all[|changes|] == c && all[|changes| + 1..] == [];
    forall i | 0 <= i < |changes|
      ensures all[i] == changes[i]
      ensures Unmentioned(all[i + 1..], n) <==> Unmentioned(changes[i + 1..], n) && !Mentions(c, n)
    {
      UnmentionedLast(changes[i + 1..], c, n);
      assert all[i + 1..] == changes[i + 1..] + [c];
    }
  }

  /** A node is in the set exactly if the last change that mentions it says so, or none does and it was there. */
  lemma {:induction false} NodesExactly(nodes: set<string>, changes: seq<Change>, n: string)
    ensures n in NodesAfter(nodes, changes) <==> SaidPresent(changes, n) || (n in nodes && Unmentioned(changes, n))
  {
    if changes != [] {
      var front, last := changes[..|changes| - 1], changes[|changes| - 1];
      assert changes == front + [last];
      NodesExactly(nodes, front, n);
      SaidPresentLast(front, last, n);
      UnmentionedLast(front, last, n);
    }
  }

  function RingAfter(lay: Layout, ring: Ring, changes: seq<Change>): Ring {
    if changes == [] then ring else
    var before := RingAfter(lay, ring, changes[..|changes| - 1]);
    match changes[|changes| - 1]
    case Added(name) => AddNode(lay, before, name)
    case Deleted(name) => RemoveNode(lay, before, name)
    case Reset(names) => NewRing(lay, names)
  }

  lemma {:induction false} ChangesKeepRing(lay: Layout, ring: Ring, nodes: set<string>, changes: seq<Change>)
    requires ValidLayout(lay) && RingFor(lay, ring, nodes)
    ensures RingFor(lay, RingAfter(lay, ring, changes), NodesAfter(nodes, changes))
  {
    if changes != [] {
      var front := changes[..|changes| - 1];
      ChangesKeepRing(lay, ring, nodes, front);
      match changes[|changes| - 1]
      case Added(name) => AddKeepsRing(lay, RingAfter(lay, ring, front), NodesAfter(nodes, front), name);
      case Deleted(name) => RemoveKeepsRing(lay, RingAfter(lay, ring, front), NodesAfter(nodes, front), name);
      case Reset(names) => NewRingFor(lay, names);
    }
  }

  /**
   * After any history of changes the ring, and with it every key's node, is that of a ring built fresh
   * from the nodes.
   */
  lemma IncrementalEqualsRebuilt(lay: Layout, listed: seq<string>, changes: seq<Change>, names: seq<string>)
    requires ValidLayout(lay)
    requires Names(names) == NodesAfter(Names(listed), changes)
    ensures RingAfter(lay, NewRing(lay, listed), changes) == NewRing(lay, names)
  {
    NewRingFor(lay, listed);
    ChangesKeepRing(lay, NewRing(lay, listed), Names(listed), changes);
    NewRingFor(lay, names);
    RingDetermined(lay, RingAfter(lay, NewRing(lay, listed), changes), NewRing(lay, names), Names(names));
  }

  // ---------------------------------------------------------------- who owns a key

  /** The owner is a node of the ring whose own first point no other node's first point precedes. */
  lemma OwnerExactly(lay: Layout, ring: Ring, nodes: set<string>, key: string, n: string)
    requires ValidLayout(lay) && RingFor(lay, ring, nodes) && nodes != {}
    ensures GetNode(lay, ring, key) == n <==>
              n in nodes && forall m :: m in nodes ==>
                NoLater(lay.position(key), First(lay.points(n), lay.position(key)),
                        First(lay.points(m), lay.position(key)))
  {
    var pos := lay.position(key);
    var some :| some in nodes;
    var point := First(lay.points(some), pos);
    assert point in ring;
    var first := First(ring.Keys, pos);
    var owner := ring[first];
    assert first in lay.points(owner);
    forall m | m in nodes
      ensures NoLater(pos, First(lay.points(owner), pos), First(lay.points(m), pos))
    {
      assert First(lay.points(m), pos) in ring;
      assert NoLater(pos, First(lay.points(owner), pos), first);
    }
    if n in nodes && n != owner {
      assert First(lay.points(n), pos) != First(lay.points(owner), pos);
    }
  }

  /** Adding a node moves keys to it only, and exactly those that its first point is first for. */
  lemma AddMovesOnlyToAdded(lay: Layout, ring: Ring, nodes: set<string>, name: string, key: string)
    requires ValidLayout(lay) && RingFor(lay, ring, nodes)
    ensures GetNode(lay, AddNode(lay, ring, name), key)
         == if forall m :: m in nodes ==> NoLater(lay.position(key), First(lay.points(name), lay.position(key)),
                                                  First(lay.points(m), lay.position(key)))
            then name else GetNode(lay, ring, key)
  {
    var ring' := AddNode(lay, ring, name);
    AddKeepsRing(lay, ring, nodes, name);
    OwnerExactly(lay, ring', nodes + {name}, key, name);
    if nodes != {} {
      var owner := GetNode(lay, ring, key);
      OwnerExactly(lay, ring, nodes, key, owner);
      OwnerExactly(lay, ring', nodes + {name}, key, owner);
    }
  }

  /** Deleting a node moves its own keys only. */
  lemma DeleteMovesOnlyDeleted(lay: Layout, ring: Ring, nodes: set<string>, name: string, key: string)
    requires ValidLayout(lay) && RingFor(lay, ring, nodes) && GetNode(lay, ring, key) != name
    ensures GetNode(lay, RemoveNode(lay, ring, name), key) == GetNode(lay, ring, key)
  {
    if nodes != {} {
      RemoveKeepsRing(lay, ring, nodes, name);
      var owner := GetNode(lay, ring, key);
      OwnerExactly(lay, ring, nodes, key, owner);
      assert owner in nodes - {name};
      OwnerExactly(lay, RemoveNode(lay, ring, name), nodes - {name}, key, owner);
    } else {
      assert ring.Keys == {};
    }
  }

  /**
   * Two pods whose views differ in any way but both contain the two of them never both
   * think that a key is theirs.
   */
  lemma NoDoubleClaim(lay: Layout, ringP: Ring, viewP: set<string>, ringQ: Ring, viewQ: set<string>,
                      p: string, q: string, types: seq<string>, t: string)
    requires ValidLayout(lay) && RingFor(lay, ringP, viewP) && RingFor(lay, ringQ, viewQ)
    requires p != q && p in viewP && q in viewP && p in viewQ && q in viewQ
    ensures !(t in Responsible(lay, ringP, types, p) && t in Responsible(lay, ringQ, types, q))
  {
    ResponsibleExactly(lay, ringP, types, p, t);
    ResponsibleExactly(lay, ringQ, types, q, t);
    var pos := lay.position(t);
    OwnerPrecedes(lay, ringP, viewP, t, p, q);
    OwnerPrecedes(lay, ringQ, viewQ, t, q, p);
    assert First(lay.points(p), pos) != First(lay.points(q), pos);
  }

  lemma OwnerPrecedes(lay: Layout, ring: Ring, nodes: set<string>, key: string, n: string, m: string)
    requires ValidLayout(lay) && RingFor(lay, ring, nodes) && n in nodes && m in nodes
    ensures GetNode(lay, ring, key) == n ==>
              NoLater(lay.position(key), First(lay.points(n), lay.position(key)),
                      First(lay.points(m), lay.position(key)))
  {
    OwnerExactly(lay, ring, nodes, key, n);
  }

  /** One shared view: every key has exactly one node, and it is in the view. */
  lemma ExactlyOneOwner(lay: Layout, ring: Ring, view: set<string>, types: seq<string>, t: string)
    requires ValidLayout(lay) && RingFor(lay, ring, view) && view != {} && t in types
    ensures GetNode(lay, ring, t) in view
    ensures forall p :: t in Responsible(lay, ring, types, p) <==> p == GetNode(lay, ring, t)
  {
    OwnerExactly(lay, ring, view, t, GetNode(lay, ring, t));
    forall p ensures t in Responsible(lay, ring, types, p) <==> p == GetNode(lay, ring, t) {
      ResponsibleExactly(lay, ring, types, p, t);
    }
  }
}
