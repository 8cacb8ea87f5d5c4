/** A doubly linked ring with a head, as links between addresses. */
module Ring {
  /** The address of the head. */
  const HEAD: nat := 0

  datatype Links = Links(next: map<nat, nat>, prev: map<nat, nat>)

  /** A head linked to itself. */
  function InitHead(): Links { Links(map[HEAD := HEAD], map[HEAD := HEAD]) }

  /** Links `e` in between the head and what followed it, one write at a time. */
  function ListAdd(l: Links, e: nat): Links
    requires HEAD in l.next
  {
    var n := l.next[HEAD];
    var l1 := l.(prev := l.prev[n := e]);
    var l2 := l1.(next := l1.next[e := n]);
    var l3 := l2.(prev := l2.prev[e := HEAD]);
    l3.(next := l3.next[HEAD := e])
  }

  /** The address at place `i` around the ring: the head, the entries, the head. */
  function At(order: seq<nat>, i: nat): nat { if 1 <= i <= |order| then order[i - 1] else HEAD }

  predicate Linked(l: Links, a: nat, b: nat) {
    a in l.next && l.next[a] == b && b in l.prev && l.prev[b] == a
  }

  ghost predicate Distinct(order: seq<nat>) {
    HEAD !in order && forall i, j :: 0 <= i < j < |order| ==> order[i] != order[j]
  }

  /** The links go around the entries in `order`, both ways. */
  ghost predicate WellFormed(l: Links, order: seq<nat>) {
    Distinct(order) && forall i :: 0 <= i <= |order| ==> Linked(l, At(order, i), At(order, i + 1))
  }

  lemma InitWellFormed()
    ensures WellFormed(InitHead(), [])
  {}

  /** Adding an entry puts it first and keeps the ring. */
  lemma AddWellFormed(l: Links, order: seq<nat>, e: nat)
    requires WellFormed(l, order) && e != HEAD && e !in order
    ensures Linked(l, HEAD, At(order, 1)) && WellFormed(ListAdd(l, e), [e] + order)
  {
    var o := [e] + order;
    assert Linked(l, At(order, 0), At(order, 1));
    var n := l.next[HEAD];
    forall i | 0 <= i <= |o| ensures Linked(ListAdd(l, e), At(o, i), At(o, i + 1)) {
      if i >= 2 {
        assert Linked(l, At(order, i - 1), At(order, i));
        assert At(o, i) == At(order, i - 1) && At(o, i + 1) == At(order, i);
      }
    }
  }

  /** Following the links from entry to entry visits the ring in order. */
  lemma NextAt(l: Links, order: seq<nat>, i: nat)
    requires WellFormed(l, order) && i <= |order|
    ensures At(order, i) in l.next && l.next[At(order, i)] == At(order, i + 1)
  {
    assert Linked(l, At(order, i), At(order, i + 1));
  }

  lemma EndIsHead(order: seq<nat>, i: nat)
    requires Distinct(order) && 1 <= i <= |order| + 1
    ensures At(order, i) == HEAD <==> i == |order| + 1
  {}
}
