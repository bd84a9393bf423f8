/** The doubly linked list (dllist.c): nodes whose links are rewired in place. */
module DLists {
  import opened Wrappers

  /** What the comparison and the callbacks look at. */
  type Value = int

  class Node {
    const value: Value
    var prev: Node?
    var next: Node?

    constructor (value: Value)
      ensures this.value == value && prev == null && next == null
    {
      this.value, prev, next := value, null, null;
    }
  }

  ghost predicate Distinct(s: seq<Node>) {
    forall i, j :: 0 <= i < j < |s| ==> s[i] != s[j]
  }

  /** The nodes of `s` are linked to one another, forwards and backwards, and to nothing else. */
  ghost predicate Linked(s: seq<Node>)
    reads s
  {
    && Distinct(s)
    && (forall i {:trigger s[i].prev} :: 0 <= i < |s| ==> s[i].prev == if i == 0 then null else s[i - 1])
    && (forall i {:trigger s[i].next} :: 0 <= i < |s| ==> s[i].next == if i + 1 < |s| then s[i + 1] else null)
  }

  function Head(s: seq<Node>): Node? {
    if s == [] then null else s[0]
  }

  ghost predicate Within(s: seq<Node>, repr: set<Node>) {
    forall i :: 0 <= i < |s| ==> s[i] in repr
  }

  function Nodes(s: seq<Node>): set<Node> {
    set n | n in s
  }

  /** Nothing outside `s` has been touched. */
  twostate predicate Only(s: seq<Node>, repr: set<Node>)
    reads repr
  {
    forall n :: n in repr && n !in s ==> n.prev == old(n.prev) && n.next == old(n.next)
  }

  // ----- inserting and removing -------------------------------------------------------------

  /** Where dll_insert puts a value: before the first that is not smaller. */
  function PlaceFor(s: seq<Node>, v: Value, proc: Option<(Value, Value) -> int>): (k: nat)
    ensures k <= |s|
    ensures proc.Some? ==> forall i :: 0 <= i < k ==> proc.value(s[i].value, v) < 0
    ensures proc.Some? && k < |s| ==> proc.value(s[k].value, v) >= 0
    ensures proc.None? ==> k == 0
  {
    if s == [] || proc.None? || 0 <= proc.value(s[0].value, v) then 0 else 1 + PlaceFor(s[1..], v, proc)
  }

  function Inserted(s: seq<Node>, node: Node, proc: Option<(Value, Value) -> int>): seq<Node> {
    var k := PlaceFor(s, node.value, proc);
    s[..k] + [node] + s[k..]
  }

  lemma PlaceStep(s: seq<Node>, k: nat, v: Value, proc: Option<(Value, Value) -> int>)
    requires k < |s|
    ensures PlaceFor(s[k..], v, proc) ==
              if proc.None? || 0 <= proc.value(s[k].value, v) then 0 else 1 + PlaceFor(s[k + 1..], v, proc)
  {
    assert s[k..][1..] == s[k + 1..];
  }

  /** dll_insert's walk: the neighbours of the place the node goes to. */
  method FindPlace(head: Node?, v: Value, proc: Option<(Value, Value) -> int>, ghost s: seq<Node>) returns (prev: Node?, next: Node?)
    requires Linked(s) && head == Head(s)
    ensures var k := PlaceFor(s, v, proc);
            prev == (if k == 0 then null else s[k - 1]) && next == (if k < |s| then s[k] else null)
  {
    hide PlaceFor;
    ghost var k := 0;
    prev, next := null, head;
    assert s[0..] == s;
    while next != null
      invariant k <= |s| && next == (if k < |s| then s[k] else null) && prev == (if k == 0 then null else s[k - 1])
      invariant PlaceFor(s, v, proc) == k + PlaceFor(s[k..], v, proc)
      decreases |s| - k
    {
      PlaceStep(s, k, v, proc);
      if proc.None? || 0 <= proc.value(next.value, v) {
        break;
      }
      prev := next;
      next := next.next;
      k := k + 1;
    }
  }

  /** dll_insert. */
  method Insert(head: Node?, node: Node, proc: Option<(Value, Value) -> int>, ghost s: seq<Node>, ghost repr: set<Node>) returns (newHead: Node?)
    requires Linked(s) && head == Head(s) && node !in s && Within(s, repr) && node in repr
    modifies repr
    ensures Only(s + [node], repr)
    ensures Linked(Inserted(s, node, proc)) && newHead == Head(Inserted(s, node, proc))
  {
    hide PlaceFor;
    ghost var k := PlaceFor(s, node.value, proc);
    var prev, next := FindPlace(head, node.value, proc, s);
    node.prev := prev;
    node.next := next;
    if prev != null {
      newHead := head;
      prev.next := node;
    } else {
      newHead := node;
    }
    if next != null {
      next.prev := node;
    }
    LinkedIn(s, node, k);
  }

  lemma LinkedIn(s: seq<Node>, node: Node, k: nat)
    requires Distinct(s) && node !in s && k <= |s|
    requires node.prev == (if k == 0 then null else s[k - 1]) && node.next == (if k < |s| then s[k] else null)
    requires forall i {:trigger s[i].prev} :: 0 <= i < |s| ==> s[i].prev == if i == k then node else if i == 0 then null else s[i - 1]
    requires forall i {:trigger s[i].next} :: 0 <= i < |s| ==> s[i].next == if i + 1 == k then node else if i + 1 < |s| then s[i + 1] else null
    ensures Linked(s[..k] + [node] + s[k..])
  {
    var r := s[..k] + [node] + s[k..];
    assert forall i :: 0 <= i < |r| ==> r[i] == if i < k then s[i] else if i == k then node else s[i - 1];
    forall i, j | 0 <= i < j < |r|
      ensures r[i] != r[j]
    {
      if i == k { assert s[j - 1] in s; }
      if j == k { assert s[i] in s; }
    }
    forall i | 0 <= i < |r|
      ensures r[i].prev == if i == 0 then null else r[i - 1]
    {
      if i < k { assert r[i] == s[i]; assert i > 0 ==> r[i - 1] == s[i - 1]; }
      else if i > k { assert r[i] == s[i - 1]; }
    }
    forall i | 0 <= i < |r|
      ensures r[i].next == if i + 1 < |r| then r[i + 1] else null
    {
      if i < k { assert r[i] == s[i]; }
      else if i > k { assert r[i] == s[i - 1]; }
    }
  }

  function Without(s: seq<Node>, k: nat): (r: seq<Node>)
    requires k < |s|
    ensures |r| == |s| - 1 && forall i :: 0 <= i < |r| ==> r[i] == s[if i < k then i else i + 1]
  {
    s[..k] + s[k + 1..]
  }

  lemma LinkedOut(s: seq<Node>, k: nat)
    requires Distinct(s) && k < |s|
    requires forall i {:trigger s[i].prev} :: 0 <= i < |s| && i != k ==>
               s[i].prev == if i == 0 || (i == 1 && k == 0) then null else if i == k + 1 then s[i - 2] else s[i - 1]
    requires forall i {:trigger s[i].next} :: 0 <= i < |s| && i != k ==>
               s[i].next == if i + 1 == |s| || (i + 2 == |s| && k == i + 1) then null else if i + 1 == k then s[i + 2] else s[i + 1]
    ensures Linked(Without(s, k))
  {
    var r := Without(s, k);
    forall i | 0 <= i < |r|
      ensures r[i].prev == if i == 0 then null else r[i - 1]
      ensures r[i].next == if i + 1 < |r| then r[i + 1] else null
    {}
  }

  /** dll_remove: the neighbours close up.  The node keeps its own links. */
  method Remove(list: Node, node: Node, ghost s: seq<Node>, ghost k: nat, ghost repr: set<Node>) returns (newHead: Node?)
    requires Linked(s) && k < |s| && list == s[0] && node == s[k] && Within(s, repr)
    modifies repr
    ensures Only(s, repr)
    ensures Linked(Without(s, k)) && newHead == Head(Without(s, k))
    ensures node.prev == old(node.prev) && node.next == old(node.next)
  {
    newHead := list;
    if list == node {
      newHead := list.next;
      assert newHead != null ==> 1 < |s| && newHead == s[1] && s[1] in s;
      if newHead != null {
        newHead.prev := null;
      }
    } else {
      assert node.prev == s[k - 1] && s[k - 1] in s;
      assert node.next != null ==> k + 1 < |s| && node.next == s[k + 1] && s[k + 1] in s;
      if node.prev != null {
        node.prev.next := node.next;
      }
      if node.next != null {
        node.next.prev := node.prev;
      }
    }
    LinkedOut(s, k);
  }

  // ----- mapping ----------------------------------------------------------------------------

  /** What a callback asks for: take the node out, stop after it. */
  datatype Act = Act(remove: bool, exit: bool)

  /** The nodes left: those not removed, and all behind the one that stopped the walk. */
  function Mapped(s: seq<Node>, proc: Value -> Act): seq<Node> {
    if s == [] then []
    else
      var act := proc(s[0].value);
      (if act.remove then [] else [s[0]]) + if act.exit then s[1..] else Mapped(s[1..], proc)
  }

  /** dll_map. */
  method Map(list: Node?, proc: Value -> Act, ghost s: seq<Node>, ghost repr: set<Node>) returns (newHead: Node?)
    requires Linked(s) && list == Head(s) && Within(s, repr)
    modifies repr
    ensures Linked(Mapped(s, proc)) && newHead == Head(Mapped(s, proc)) && Only(s, repr)
  {
    newHead := list;
    var cur := list;
    ghost var kept: seq<Node> := [];
    ghost var rest := s;
    assert [] + s == s;
    while cur != null
      invariant Linked(kept + rest) && newHead == Head(kept + rest) && cur == Head(rest)
      invariant kept + Mapped(rest, proc) == Mapped(s, proc)
      invariant Within(kept + rest, repr) && Only(s, repr) && Within(kept + rest, Nodes(s))
      decreases |rest|
    {
      hide Linked, Mapped;
      ghost var all, k := kept + rest, |kept|;
      MapCuts(kept, rest, proc);
      NextOf(all, k);
      var next := cur.next;
      var act := proc(cur.value);
      if act.remove {
        newHead := Unlink(cur, newHead, all, k, repr);
      } else {
        kept := kept + [cur];
      }
      rest := rest[1..];
      if act.exit {
        return;
      }
      cur := next;
    }
    assert kept + [] == kept;
  }

  lemma NextOf(s: seq<Node>, k: nat)
    requires Linked(s) && k < |s|
    ensures s[k].next == if k + 1 < |s| then s[k + 1] else null
  {}

  lemma MapCuts(kept: seq<Node>, rest: seq<Node>, proc: Value -> Act)
    requires rest != []
    ensures var act := proc(rest[0].value);
            var more := if act.exit then rest[1..] else Mapped(rest[1..], proc);
            && kept + Mapped(rest, proc) == (if act.remove then kept else kept + [rest[0]]) + more
            && Without(kept + rest, |kept|) == kept + rest[1..] && kept + [rest[0]] + rest[1..] == kept + rest
  {
    var act := proc(rest[0].value);
    var here := if act.remove then [] else [rest[0]];
    var more := if act.exit then rest[1..] else Mapped(rest[1..], proc);
    assert Mapped(rest, proc) == here + more;
    hide Mapped;
    Reassociate(kept, here, more);
    assert kept + [] == kept;
    assert rest == [rest[0]] + rest[1..];
    Reassociate(kept, [rest[0]], rest[1..]);
    TakenOut(kept, rest);
  }

  lemma Reassociate(a: seq<Node>, b: seq<Node>, c: seq<Node>)
    ensures a + (b + c) == (a + b) + c
  {}

  lemma TakenOut(kept: seq<Node>, rest: seq<Node>)
    requires rest != []
    ensures Without(kept + rest, |kept|) == kept + rest[1..]
  {}

  /** dll_map's own taking out of a node, which may be the head. */
  method Unlink(victim: Node, head: Node?, ghost s: seq<Node>, ghost k: nat, ghost repr: set<Node>) returns (newHead: Node?)
    requires Linked(s) && k < |s| && victim == s[k] && head == s[0] && Within(s, repr)
    modifies repr
    ensures Only(s, repr)
    ensures Linked(Without(s, k)) && newHead == Head(Without(s, k))
  {
    newHead := if victim == head then victim.next else head;
    assert k > 0 ==> victim.prev == s[k - 1] && s[k - 1] in s;
    assert victim.next != null ==> k + 1 < |s| && victim.next == s[k + 1] && s[k + 1] in s;
    if victim.prev != null {
      victim.prev.next := victim.next;
    }
    if victim.next != null {
      victim.next.prev := victim.prev;
    }
    LinkedOut(s, k);
  }

  // ----- sorting ----------------------------------------------------------------------------

  /** Each node in turn goes into its place. */
  function SortedInto(done: seq<Node>, rest: seq<Node>, proc: (Value, Value) -> int): seq<Node>
    decreases |rest|
  {
    if rest == [] then done else SortedInto(Inserted(done, rest[0], Some(proc)), rest[1..], proc)
  }

  /** dll_sort. */
  method Sort(list: Node?, proc: (Value, Value) -> int, ghost s: seq<Node>, ghost repr: set<Node>) returns (result: Node?)
    requires Linked(s) && list == Head(s) && Within(s, repr)
    modifies repr
    ensures Linked(SortedInto([], s, proc)) && result == Head(SortedInto([], s, proc)) && Only(s, repr)
  {
    hide Linked, Inserted, Apart, Within, Nodes;
    result := null;
    var cur := list;
    ghost var done: seq<Node> := [];
    ghost var rest := s;
    NoneYet(s, repr);
    while cur != null
      invariant Linked(done) && Linked(rest) && result == Head(done) && cur == Head(rest)
      invariant Apart(done, rest) && Within(done, repr) && Within(rest, repr)
      invariant Only(s, repr) && Within(done + rest, Nodes(s))
      invariant SortedInto(done, rest, proc) == SortedInto([], s, proc)
      decreases |rest|
    {
      Inside(done + rest, s);
      MovedWithin(done, rest, proc, Nodes(s));
      cur, result := SortStep(cur, result, proc, done, rest, repr);
      done := Inserted(done, rest[0], Some(proc));
      rest := rest[1..];
    }
  }

  lemma NoneYet(s: seq<Node>, repr: set<Node>)
    ensures Linked([]) && Apart([], s) && Within([], repr) && Within([] + s, Nodes(s))
  {}

  lemma Inside(t: seq<Node>, s: seq<Node>)
    requires Within(t, Nodes(s))
    ensures forall n :: n in t ==> n in s
  {}

  lemma MovedWithin(done: seq<Node>, rest: seq<Node>, proc: (Value, Value) -> int, nodes: set<Node>)
    requires rest != [] && Within(done + rest, nodes)
    ensures Within(Inserted(done, rest[0], Some(proc)) + rest[1..], nodes)
  {
    var r := Inserted(done, rest[0], Some(proc)) + rest[1..];
    assert forall n :: n in done + rest ==> n in nodes;
    assert forall n :: n in rest[1..] ==> n in rest;
    forall i | 0 <= i < |r|
      ensures r[i] in nodes
    {
      assert r[i] in done || r[i] in rest;
    }
  }

  ghost predicate Apart(a: seq<Node>, b: seq<Node>) {
    forall i :: 0 <= i < |a| ==> a[i] !in b
  }

  /** The first node of `rest` moves to its place in `done`. */
  method SortStep(list: Node, result: Node?, proc: (Value, Value) -> int, ghost done: seq<Node>, ghost rest: seq<Node>,
                  ghost repr: set<Node>) returns (list': Node?, result': Node?)
    requires Linked(done) && Linked(rest) && rest != [] && list == rest[0] && result == Head(done)
    requires Apart(done, rest) && Within(done, repr) && Within(rest, repr)
    modifies repr
    ensures Linked(Inserted(done, rest[0], Some(proc))) && result' == Head(Inserted(done, rest[0], Some(proc)))
    ensures Linked(rest[1..]) && list' == Head(rest[1..])
    ensures Apart(Inserted(done, rest[0], Some(proc)), rest[1..])
    ensures Within(Inserted(done, rest[0], Some(proc)), repr) && Within(rest[1..], repr) && Only(done + rest, repr)
  {
    FirstApart(rest);
    MovedApart(done, rest, proc, repr);
    hide Linked, Inserted;
    list' := RemoveFirst(list, rest, done, repr);
    result' := InsertBeside(result, list, proc, done, rest[1..], repr);
  }

  /** Taking the first node out of one list leaves another alone. */
  method RemoveFirst(list: Node, ghost s: seq<Node>, ghost t: seq<Node>, ghost repr: set<Node>) returns (newHead: Node?)
    requires Linked(s) && s != [] && list == s[0] && Within(s, repr)
    requires Linked(t) && Within(t, repr) && Apart(t, s)
    modifies repr
    ensures Linked(s[1..]) && newHead == Head(s[1..]) && Linked(t) && Only(s, repr)
  {
    newHead := Remove(list, list, s, 0, repr);
    assert Without(s, 0) == s[1..];
    assert forall i :: 0 <= i < |t| ==> t[i].prev == old(t[i].prev) && t[i].next == old(t[i].next);
  }

  /** Inserting into one list leaves another alone. */
  method InsertBeside(head: Node?, node: Node, proc: (Value, Value) -> int, ghost s: seq<Node>, ghost t: seq<Node>, ghost repr: set<Node>)
    returns (newHead: Node?)
    requires Linked(s) && head == Head(s) && node !in s && Within(s, repr) && node in repr
    requires Linked(t) && Within(t, repr) && Apart(t, s + [node])
    modifies repr
    ensures Linked(Inserted(s, node, Some(proc))) && newHead == Head(Inserted(s, node, Some(proc))) && Linked(t)
    ensures Only(s + [node], repr)
  {
    newHead := Insert(head, node, Some(proc), s, repr);
    assert forall i :: 0 <= i < |t| ==> t[i].prev == old(t[i].prev) && t[i].next == old(t[i].next);
  }

  lemma FirstApart(s: seq<Node>)
    requires Linked(s) && s != []
    ensures s[0] !in s[1..]
  {}

  lemma MovedApart(done: seq<Node>, rest: seq<Node>, proc: (Value, Value) -> int, repr: set<Node>)
    requires rest != [] && Distinct(rest) && Apart(done, rest) && Within(done, repr) && Within(rest, repr)
    ensures Apart(Inserted(done, rest[0], Some(proc)), rest[1..]) && Within(Inserted(done, rest[0], Some(proc)), repr)
    ensures rest[0] !in done && Within(rest[1..], repr) && Apart(rest[1..], done + [rest[0]]) && rest[0] in repr
  {
    var r := Inserted(done, rest[0], Some(proc));
    var k := PlaceFor(done, rest[0].value, Some(proc));
    assert forall n :: n in rest[1..] ==> n in rest && n != rest[0];
    assert forall n :: n in rest ==> n !in done by {
      assert forall n :: n in done ==> n !in rest;
    }
    forall i | 0 <= i < |r|
      ensures r[i] !in rest[1..] && r[i] in repr
    {
      assert r[i] == rest[0] || r[i] in done;
    }
  }

  lemma InsertedHas(s: seq<Node>, node: Node, proc: (Value, Value) -> int)
    ensures multiset(Inserted(s, node, Some(proc))) == multiset(s) + multiset{node}
    ensures forall n :: n in Inserted(s, node, Some(proc)) <==> n in s || n == node
  {
    var k := PlaceFor(s, node.value, Some(proc));
    assert s == s[..k] + s[k..];
  }

  /** The comparison orders the values. */
  ghost predicate Orders(proc: (Value, Value) -> int) {
    && (forall a, b :: proc(a, b) < 0 <==> proc(b, a) > 0)
    && (forall a, b, c :: proc(a, b) <= 0 && proc(b, c) <= 0 ==> proc(a, c) <= 0)
  }

  ghost predicate Ascending(s: seq<Node>, proc: (Value, Value) -> int) {
    forall i, j :: 0 <= i < j < |s| ==> proc(s[i].value, s[j].value) <= 0
  }

  lemma InsertedAscends(s: seq<Node>, node: Node, proc: (Value, Value) -> int)
    requires Orders(proc) && Ascending(s, proc)
    ensures Ascending(Inserted(s, node, Some(proc)), proc)
  {
    hide Orders, Ascending, Inserted, PlaceFor;
    var k := PlaceFor(s, node.value, Some(proc));
    var r := Inserted(s, node, Some(proc));
    forall i, j | 0 <= i < j < |r|
      ensures proc(r[i].value, r[j].value) <= 0
    {
      InsertedAt(s, node, proc, i);
      InsertedAt(s, node, proc, j);
      PairOrdered(s, node.value, k, i, j, proc);
    }
    AllOrdered(r, proc);
  }

  /** Any two of the new list, told by their places in the old one. */
  lemma PairOrdered(s: seq<Node>, v: Value, k: nat, i: nat, j: nat, proc: (Value, Value) -> int)
    requires Orders(proc) && Ascending(s, proc) && i < j <= |s| && k <= |s|
    requires (forall m :: 0 <= m < k ==> proc(s[m].value, v) < 0) && (k < |s| ==> proc(s[k].value, v) >= 0)
    ensures proc(if i < k then s[i].value else if i == k then v else s[i - 1].value,
                 if j < k then s[j].value else if j == k then v else s[j - 1].value) <= 0
  {
    hide Orders, Ascending;
    if i == k {
      BehindIt(s, v, k, j - 1, proc);
    } else if j != k {
      InOrder(s, if i < k then i else i - 1, if j < k then j else j - 1, proc);
    }
  }

  lemma AllOrdered(s: seq<Node>, proc: (Value, Value) -> int)
    requires forall i, j :: 0 <= i < j < |s| ==> proc(s[i].value, s[j].value) <= 0
    ensures Ascending(s, proc)
  {}

  lemma InsertedAt(s: seq<Node>, node: Node, proc: (Value, Value) -> int, i: nat)
    requires i < |Inserted(s, node, Some(proc))|
    ensures |Inserted(s, node, Some(proc))| == |s| + 1
    ensures var k := PlaceFor(s, node.value, Some(proc));
            Inserted(s, node, Some(proc))[i] == if i < k then s[i] else if i == k then node else s[i - 1]
  {
    hide PlaceFor;
  }

  lemma InOrder(s: seq<Node>, i: nat, j: nat, proc: (Value, Value) -> int)
    requires Ascending(s, proc) && i < j < |s|
    ensures proc(s[i].value, s[j].value) <= 0
  {}

  /** A value is not above what stands behind the place it goes to. */
  lemma BehindIt(s: seq<Node>, v: Value, k: nat, j: nat, proc: (Value, Value) -> int)
    requires Orders(proc) && Ascending(s, proc) && k <= j < |s| && proc(s[k].value, v) >= 0
    ensures proc(v, s[j].value) <= 0
  {
    assert proc(v, s[k].value) <= 0;
    if k < j {
      InOrder(s, k, j, proc);
    }
  }

  /** Sorting gives back the same nodes, and in order. */
  lemma {:induction false} SortRight(done: seq<Node>, rest: seq<Node>, proc: (Value, Value) -> int)
    requires Orders(proc) && Ascending(done, proc)
    ensures Ascending(SortedInto(done, rest, proc), proc)
    ensures multiset(SortedInto(done, rest, proc)) == multiset(done) + multiset(rest)
    decreases |rest|
  {
    hide Inserted, Ascending, Orders;
    if rest != [] {
      InsertedAscends(done, rest[0], proc);
      InsertedHas(done, rest[0], proc);
      SortRight(Inserted(done, rest[0], Some(proc)), rest[1..], proc);
      assert rest == [rest[0]] + rest[1..];
    }
  }
}
