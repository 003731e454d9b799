// kernel/list.h: circular doubly linked lists, rewritten in place.
module Lists {
  import opened Sequences

  /** struct list_head */
  class Node {
    var next: Node
    var prev: Node

    /** INIT_LIST_HEAD: a node linked to itself is an empty list. */
    constructor ()
      ensures List(this, [])
    {
      next := this;
      prev := this;
    }
  }

  /** b follows a in a ring. */
  ghost predicate Linked(a: Node, b: Node)
    reads a, b
  {
    a.next == b && b.prev == a
  }

  /** The nodes of s, in order, form one ring. */
  ghost predicate Ring(s: seq<Node>)
    requires s != []
    reads s
  {
    Distinct(s) && Linked(s[|s| - 1], s[0]) && forall i: nat :: 0 < i < |s| ==> Linked(s[i - 1], s[i])
  }

  /** The list with this head holds these items: they follow the head in the ring. */
  ghost predicate List(head: Node, items: seq<Node>)
    reads [head] + items
  {
    Ring([head] + items)
  }

  /** __list_add */
  method AddBetween(node: Node, prev: Node, next: Node)
    requires node == prev <==> node == next
    modifies node, prev, next
    ensures Linked(prev, node) && Linked(node, next)
    ensures prev != next ==> prev.prev == old(prev.prev) && next.next == old(next.next)
  {
    next.prev := node;
    node.next := next;
    node.prev := prev;
    prev.next := node;
  }

  /** The k-th node of a ring counted from the head; the head itself at the end */
  function Place(head: Node, items: seq<Node>, k: nat): Node
    requires k <= |items|
  {
    if k < |items| then items[k] else head
  }

  lemma FirstPlace(head: Node, items: seq<Node>)
    requires List(head, items)
    ensures head.next == Place(head, items, 0)
  {
    var s := [head] + items;
    assert items != [] ==> Linked(s[0], s[1]);
  }

  lemma NextPlace(head: Node, items: seq<Node>, k: nat)
    requires List(head, items) && k < |items|
    ensures Place(head, items, k) == items[k] != head && items[k].next == Place(head, items, k + 1)
  {
    var s := [head] + items;
    assert s[k + 1] == items[k] && s[k + 1] != s[0];
    if k + 1 < |items| { assert s[k + 2] == items[k + 1] && Linked(s[k + 1], s[k + 2]); }
  }

  lemma AtHead(head: Node, items: seq<Node>, k: nat)
    requires List(head, items) && k <= |items| && Place(head, items, k) == head
    ensures k == |items|
  {
    var s := [head] + items;
    assert s[0] == head && forall i: nat :: i < |items| ==> s[i + 1] == items[i];
  }

  /** list_add puts a node first. */
  method ListAdd(node: Node, head: Node, ghost items: seq<Node>)
    requires List(head, items) && node != head && node !in items
    modifies node, head, items
    ensures List(head, [node] + items)
  {
    ghost var s := [head] + items;
    ghost var t := [head] + ([node] + items);
    assert head.next == if items == [] then head else items[0] by {
      assert items != [] ==> Linked(s[0], s[1]);
    }
    AddBetween(node, head, head.next);
    assert items != [] ==> s[1] == items[0];
    assert t[0] == head && t[1] == node && forall i: nat :: 1 < i < |t| ==> t[i] == s[i - 1];
  }

  /** list_add_tail puts a node last. */
  method ListAddTail(node: Node, head: Node, ghost items: seq<Node>)
    requires List(head, items) && node != head && node !in items
    modifies node, head, items
    ensures List(head, items + [node])
  {
    ghost var s := [head] + items;
    ghost var t := [head] + (items + [node]);
    AddBetween(node, head.prev, head);
    assert t[|s|] == node && forall i: nat :: i < |s| ==> t[i] == s[i];
  }

  /** list_del takes a node out of its ring, wherever it stands, and links it to itself. */
  method ListDel(node: Node, ghost s: seq<Node>, ghost k: nat)
    requires s != [] && Ring(s) && k < |s| && node == s[k]
    modifies s
    ensures List(node, [])
    ensures |s| > 1 ==> Ring(s[..k] + s[k + 1..])
  {
    ghost var t := s[..k] + s[k + 1..];
    var before, after := node.prev, node.next;
    assert before == if k == 0 then s[|s| - 1] else s[k - 1] by {
      assert k > 0 ==> Linked(s[k - 1], s[k]);
    }
    assert after == if k + 1 < |s| then s[k + 1] else s[0] by {
      assert k + 1 < |s| ==> Linked(s[k], s[k + 1]);
    }
    node.next.prev := node.prev;
    node.prev.next := node.next;
    node.next := node;
    node.prev := node;
    if |s| > 1 {
      assert Linked(before, after);
      forall i: nat, j: nat | i < j < |t| ensures t[i] != t[j] {
        assert s[if i < k then i else i + 1] != s[if j < k then j else j + 1];
      }
      forall i: nat | 0 < i < |t| ensures Linked(t[i - 1], t[i]) {
        if i < k { assert old(Linked(s[i - 1], s[i])); }
        else if i > k { assert old(Linked(s[i], s[i + 1])); }
      }
    }
  }

  /** list_empty */
  method ListEmpty(head: Node, ghost items: seq<Node>) returns (empty: bool)
    requires List(head, items)
    ensures empty <==> items == []
  {
    empty := head.next == head;
    assert items != [] ==> ([head] + items)[1] == items[0];
  }

  /** init's list after some rounds on nodes of its own: a single child is lost in the
      first of them, and of several the first two change places in each. */
  function Turned(items: seq<Node>, rounds: nat): seq<Node> {
    if rounds == 0 then items
    else if |items| < 2 then []
    else if rounds % 2 == 0 then items
    else [items[1], items[0]] + items[2..]
  }

  lemma TurnedNext(items: seq<Node>, rounds: nat)
    ensures Turned(Turned(items, rounds), 1) == Turned(items, rounds + 1)
    ensures forall n <- Turned(items, rounds) :: n in items
  {
    if |items| >= 2 { assert items == [items[0], items[1]] + items[2..]; }
  }

  /** One round of the reparenting loop on a node of init's own ring. */
  method Round(pos: Node, init: Node, ghost items: seq<Node>) returns (next: Node, ghost now: seq<Node>)
    requires List(init, items)
    requires if |items| < 2 then pos == init else pos == items[1]
    modifies init, items
    ensures List(init, now) && now == Turned(items, 1)
    ensures if |now| < 2 then next == init else next == now[1]
  {
    ghost var s := [init] + items;
    if pos == init {
      ListDel(pos, s, 0);
      now := [];
      AddBetween(pos, init, init.next);
    } else {
      ghost var rest := items[..1] + items[2..];
      assert s[2] == pos && s[..2] + s[3..] == [init] + rest;
      assert forall i: nat :: i < |rest| ==> rest[i] == s[if i == 0 then 1 else i + 2];
      ListDel(pos, s, 2);
      ListAdd(pos, init, rest);
      now := [pos] + rest;
      assert ([init] + now)[1] == pos && ([init] + now)[2] == now[1];
      assert now == [items[1], items[0]] + items[2..];
    }
    next := pos.next;
  }

  lemma TurnedNone(items: seq<Node>)
    ensures Turned(items, 0) == items
  {}

  /** Rounds never leave init's ring, so they never meet a node outside it. */
  method Rounds(start: Node, init: Node, current: Node, ghost items: seq<Node>, rounds: nat) returns (pos: Node)
    requires List(init, items) && current !in [init] + items
    requires if |items| < 2 then start == init else start == items[1]
    modifies init, items
    ensures pos != current && List(init, Turned(items, rounds))
  {
    hide List, Turned;
    pos := start;
    ghost var now := items;
    TurnedNone(items);
    for round: nat := 0 to rounds
      invariant List(init, now) && now == Turned(items, round)
      invariant if |now| < 2 then pos == init else pos == now[1]
    {
      TurnedNext(items, round);
      assert forall i: nat :: i < |now| ==> now[i] in items;
      pos, now := Round(pos, init, now);
    }
    TurnedNext(items, rounds);
    assert |now| >= 2 ==> now[1] in items;
  }

  /** A list given by its head and its items stays while its nodes do. */
  twostate lemma ListStays(s: seq<Node>)
    requires s != [] && old(List(s[0], s[1..]))
    requires forall n <- s :: n.next == old(n.next) && n.prev == old(n.prev)
    ensures List(s[0], s[1..])
  {
    assert s == [s[0]] + s[1..];
  }

  /** The first child, taken off its list */
  method TakeFirst(current: Node, ghost mine: seq<Node>) returns (pos: Node)
    requires List(current, mine) && mine != []
    modifies current, mine
    ensures pos == mine[0] && List(current, mine[1..]) && pos !in [current] + mine[1..]
  {
    ghost var s := [current] + mine;
    assert s[1] == mine[0] && Linked(s[0], s[1]);
    pos := current.next;
    ListDel(pos, s, 1);
    assert s[..1] + s[2..] == [current] + mine[1..];
    forall n | n in [current] + mine[1..] ensures n != pos {
      ghost var i: nat :| i < |[current] + mine[1..]| && ([current] + mine[1..])[i] == n;
      assert n == s[if i == 0 then 0 else i + 1] && pos == s[1];
    }
  }

  /** The first child, moved in front of init's list. */
  method MoveFirst(current: Node, init: Node, ghost mine: seq<Node>, ghost items: seq<Node>)
    returns (pos: Node, next: Node)
    requires List(current, mine) && List(init, items) && mine != []
    requires forall n <- [init] + items :: n !in [current] + mine
    modifies current, mine, init, items
    ensures pos == mine[0] && List(init, [pos] + items) && List(current, mine[1..])
    ensures next == (if items == [] then init else items[0]) && pos !in [current] + mine[1..]
  {
    hide List;
    ghost var others, rest := [init] + items, [current] + mine[1..];
    assert others[0] == init && init in others && forall n <- items :: n in others;
    pos := TakeFirst(current, mine);
    assert pos in mine && forall n <- rest :: n in [current] + mine;
    assert others[1..] == items && rest[1..] == mine[1..];
    ListStays(others);
    label Taken:
    assert forall n <- rest :: n !in others && n != pos;
    ListAdd(pos, init, items);
    ListStays@Taken(rest);
    next := Second(init, pos, items);
  }

  method Second(init: Node, pos: Node, ghost items: seq<Node>) returns (next: Node)
    requires List(init, [pos] + items)
    ensures next == if items == [] then init else items[0]
  {
    ghost var r := [init] + ([pos] + items);
    assert items == [] ==> r[|r| - 1] == pos && r[0] == init;
    assert items != [] ==> Linked(r[1], r[2]);
    next := pos.next;
  }

  /**
   * The reparenting loop of exit_current (kernel/process.c, lines 298-306),
   * followed for as many rounds as one likes.  The first round moves a child to
   * init's list and continues from the moved node, so from then on the
   * traversal is in init's ring and never meets the head it is waiting for.
   */
  method Reparent(current: Node, init: Node, ghost mine: seq<Node>, ghost items: seq<Node>, rounds: nat)
    returns (ended: bool)
    requires List(current, mine) && List(init, items)
    requires forall n <- [init] + items :: n !in [current] + mine
    modifies current, mine, init, items
    ensures ended <==> mine == []
    ensures mine != [] ==> List(current, mine[1..]) && List(init, Turned([mine[0]] + items, rounds))
  {
    ended := ListEmpty(current, mine);
    if ended { return; }
    assert current in [current] + mine && mine[0] != current by {
      assert ([current] + mine)[0] != ([current] + mine)[1];
    }
    hide List;
    ghost var rest := [current] + mine[1..];
    assert forall n <- rest :: n in [current] + mine;
    var pos, next := MoveFirst(current, init, mine, items);
    label Moved:
    assert forall n <- rest :: n !in [init] + ([pos] + items);
    assert current in rest;
    next := Rounds(next, init, current, [pos] + items, rounds);
    assert rest[1..] == mine[1..];
    ListStays@Moved(rest);
    ended := next == current;
  }
}
