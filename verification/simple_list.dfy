/** A doubly linked list between two sentinels. */
module SimpleLists {

  class Node<T(0)> {
    var next: Node?<T>
    var pre: Node?<T>
    var data: T

    constructor ()
      ensures next == null && pre == null
    {
      next, pre := null, null;
      data := *;
    }

    constructor Of(t: T)
      ensures next == null && pre == null && data == t
    {
      next, pre, data := null, null, t;
    }
  }

  function Remove<X>(s: seq<X>, k: nat): seq<X>
    requires k < |s|
  {
    s[..k] + s[k + 1..]
  }

  /** The elements whose data an action does not unlink. */
  function Kept<X, T>(elements: seq<X>, data: seq<T>, unlinks: T -> bool): (kept: seq<X>)
    requires |data| == |elements|
    ensures |kept| <= |elements| && forall x <- kept :: x in elements
  {
    if elements == [] then []
    else
      var n := |elements| - 1;
      Kept(elements[..n], data[..n], unlinks) + if unlinks(data[n]) then [] else [elements[n]]
  }

  lemma KeptSnoc<X, T>(elements: seq<X>, data: seq<T>, unlinks: T -> bool, k: nat)
    requires |data| == |elements| && k < |elements|
    ensures Kept(elements[..k + 1], data[..k + 1], unlinks)
         == Kept(elements[..k], data[..k], unlinks) + if unlinks(data[k]) then [] else [elements[k]]
  {
    assert elements[..k + 1][..k] == elements[..k] && data[..k + 1][..k] == data[..k];
  }

  /** One node of the walk: `kept` before it, itself at position `k` of `all`. */
  lemma WalkStep<X>(kept: seq<X>, all: seq<X>, k: nat, last: X)
    requires k < |all|
    ensures var now := kept + all[k..];
            && now != [] && |kept| < |now| && now[|kept|] == all[k]
            && (now + [last])[|kept| + 1] == (if k + 1 < |all| then all[k + 1] else last)
            && Remove(now, |kept|) == (kept + []) + all[k + 1..]
            && now == (kept + [all[k]]) + all[k + 1..]
  {
  }

  lemma {:induction false} KeptNone<X, T>(elements: seq<X>, data: seq<T>, unlinks: T -> bool)
    requires |data| == |elements| && forall d :: unlinks(d)
    ensures Kept(elements, data, unlinks) == []
  {
    if elements != [] {
      KeptNone(elements[..|elements| - 1], data[..|data| - 1], unlinks);
    }
  }

  lemma WalkStart<X, T>(all: seq<X>, data: seq<T>, unlinks: T -> bool)
    requires |data| == |all|
    ensures Kept(all[..0], data[..0], unlinks) == [] && [] + all[0..] == all && data[..0] == []
  {
  }

  lemma WalkEnd<X, T>(kept: seq<X>, all: seq<X>, data: seq<T>)
    requires |data| == |all|
    ensures kept + all[|all|..] == kept && all[..|all|] == all && data[..|all|] == data
  {
  }

  lemma BetweenRemove<X>(first: X, s: seq<X>, last: X, k: nat)
    requires k < |s|
    ensures [first] + Remove(s, k) + [last] == Remove([first] + s + [last], k + 1)
  {
  }

  lemma RemoveAt<X>(s: seq<X>, k: nat)
    requires k < |s|
    ensures |Remove(s, k)| == |s| - 1
    ensures forall i {:trigger Remove(s, k)[i]} :: 0 <= i < |s| - 1 ==> Remove(s, k)[i] == s[if i < k then i else i + 1]
  {
  }

  class SimpleList<T(0)> {
    const head: Node<T>
    const tail: Node<T>
    /** The live nodes, first to last. */
    ghost var nodes: seq<Node<T>>
    /** The sentinels and every node pushed so far. */
    ghost var Repr: set<Node<T>>

    /** The sentinels around the live nodes. */
    ghost function Chain(): seq<Node<T>>
      reads this
    {
      [head] + nodes + [tail]
    }

    /** Distinct nodes, linked both ways; before the first push the sentinels are not linked at all. */
    ghost predicate Valid()
      reads this, Repr
    {
      var c := Chain();
      && (forall i :: 0 <= i < |c| ==> c[i] in Repr)
      && (forall i, j :: 0 <= i < j < |c| ==> c[i] != c[j])
      && head in Repr
      && (head.next == null ==> nodes == [])
      && (head.next != null ==>
            (forall i :: 0 <= i < |c| - 1 ==> c[i].next == c[i + 1])
            && (forall i :: 0 < i < |c| ==> c[i].pre == c[i - 1]))
    }

    /** The data of the live nodes. */
    ghost function Contents(): (d: seq<T>)
      reads this, nodes
      ensures |d| == |nodes| && forall i :: 0 <= i < |d| ==> d[i] == nodes[i].data
    {
      seq(|nodes|, i requires 0 <= i < |nodes| reads this, nodes => nodes[i].data)
    }

    constructor ()
      ensures Valid() && nodes == [] && fresh(Repr)
    {
      head := new Node();
      tail := new Node();
      nodes := [];
      new;
      Repr := {head, tail};
    }

    /** The successors of the head and of a live node. */
    lemma Successors(k: int)
      requires Valid() && nodes != [] && -1 <= k < |nodes|
      ensures head.next == nodes[0] && nodes[0] != tail
      ensures k >= 0 ==> nodes[k] != head && nodes[k] != tail && nodes[k].next == (nodes + [tail])[k + 1]
    {
      var c := Chain();
      assert c[0] == head && c[1] == nodes[0] && c[|nodes| + 1] == tail;
      assert c[k + 1] == if k >= 0 then nodes[k] else head;
      assert c[k + 2] == (nodes + [tail])[k + 1];
    }

    /** The sentinels, and the last live node in front of the tail. */
    lemma Ends()
      requires Valid()
      ensures head in Repr && tail in Repr && head != tail
      ensures nodes == [] ==> head.next == null || head.next == tail
      ensures nodes != [] ==>
        && head.next == nodes[0] && nodes[0] != tail
        && nodes[|nodes| - 1] in Repr && nodes[|nodes| - 1] != tail && nodes[|nodes| - 1] != head
        && tail.pre == nodes[|nodes| - 1]
    {
      var c := Chain();
      assert c[0] == head && c[|nodes| + 1] == tail;
      if nodes != [] {
        assert c[1] == nodes[0] && c[|nodes|] == nodes[|nodes| - 1];
      }
    }

    method PushBack(t: T) returns (node: Node<T>)
      requires Valid()
      modifies this, Repr
      ensures Valid() && fresh(node) && node.data == t && Repr == old(Repr) + {node}
      ensures nodes == old(nodes) + [node]
      ensures forall n <- old(Repr) :: n.data == old(n.data)
    {
      node := new Node.Of(t);
      Ends();
      hide Valid, Chain;
      if head.next == null || head.next == tail {
        LinkFirst(node);
      } else {
        LinkLast(node);
      }
    }

    /** The first node goes between the sentinels. */
    method LinkFirst(node: Node<T>)
      requires Valid() && node !in Repr && nodes == []
      modifies this, Repr, node
      ensures Valid() && node.data == old(node.data) && Repr == old(Repr) + {node} && nodes == [node]
      ensures forall n <- old(Repr) :: n.data == old(n.data)
    {
      Ends();
      head.next := node;
      tail.pre := node;
      node.next := tail;
      node.pre := head;
      Repr := Repr + {node};
      nodes := [node];
      assert Chain() == [head, node, tail];
    }

    /** A later one goes between the last node and the tail. */
    method LinkLast(node: Node<T>)
      requires Valid() && node !in Repr && nodes != []
      modifies this, Repr, node
      ensures Valid() && node.data == old(node.data) && Repr == old(Repr) + {node} && nodes == old(nodes) + [node]
      ensures forall n <- old(Repr) :: n.data == old(n.data)
    {
      Ends();
      ghost var c, m := Chain(), |nodes|;
      assert |c| == m + 2 && c[m] == tail.pre && c[m + 1] == tail && node !in c;
      node.pre := tail.pre;
      node.next := tail;
      tail.pre := node;
      node.pre.next := node;
      Repr := Repr + {node};
      nodes := nodes + [node];
      ghost var d := Chain();
      assert d == c[..m + 1] + [node, tail];
      forall i | 0 <= i < |d| - 1
        ensures d[i].next == d[i + 1] && d[i + 1].pre == d[i]
      {
        if i < m {
          assert d[i] == c[i] && d[i + 1] == c[i + 1];
          assert old(c[i].next) == c[i + 1] && old(c[i + 1].pre) == c[i];
          assert c[i] != c[m] && c[i + 1] != c[m + 1];
        }
      }
    }

    /** Takes a live node out; on a sentinel it does nothing. */
    method RemoveNode(node: Node<T>, ghost k: int)
      requires Valid()
      requires node == head || node == tail || (0 <= k < |nodes| && nodes[k] == node)
      modifies this, Repr
      ensures Valid() && Repr == old(Repr) && (head.next == null) == old(head.next == null)
      ensures nodes == if node == head || node == tail then old(nodes) else Remove(old(nodes), k)
      ensures forall n <- Repr :: n.data == old(n.data)
    {
      if node == head || node == tail {
        return;
      }
      ghost var c := Chain();
      assert c[0] == head && c[k + 1] == node && c[|c| - 1] == tail;
      assert node.next == c[k + 2] && node.pre == c[k];
      node.next.pre := node.pre;
      node.pre.next := node.next;
      BetweenRemove(head, nodes, tail, k);
      RemoveAt(c, k + 1);
      nodes := Remove(nodes, k);
      hide Remove;
      assert Chain() == Remove(c, k + 1);
    }

    /** What an action may do with the node it is given: look at it, or unlink it. */
    method Act(node: Node<T>, ghost k: int, unlinks: T -> bool) returns (seen: T)
      requires Valid() && 0 <= k < |nodes| && nodes[k] == node
      modifies this, Repr
      ensures Valid() && Repr == old(Repr) && seen == old(node.data)
      ensures nodes == if unlinks(seen) then Remove(old(nodes), k) else old(nodes)
      ensures forall n <- Repr :: n.data == old(n.data)
    {
      seen := node.data;
      Successors(k);
      if unlinks(seen) {
        RemoveNode(node, k);
      }
    }

    /** The loop over a linked list, from its first node; `all` and `data` are what it holds at the start. */
    method Walk(unlinks: T -> bool, ghost all: seq<Node<T>>, ghost data: seq<T>) returns (visited: seq<T>)
      requires Valid() && head.next != null && nodes == all && |data| == |all|
      requires forall i :: 0 <= i < |all| ==> all[i] != tail && all[i] in Repr && all[i].data == data[i]
      modifies this, Repr
      ensures Valid() && Repr == old(Repr) && visited == data && nodes == Kept(all, data, unlinks)
      ensures forall n <- Repr :: n.data == old(n.data)
    {
      hide Valid, Kept, Chain, Remove;
      visited := [];
      var node := head.next;
      ghost var kept, k := [], 0;
      FirstNode();
      WalkStart(all, data, unlinks);
      while node != tail
        invariant 0 <= k <= |all| && node == if k < |all| then all[k] else tail
        invariant kept == Kept(all[..k], data[..k], unlinks)
        invariant nodes == kept + all[k..]
        invariant Valid() && Repr == old(Repr)
        invariant visited == data[..k]
        invariant forall n <- Repr :: n.data == old(n.data)
        decreases |all| - k
      {
        KeptSnoc(all, data, unlinks, k);
        assert data[..k] + [data[k]] == data[..k + 1];
        var seen;
        node, seen, kept := Turn(node, unlinks, kept, all, k);
        visited := visited + [seen];
        k := k + 1;
      }
      WalkEnd(kept, all, data);
    }

    /** One turn: the successor first, then the action. */
    method Turn(node: Node<T>, unlinks: T -> bool, ghost kept: seq<Node<T>>, ghost all: seq<Node<T>>, ghost k: nat)
      returns (next: Node<T>, seen: T, ghost kept': seq<Node<T>>)
      requires Valid() && k < |all| && node == all[k] && nodes == kept + all[k..]
      modifies this, Repr
      ensures Valid() && Repr == old(Repr) && seen == old(node.data)
      ensures kept' == kept + if unlinks(seen) then [] else [node]
      ensures nodes == kept' + all[k + 1..] && next == if k + 1 < |all| then all[k + 1] else tail
      ensures forall n <- Repr :: n.data == old(n.data)
    {
      WalkStep(kept, all, k, tail);
      Successors(|kept|);
      next := node.next;
      seen := Act(node, |kept|, unlinks);
      kept' := kept + if unlinks(seen) then [] else [node];
    }

    lemma FirstNode()
      requires Valid() && head.next != null
      ensures head.next == if nodes == [] then tail else nodes[0]
    {
      var c := Chain();
      assert c[0] == head && c[1] == if nodes == [] then tail else nodes[0];
    }

    /** Acts on every node once, in order; the successor is read before the action, which may unlink the node. */
    method HandleEveryNode(unlinks: T -> bool) returns (visited: seq<T>)
      requires Valid()
      modifies this, Repr
      ensures Valid() && Repr == old(Repr) && visited == old(Contents())
      ensures nodes == old(Kept(nodes, Contents(), unlinks))
      ensures forall n <- Repr :: n.data == old(n.data)
    {
      if nodes != [] {
        Successors(-1);
      }
      if head.next == null || head.next == tail {
        assert nodes == [] && Contents() == [];
        return [];
      }
      LiveNodes();
      visited := Walk(unlinks, nodes, Contents());
    }

    lemma LiveNodes()
      requires Valid()
      ensures forall i :: 0 <= i < |nodes| ==> nodes[i] != tail && nodes[i] in Repr
    {
      var c := Chain();
      assert c[|nodes| + 1] == tail && forall i :: 0 <= i < |nodes| ==> nodes[i] == c[i + 1];
    }

    /** The destructor: an action that unlinks whatever it is given. */
    method Destroy()
      requires Valid()
      modifies this, Repr
      ensures Valid() && nodes == []
    {
      ghost var all, data := nodes, Contents();
      var unlinks := (_: T) => true;
      KeptNone(all, data, unlinks);
      var _ := HandleEveryNode(unlinks);
    }

    /** The node `n` links away from `from`, forwards or backwards. */
    ghost function Follow(from: Node<T>, n: nat, forward: bool): Node?<T>
      reads this, Repr
      decreases n
    {
      if from !in Repr then null
      else if n == 0 then from
      else
        var link := if forward then from.next else from.pre;
        if link == null then null else Follow(link, n - 1, forward)
    }

    /** In a linked list the walk from the head and the walk from the tail meet the same nodes. */
    lemma {:induction false} WalksAgree(i: nat, n: nat)
      requires Valid() && head.next != null && i + n < |Chain()|
      ensures Follow(Chain()[i], n, true) == Chain()[i + n]
      ensures Follow(Chain()[i + n], n, false) == Chain()[i]
      decreases n
    {
      if n > 0 {
        WalksAgree(i + 1, n - 1);
        WalksAgree(i, n - 1);
      }
    }
  }
}
