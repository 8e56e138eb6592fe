/** The sequences that the intrusive list of libvdr-tools.c represents. */
module Sequences {

  function InsertAt<T>(s: seq<T>, k: nat, x: T): seq<T>
    requires k <= |s|
  {
    s[..k] + [x] + s[k..]
  }

  function RemoveAt<T>(s: seq<T>, k: nat): seq<T>
    requires k < |s|
  {
    s[..k] + s[k + 1..]
  }

  function MoveTo<T>(s: seq<T>, i: nat, j: nat): seq<T>
    requires i < |s| && j < |s|
  {
    InsertAt(RemoveAt(s, i), j, s[i])
  }

  ghost predicate Distinct<T>(s: seq<T>) {
    forall i, j :: 0 <= i < j < |s| ==> s[i] != s[j]
  }

  /** A moved element ends up at index j, and taking it out again leaves the others in their old order. */
  lemma MoveToMeaning<T>(s: seq<T>, i: nat, j: nat)
    requires i < |s| && j < |s|
    ensures MoveTo(s, i, j)[j] == s[i]
    ensures RemoveAt(MoveTo(s, i, j), j) == RemoveAt(s, i)
  {
  }

  /** Moving back is the inverse of moving, so a move loses and duplicates nothing. */
  lemma MoveToInverse<T>(s: seq<T>, i: nat, j: nat)
    requires i < |s| && j < |s|
    ensures MoveTo(MoveTo(s, i, j), j, i) == s
    ensures multiset(MoveTo(s, i, j)) == multiset(s)
  {
    MoveToMeaning(s, i, j);
    RemoveAtMultiset(s, i);
    RemoveAtMultiset(MoveTo(s, i, j), j);
    assert s == s[..i] + [s[i]] + s[i + 1..];
    var rest := RemoveAt(s, i);
    assert rest[..i] == s[..i] && rest[i..] == s[i + 1..];
    assert rest == rest[..j] + rest[j..];
    assert multiset(MoveTo(s, i, j)) == multiset(RemoveAt(s, i)) + multiset{s[i]};
  }

  lemma RemoveAtMultiset<T>(s: seq<T>, k: nat)
    requires k < |s|
    ensures multiset(RemoveAt(s, k)) == multiset(s) - multiset{s[k]}
  {
    assert s == s[..k] + [s[k]] + s[k + 1..];
  }

  lemma DistinctMultiplicity<T>(s: seq<T>, x: T)
    requires Distinct(s)
    ensures multiset(s)[x] == if x in s then 1 else 0
  {
    if x in s {
      var i :| 0 <= i < |s| && s[i] == x;
      var before, after := s[..i], s[i + 1..];
      assert s == before + [x] + after;
      assert x !in before && x !in after;
    }
  }

  lemma TwiceMultiplicity<T>(s: seq<T>, i: nat, j: nat)
    requires i < j < |s| && s[i] == s[j]
    ensures multiset(s)[s[i]] >= 2
  {
    var before, after := s[..j], s[j..];
    assert s == before + after;
    assert before[i] == s[i] && after[0] == s[i];
    assert s[i] in multiset(before) && s[i] in multiset(after);
  }

  lemma DistinctIffMultiplicityOne<T>(s: seq<T>)
    ensures Distinct(s) <==> forall x | x in multiset(s) :: multiset(s)[x] == 1
  {
    if i, j :| 0 <= i < j < |s| && s[i] == s[j] {
      TwiceMultiplicity(s, i, j);
    } else {
      forall x | x in multiset(s)
        ensures multiset(s)[x] == 1
      {
        DistinctMultiplicity(s, x);
      }
    }
  }
}

/** cListObject and cListBase of libvdr-tools.c: an intrusive doubly linked list on the heap. */
module CList {
  import opened Sequences

  class ListObject<T> {
    const value: T
    var prev: ListObject?<T>
    var next: ListObject?<T>

    constructor (value: T)
      ensures this.value == value && Unlinked()
    {
      this.value := value;
      prev, next := null, null;
    }

    ghost predicate Unlinked()
      reads this
    {
      prev == null && next == null
    }

    method Append(node: ListObject<T>)
      modifies this`next, node`prev
      ensures next == node && node.prev == this
    {
      next := node;
      node.prev := this;
    }

    method Insert(node: ListObject<T>)
      modifies this`prev, node`next
      ensures prev == node && node.next == this
    {
      prev := node;
      node.next := this;
    }

    /** Takes this node out of the chain it is part of; the rest stays a well-formed chain. */
    method Unlink(ghost chain: seq<ListObject<T>>, ghost k: nat)
      requires k < |chain| && chain[k] == this && Chain(chain)
      modifies chain
      ensures Unlinked()
      ensures Chain(RemoveAt(chain, k))
    {
      if next != null {
        next.prev := prev;
      }
      if prev != null {
        prev.next := next;
      }
      next, prev := null, null;
    }

    /** The position of this node, found by counting its predecessors. */
    method Index(ghost chain: seq<ListObject<T>>, ghost k: nat) returns (i: nat)
      requires k < |chain| && chain[k] == this && Chain(chain)
      ensures i == k
    {
      var p := prev;
      i := 0;
      while p != null
        invariant i <= k
        invariant p == Before(chain, k - i)
        decreases k - i
      {
        i := i + 1;
        p := p.prev;
      }
    }
  }

  /** What the nodes carry. */
  ghost function Values<T>(nodes: seq<ListObject<T>>): (s: seq<T>)
    ensures |s| == |nodes| && forall i :: 0 <= i < |s| ==> s[i] == nodes[i].value
  {
    seq(|nodes|, i requires 0 <= i < |nodes| => nodes[i].value)
  }

  lemma ValuesRemoveAt<T>(nodes: seq<ListObject<T>>, k: nat)
    requires k < |nodes|
    ensures Values(RemoveAt(nodes, k)) == RemoveAt(Values(nodes), k)
  {
  }

  ghost function Before<T>(chain: seq<ListObject<T>>, i: nat): ListObject?<T>
    requires i <= |chain|
  {
    if i == 0 then null else chain[i - 1]
  }

  ghost function After<T>(chain: seq<ListObject<T>>, i: nat): ListObject?<T>
    requires i < |chain|
  {
    if i + 1 == |chain| then null else chain[i + 1]
  }

  /** The nodes are pairwise distinct and their links describe exactly this order. */
  ghost predicate Chain<T>(chain: seq<ListObject<T>>)
    reads chain
  {
    && Distinct(chain)
    && (forall i {:trigger chain[i].prev} :: 0 <= i < |chain| ==> chain[i].prev == Before(chain, i))
    && (forall i {:trigger chain[i].next} :: 0 <= i < |chain| ==> chain[i].next == After(chain, i))
  }

  /**
   * The links of a chain, except that x has been put between positions k - 1 and k, are the links
   * of the chain with x inserted at k.
   */
  lemma LinkedIn<T>(chain: seq<ListObject<T>>, k: nat, x: ListObject<T>)
    requires Distinct(chain) && k <= |chain| && x !in chain
    requires x.prev == Before(chain, k)
    requires x.next == if k < |chain| then chain[k] else null
    requires forall i {:trigger chain[i].next} :: 0 <= i < |chain| ==>
               chain[i].next == if i + 1 == k then x else After(chain, i)
    requires forall i {:trigger chain[i].prev} :: 0 <= i < |chain| ==>
               chain[i].prev == if i == k then x else Before(chain, i)
    ensures Chain(InsertAt(chain, k, x))
  {
  }

  predicate Leq<T>(compare: (T, T) -> int, x: ListObject<T>, y: ListObject<T>) {
    compare(x.value, y.value) <= 0
  }

  ghost predicate SortedBy<T>(compare: (T, T) -> int, a: seq<ListObject<T>>) {
    forall i, j :: 0 <= i < j < |a| ==> Leq(compare, a[i], a[j])
  }

  /** What Compare promises about the objects at hand: a total order up to equality. */
  ghost predicate Comparable<T>(compare: (T, T) -> int, a: seq<ListObject<T>>) {
    && (forall x, y | x in a && y in a :: Leq(compare, x, y) || Leq(compare, y, x))
    && (forall x, y, z | x in a && y in a && z in a :: Leq(compare, x, y) && Leq(compare, y, z) ==> Leq(compare, x, z))
  }

  /** Stands for the C library's qsort; Sort relies on these postconditions only. */
  method Qsort<T>(a: seq<ListObject<T>>, compare: (T, T) -> int) returns (r: seq<ListObject<T>>)
    requires Comparable(compare, a)
    ensures multiset(r) == multiset(a)
    ensures SortedBy(compare, r)
  {
    r := [];
    for i := 0 to |a|
      invariant multiset(r) == multiset(a[..i])
      invariant SortedBy(compare, r)
    {
      forall x | x in r
        ensures x in a
      {
        assert x in multiset(r);
      }
      assert a[..i + 1] == a[..i] + [a[i]];
      r := InsertSorted(r, a[i], compare, a);
    }
    assert a[..|a|] == a;
  }

  method InsertSorted<T>(s: seq<ListObject<T>>, x: ListObject<T>, compare: (T, T) -> int, ghost all: seq<ListObject<T>>)
    returns (r: seq<ListObject<T>>)
    requires x in all && forall y | y in s :: y in all
    requires SortedBy(compare, s) && Comparable(compare, all)
    ensures multiset(r) == multiset(s) + multiset{x}
    ensures SortedBy(compare, r)
  {
    hide Comparable, SortedBy, Leq;
    var k := |s|;
    while k > 0 && !Leq(compare, s[k - 1], x)
      invariant 0 <= k <= |s|
      invariant forall i :: k <= i < |s| ==> !Leq(compare, s[i], x)
    {
      k := k - 1;
    }
    InsertedSorted(s, k, x, compare, all);
    r := InsertAt(s, k, x);
    assert s == s[..k] + s[k..];
  }

  lemma InsertedSorted<T>(s: seq<ListObject<T>>, k: nat, x: ListObject<T>, compare: (T, T) -> int,
                          all: seq<ListObject<T>>)
    requires x in all && forall y | y in s :: y in all
    requires SortedBy(compare, s) && Comparable(compare, all)
    requires k <= |s| && (k > 0 ==> Leq(compare, s[k - 1], x))
    requires forall i :: k <= i < |s| ==> !Leq(compare, s[i], x)
    ensures SortedBy(compare, InsertAt(s, k, x))
  {
  }

  class ListBase<T> {
    var objects: ListObject?<T>
    var lastObject: ListObject?<T>
    var count: int
    ghost var nodes: seq<ListObject<T>>

    /** The pointers represent `nodes`. */
    ghost predicate Linked()
      reads this, nodes
    {
      && Chain(nodes)
      && objects == (if nodes == [] then null else nodes[0])
      && lastObject == (if nodes == [] then null else nodes[|nodes| - 1])
    }

    ghost predicate Valid()
      reads this, nodes
    {
      Linked() && count == |nodes|
    }

    constructor ()
      ensures Valid() && nodes == []
    {
      objects, lastObject, count, nodes := null, null, 0, [];
    }

    method Add(node: ListObject<T>, after: ListObject?<T> := null)
      requires Linked() && node.Unlinked() && node !in nodes
      requires after != null ==> after in nodes
      modifies this, nodes, node
      ensures Linked() && count == old(count) + 1
      ensures after == null ==> nodes == old(nodes) + [node]
      ensures forall k :: 0 <= k < |old(nodes)| && old(nodes)[k] == after ==>
                            nodes == InsertAt(old(nodes), k + 1, node)
    {
      if after != null && after != lastObject {
        ghost var k :| 0 <= k < |nodes| && nodes[k] == after;
        LinkAfter(node, after, k);
      } else {
        LinkLast(node);
      }
      count := count + 1;
    }

    method Ins(node: ListObject<T>, before: ListObject?<T> := null)
      requires Linked() && node.Unlinked() && node !in nodes
      requires before != null ==> before in nodes
      modifies this, nodes, node
      ensures Linked() && count == old(count) + 1
      ensures before == null ==> nodes == [node] + old(nodes)
      ensures forall k :: 0 <= k < |old(nodes)| && old(nodes)[k] == before ==>
                            nodes == InsertAt(old(nodes), k, node)
    {
      if before != null && before != objects {
        ghost var k :| 0 <= k < |nodes| && nodes[k] == before;
        LinkBefore(node, before, k);
      } else {
        LinkFirst(node);
      }
      count := count + 1;
    }

    // The four branches of Add and Ins.

    method LinkAfter(node: ListObject<T>, after: ListObject<T>, ghost k: nat)
      requires Linked() && node.Unlinked() && node !in nodes
      requires k + 1 < |nodes| && nodes[k] == after
      modifies this`nodes, nodes, node
      ensures Linked() && nodes == InsertAt(old(nodes), k + 1, node)
    {
      after.next.Insert(node);
      after.Append(node);
      LinkedIn(nodes, k + 1, node);
      nodes := InsertAt(nodes, k + 1, node);
    }

    method LinkBefore(node: ListObject<T>, before: ListObject<T>, ghost k: nat)
      requires Linked() && node.Unlinked() && node !in nodes
      requires 0 < k < |nodes| && nodes[k] == before
      modifies this`nodes, nodes, node
      ensures Linked() && nodes == InsertAt(old(nodes), k, node)
    {
      before.prev.Append(node);
      before.Insert(node);
      LinkedIn(nodes, k, node);
      nodes := InsertAt(nodes, k, node);
    }

    method LinkLast(node: ListObject<T>)
      requires Linked() && node.Unlinked() && node !in nodes
      modifies this`objects, this`lastObject, this`nodes, nodes, node
      ensures Linked() && nodes == old(nodes) + [node]
    {
      if lastObject != null {
        lastObject.Append(node);
      } else {
        objects := node;
      }
      lastObject := node;
      LinkedIn(nodes, |nodes|, node);
      assert nodes + [node] == InsertAt(nodes, |nodes|, node);
      nodes := nodes + [node];
    }

    method LinkFirst(node: ListObject<T>)
      requires Linked() && node.Unlinked() && node !in nodes
      modifies this`objects, this`lastObject, this`nodes, nodes, node
      ensures Linked() && nodes == [node] + old(nodes)
    {
      if objects != null {
        objects.Insert(node);
      } else {
        lastObject := node;
      }
      objects := node;
      LinkedIn(nodes, 0, node);
      assert [node] + nodes == InsertAt(nodes, 0, node);
      nodes := [node] + nodes;
    }

    /** The lines that Del and Move share: unlinks the node at k and fixes the two end pointers. */
    method Detach(node: ListObject<T>, ghost k: nat)
      requires Linked() && k < |nodes| && nodes[k] == node
      modifies this`objects, this`lastObject, this`nodes, nodes
      ensures Linked() && node.Unlinked() && nodes == RemoveAt(old(nodes), k)
    {
      if node == objects {
        objects := node.next;
      }
      if node == lastObject {
        lastObject := node.prev;
      }
      node.Unlink(nodes, k);
      nodes := RemoveAt(nodes, k);
    }

    /** Removes the node; deleting it as well makes no difference to the list. */
    method Del(node: ListObject<T>)
      requires Valid() && node in nodes
      modifies this, nodes
      ensures Valid() && node.Unlinked()
      ensures forall k :: 0 <= k < |old(nodes)| && old(nodes)[k] == node ==> nodes == RemoveAt(old(nodes), k)
    {
      ghost var k :| 0 <= k < |nodes| && nodes[k] == node;
      Detach(node, k);
      count := count - 1;
    }

    method Get(index: int) returns (node: ListObject?<T>)
      requires Valid()
      ensures node == if 0 <= index < |nodes| then nodes[index] else null
    {
      if index < 0 {
        return null;
      }
      node := objects;
      var i, rest := 0, index;
      while node != null && rest > 0
        invariant 0 <= i <= |nodes| && rest == index - i && 0 <= rest
        invariant node == if i < |nodes| then nodes[i] else null
        decreases rest
      {
        node := node.next;
        i, rest := i + 1, rest - 1;
      }
    }

    method First() returns (first: ListObject?<T>)
      requires Valid()
      ensures first == if nodes == [] then null else nodes[0]
    {
      first := objects;
    }

    method Next(node: ListObject<T>, ghost k: nat) returns (next: ListObject?<T>)
      requires Valid() && k < |nodes| && nodes[k] == node
      ensures next == if k + 1 < |nodes| then nodes[k + 1] else null
    {
      next := node.next;
    }

    /** Move(int, int): positions outside the list leave it as it is. */
    method Move(source: int, target: int)
      requires Valid()
      modifies this, nodes
      ensures Valid()
      ensures nodes == if 0 <= source < |old(nodes)| && 0 <= target < |old(nodes)|
                       then MoveTo(old(nodes), source, target) else old(nodes)
    {
      var f := Get(source);
      var t := Get(target);
      MoveObject(f, t, source, target);
    }

    /** Move(cListObject *, cListObject *). */
    method MoveObject(f: ListObject?<T>, t: ListObject?<T>, ghost i: int, ghost j: int)
      requires Valid()
      requires f == if 0 <= i < |nodes| then nodes[i] else null
      requires t == if 0 <= j < |nodes| then nodes[j] else null
      modifies this, nodes
      ensures Valid()
      ensures nodes == if f == null || t == null then old(nodes) else MoveTo(old(nodes), i, j)
    {
      if f != null && t != null && f != t {
        var to: ListObject?<T> := t;
        var fi := f.Index(nodes, i);
        var ti := to.Index(nodes, j);
        if fi < ti {
          to := to.next;
        }
        Detach(f, i);
        Relink(f, to, j);
      } else if f != null && t != null {
        MoveToMeaning(nodes, i, j);
      }
    }

    /** The second half of Move: puts the unlinked f in front of `to`, or at the end if there is none. */
    method Relink(f: ListObject<T>, to: ListObject?<T>, ghost j: nat)
      requires Linked() && nodes != [] && f.Unlinked() && f !in nodes
      requires j <= |nodes| && to == if j < |nodes| then nodes[j] else null
      modifies this`objects, this`lastObject, this`nodes, nodes, f
      ensures Linked() && nodes == InsertAt(old(nodes), j, f)
    {
      if to != null {
        if to.prev != null {
          to.prev.Append(f);
        }
        f.Append(to);
      } else {
        lastObject.Append(f);
        lastObject := f;
      }
      if f.prev == null {
        objects := f;
      }
      LinkedIn(nodes, j, f);
      nodes := InsertAt(nodes, j, f);
    }

    /** Deletes every node, first to last; `freed` is the order of the deletions. */
    method Clear() returns (ghost freed: seq<ListObject<T>>)
      requires Valid()
      modifies this
      ensures Valid() && nodes == [] && freed == old(nodes)
    {
      freed := [];
      while objects != null
        invariant nodes == old(nodes) && Chain(nodes)
        invariant |freed| <= |nodes| && freed == nodes[..|freed|]
        invariant objects == if |freed| < |nodes| then nodes[|freed|] else null
        decreases |nodes| - |freed|
      {
        var node := objects.next;
        freed := freed + [objects];
        objects := node;
      }
      objects, lastObject, count, nodes := null, null, 0, [];
    }

    method Sort(compare: (T, T) -> int)
      requires Valid() && Comparable(compare, nodes)
      modifies this, nodes
      ensures Valid()
      ensures multiset(nodes) == old(multiset(nodes))
      ensures SortedBy(compare, nodes)
    {
      var n := count;
      var a: seq<ListObject<T>> := [];
      var node := objects;
      while node != null && |a| < n
        invariant |a| <= n && a == nodes[..|a|]
        invariant node == if |a| < n then nodes[|a|] else null
      {
        a := a + [node];
        node := node.next;
      }
      assert a == nodes;
      a := Qsort(a, compare);
      Rebuild(a);
    }

    /** The last loop of Sort: the old chain shrinks to nothing while the new one grows to the given order. */
    method Rebuild(a: seq<ListObject<T>>)
      requires Valid() && multiset(a) == multiset(nodes)
      modifies this, nodes
      ensures Valid() && nodes == a
    {
      var n := count;
      objects, lastObject := null, null;
      ghost var rest := nodes;
      nodes := [];
      DistinctPermutation(rest, a);
      assert Pending(a, 0, rest) by {
        assert a[0..] == a;
      }
      hide Chain, Pending;
      for i := 0 to n
        invariant |a| == n && count == n
        invariant Linked() && nodes == a[..i]
        invariant Chain(rest) && Pending(a, i, rest)
        invariant forall x | x in rest :: x in old(nodes)
        invariant forall x | x in nodes :: x in old(nodes)
      {
        ghost var k := NextInRest(a, i, rest);
        assert forall j :: 0 <= j < |rest| ==> rest[j] in rest;
        assert forall j :: 0 <= j < |nodes| ==> nodes[j] in nodes;
        TakeOver(a[i], rest, k);
        rest := RemoveAt(rest, k);
      }
      assert a[..n] == a;
    }

    /** One round of Sort: unlinks a node from the old chain and adds it to the end of the new one. */
    method TakeOver(node: ListObject<T>, ghost rest: seq<ListObject<T>>, ghost k: nat)
      requires Linked() && Chain(rest) && k < |rest| && rest[k] == node
      requires forall x | x in rest :: x !in nodes
      modifies this, nodes, rest
      ensures Linked() && nodes == old(nodes) + [node] && count == old(count)
      ensures Chain(RemoveAt(rest, k)) && forall x | x in RemoveAt(rest, k) :: x !in nodes
    {
      assert forall i :: 0 <= i < |nodes| ==> nodes[i] in nodes && nodes[i] !in rest;
      node.Unlink(rest, k);
      count := count - 1;
      assert forall i :: 0 <= i < |RemoveAt(rest, k)| ==> RemoveAt(rest, k)[i] in rest && RemoveAt(rest, k)[i] != node;
      Add(node, null);
    }
  }

  lemma DistinctPermutation<T>(a: seq<T>, b: seq<T>)
    requires Distinct(a) && multiset(a) == multiset(b)
    ensures Distinct(b) && |a| == |b|
  {
    assert |multiset(a)| == |a| && |multiset(b)| == |b|;
    DistinctIffMultiplicityOne(a);
    DistinctIffMultiplicityOne(b);
  }

  /** The old chain holds exactly the nodes from position i of the new order on. */
  ghost predicate Pending<T>(a: seq<T>, i: nat, rest: seq<T>) {
    i <= |a| && Distinct(a) && multiset(rest) == multiset(a[i..])
  }

  /** The next node to take over is still in the old chain, and no taken-over node is. */
  lemma NextInRest<T>(a: seq<T>, i: nat, rest: seq<T>) returns (k: nat)
    requires i < |a| && Pending(a, i, rest)
    ensures k < |rest| && rest[k] == a[i]
    ensures Pending(a, i + 1, RemoveAt(rest, k))
    ensures forall x | x in rest :: x !in a[..i]
    ensures a[..i + 1] == a[..i] + [a[i]]
  {
    TailMultiset(a, i);
    assert a[i] in multiset(rest);
    k :| 0 <= k < |rest| && rest[k] == a[i];
    RemoveAtMultiset(rest, k);
    forall x | x in rest
      ensures x !in a[..i]
    {
      assert x in multiset(rest);
    }
  }

  lemma TailMultiset<T>(a: seq<T>, i: nat)
    requires i < |a| && Distinct(a)
    ensures multiset(a[i..]) == multiset{a[i]} + multiset(a[i + 1..])
    ensures forall x | x in multiset(a[i..]) :: x !in a[..i]
  {
    assert a[i..] == [a[i]] + a[i + 1..];
    forall x | x in multiset(a[i..])
      ensures x !in a[..i]
    {
      assert x in a[i..];
    }
  }
}

/** Loops over whole lists, as the users of cList write them. */
module ListWalk {
  import opened CList
  import opened Filters
  import opened Sequences

  method TakeFirst<T>(source: ListBase<T>) returns (s: ListObject<T>)
    requires source.Valid() && source.nodes != []
    modifies source, source.nodes
    ensures source.Valid() && s == old(source.nodes)[0] && source.nodes == old(source.nodes)[1..] && s.Unlinked()
    ensures s !in source.nodes
  {
    ghost var was := source.nodes;
    s := source.objects;
    assert was[0] == s && RemoveAt(was, 0) == was[1..];
    assert forall i :: 0 < i < |was| ==> was[i] != s;
    source.Del(s);
  }

  /** Takes the first object out of one list and adds it to the end of another. */
  method MoveFirst<T>(source: ListBase<T>, target: ListBase<T>)
    requires source != target && source.Valid() && target.Valid() && source.nodes != []
    requires forall x | x in source.nodes :: x !in target.nodes
    modifies source, target, source.nodes, target.nodes
    ensures source.Valid() && target.Valid()
    ensures source.nodes == old(source.nodes)[1..] && target.nodes == old(target.nodes) + [old(source.nodes)[0]]
  {
    ghost var was, kept := source.nodes, target.nodes;
    assert forall i :: 0 <= i < |kept| ==> kept[i] in kept && kept[i] !in was;
    var s := TakeFirst(source);
    assert target.Valid();
    AddApart(target, s, source);
  }

  /** Adding to one list leaves another alone. */
  method AddApart<T>(target: ListBase<T>, node: ListObject<T>, ghost other: ListBase<T>)
    requires other != target && target.Valid() && other.Valid() && node.Unlinked()
    requires node !in target.nodes && node !in other.nodes && forall x | x in other.nodes :: x !in target.nodes
    modifies target, target.nodes, node
    ensures target.Valid() && target.nodes == old(target.nodes) + [node]
    ensures other.Valid() && other.nodes == old(other.nodes)
  {
    ghost var rest := other.nodes;
    assert forall i :: 0 <= i < |rest| ==> rest[i] in rest && rest[i] !in target.nodes && rest[i] != node;
    target.Add(node, null);
  }

  /** The loop of do_emit_signal: one object after the other, until there is no first one. */
  method MoveAll<T>(source: ListBase<T>) returns (target: ListBase<T>)
    requires source.Valid()
    modifies source, source.nodes
    ensures source.Valid() && source.nodes == []
    ensures fresh(target) && target.Valid() && target.nodes == old(source.nodes)
  {
    target := new ListBase<T>();
    ghost var n, all := 0, source.nodes;
    assert all[..0] == [] && all[0..] == all;
    while source.objects != null
      invariant source.Valid() && target.Valid() && fresh(target) && source != target
      invariant n <= |all| && source.nodes == all[n..] && target.nodes == all[..n]
      decreases |all| - n
    {
      MoveOnce(source, target, all, n);
      n := n + 1;
    }
    assert all[..n] == all;
  }

  method MoveOnce<T>(source: ListBase<T>, target: ListBase<T>, ghost all: seq<ListObject<T>>, ghost n: nat)
    requires source != target && source.Valid() && target.Valid()
    requires n < |all| && Distinct(all) && source.nodes == all[n..] && target.nodes == all[..n]
    modifies source, target, all
    ensures source.Valid() && target.Valid()
    ensures source.nodes == all[n + 1..] && target.nodes == all[..n + 1]
  {
    hide ListBase.Valid;
    assert forall i :: 0 <= i < |all[n..]| ==> all[n..][i] == all[n + i];
    assert forall x | x in all[n..] :: x in all && x !in all[..n];
    MoveFirst(source, target);
  }

  /**
   * Of the objects of a list the first n have been dealt with: those that satisfy p are left, and c is the node
   * behind them.
   */
  ghost predicate Dealing<T>(nodes: seq<ListObject<T>>, c: ListObject?<T>, all: seq<T>, n: nat, p: T -> bool) {
    && n <= |all|
    && var kept := Filter(all[..n], p);
       Values(nodes) == kept + all[n..] && c == if |kept| < |nodes| then nodes[|kept|] else null
  }

  lemma DealingStarts<T>(nodes: seq<ListObject<T>>, c: ListObject?<T>, p: T -> bool)
    requires c == if nodes == [] then null else nodes[0]
    ensures Dealing(nodes, c, Values(nodes), 0, p)
  {
    FilterNone(Values(nodes), p);
    assert [] + Values(nodes)[0..] == Values(nodes);
  }

  /** A node that does not satisfy p is deleted, and the walk goes on with the node behind it. */
  lemma DealingNext<T>(nodes: seq<ListObject<T>>, c: ListObject<T>, all: seq<T>, n: nat, p: T -> bool) returns (i: nat)
    requires Dealing(nodes, c, all, n, p)
    ensures i < |nodes| && nodes[i] == c && n < |all| && c.value == all[n]
    ensures var next := if i + 1 < |nodes| then nodes[i + 1] else null;
            Dealing(if p(c.value) then nodes else RemoveAt(nodes, i), next, all, n + 1, p)
  {
    i := |Filter(all[..n], p)|;
    hide Filter;
    FilterNext(all, n, p);
    assert c.value == Values(nodes)[i] == all[n];
    ValuesRemoveAt(nodes, i);
  }

  lemma DealingEnds<T>(nodes: seq<ListObject<T>>, all: seq<T>, n: nat, p: T -> bool)
    requires Dealing(nodes, null, all, n, p)
    ensures n == |all| && Values(nodes) == Filter(all, p)
  {
    assert all[..n] + all[n..] == all;
    assert |all[n..]| == 0;
    assert all[..n] == all;
  }
}
