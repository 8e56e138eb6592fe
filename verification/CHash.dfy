module Options {
  datatype Option<+T> = None | Some(value: T)
}

/** Filtering, finding and removing in a sequence by a predicate. */
module Filters {
  import opened Options

  function Filter<T>(s: seq<T>, p: T -> bool): seq<T> {
    if s == [] then [] else if p(s[0]) then [s[0]] + Filter(s[1..], p) else Filter(s[1..], p)
  }

  function FindFirst<T>(s: seq<T>, p: T -> bool): Option<T> {
    if s == [] then None else if p(s[0]) then Some(s[0]) else FindFirst(s[1..], p)
  }

  function RemoveFirst<T>(s: seq<T>, p: T -> bool): seq<T> {
    if s == [] then [] else if p(s[0]) then s[1..] else [s[0]] + RemoveFirst(s[1..], p)
  }

  lemma {:induction false} FilterAppend<T>(s: seq<T>, x: T, p: T -> bool)
    ensures Filter(s + [x], p) == Filter(s, p) + if p(x) then [x] else []
  {
    if s != [] {
      assert (s + [x])[1..] == s[1..] + [x];
      FilterAppend(s[1..], x, p);
    }
  }

  lemma FilterNone<T>(all: seq<T>, p: T -> bool)
    ensures Filter(all[..0], p) == []
  {
  }

  /** One step through a list that is being filtered in place, of which n elements are dealt with. */
  lemma FilterNext<T>(all: seq<T>, n: nat, p: T -> bool)
    requires n < |all|
    ensures var kept := Filter(all[..n], p);
            var list := kept + all[n..];
            && list[|kept|] == all[n]
            && Filter(all[..n + 1], p) + all[n + 1..]
               == (if p(all[n]) then list else list[..|kept|] + list[|kept| + 1..])
            && |Filter(all[..n + 1], p)| == |kept| + if p(all[n]) then 1 else 0
  {
    assert all[..n + 1] == all[..n] + [all[n]];
    FilterAppend(all[..n], all[n], p);
  }

  lemma {:induction false} FindFirstFilter<T(!new)>(s: seq<T>, p: T -> bool, q: T -> bool)
    requires forall x :: p(x) ==> q(x)
    ensures FindFirst(Filter(s, q), p) == FindFirst(s, p)
  {
    if s != [] {
      FindFirstFilter(s[1..], p, q);
      if q(s[0]) {
        assert Filter(s, q)[1..] == Filter(s[1..], q);
      }
    }
  }

  /** Finding and removing speak of the same place: the least index that satisfies p, or the end if none does. */
  lemma {:induction false} FirstMatch<T>(s: seq<T>, p: T -> bool) returns (k: nat)
    ensures k <= |s| && forall j :: 0 <= j < k ==> !p(s[j])
    ensures k < |s| ==> p(s[k]) && FindFirst(s, p) == Some(s[k]) && RemoveFirst(s, p) == s[..k] + s[k + 1..]
    ensures k == |s| ==> FindFirst(s, p).None? && RemoveFirst(s, p) == s
  {
    if s == [] || p(s[0]) {
      k := 0;
    } else {
      var m := FirstMatch(s[1..], p);
      k := m + 1;
      assert forall j :: 0 < j < k ==> s[j] == s[1..][j - 1];
      if k < |s| {
        assert s[..k] + s[k + 1..] == [s[0]] + (s[1..][..m] + s[1..][m + 1..]);
      }
    }
  }
}

/** cHashBase of libvdr-tools.c: buckets of (id, object) pairs, which refine one insertion-ordered list. */
module CHash {
  import opened CList
  import opened Filters
  import opened Options
  import opened Sequences

  datatype HashObject<O> = HashObject(id: nat, object_: O)

  function BucketFilter<O(!new)>(size: nat, h: nat): HashObject<O> -> bool
    requires size > 0
  {
    (e: HashObject<O>) => e.id % size == h
  }

  /** What Del looks for in a bucket: the object, whatever its id. */
  function ObjectFilter<O(==, !new)>(size: nat, h: nat, o: O): HashObject<O> -> bool
    requires size > 0
  {
    (e: HashObject<O>) => e.id % size == h && e.object_ == o
  }

  function IdFilter<O(!new)>(id: nat): HashObject<O> -> bool {
    (e: HashObject<O>) => e.id == id
  }

  function PairFilter<O(==, !new)>(id: nat, o: O): HashObject<O> -> bool {
    (e: HashObject<O>) => e.id == id && e.object_ == o
  }

  function Lookup<O(!new)>(entries: seq<HashObject<O>>, id: nat): Option<O> {
    match FindFirst(entries, IdFilter(id))
    case None => None
    case Some(e) => Some(e.object_)
  }

  /** Looking up finds the object of the first entry with the id, and nothing exactly if there is no such entry. */
  lemma LookupFirst<O(!new)>(entries: seq<HashObject<O>>, id: nat)
    ensures Lookup(entries, id).None? <==> forall k :: 0 <= k < |entries| ==> entries[k].id != id
    ensures forall o :: Lookup(entries, id) == Some(o) <==>
                        exists k :: 0 <= k < |entries| && entries[k] == HashObject(id, o)
                                    && forall j :: 0 <= j < k ==> entries[j].id != id
  {
    var k := FirstMatch(entries, IdFilter(id));
  }

  class HashBase<O(==, !new)> {
    const size: nat
    const hashTable: array<ListBase?<HashObject<O>>>
    ghost var entries: seq<HashObject<O>>
    ghost var Repr: set<object>  // the buckets and their nodes

    /** The list of a bucket is well formed and holds the subsequence of the entries that hash to it. */
    ghost predicate Bucket(h: nat)
      requires h < hashTable.Length && size > 0
      reads this, hashTable, Repr
    {
      var list := hashTable[h];
      var expected := Filter(entries, BucketFilter(size, h));
      if list == null then expected == [] else
        && list in Repr && (forall x | x in list.nodes :: x in Repr)
        && list.Valid() && Values(list.nodes) == expected
    }

    /** Two buckets share nothing. */
    ghost predicate Apart(h: nat, k: nat)
      requires h < hashTable.Length && k < hashTable.Length
      reads this, hashTable, Repr
    {
      var a, b := hashTable[h], hashTable[k];
      a in Repr && b in Repr && h != k ==> a != b && forall x | x in a.nodes :: x !in b.nodes
    }

    ghost predicate Valid()
      reads this, hashTable, Repr
    {
      && 0 < size == hashTable.Length && this !in Repr && hashTable !in Repr
      && (forall h :: 0 <= h < size ==> Bucket(h))
      && (forall h, k :: 0 <= h < size && 0 <= k < size ==> Apart(h, k))
    }

    constructor (size: nat)
      requires size > 0
      ensures Valid() && entries == [] && fresh(hashTable) && Repr == {} && this.size == size
    {
      this.size := size;
      hashTable := new ListBase?<HashObject<O>>[size](_ => null);
      entries, Repr := [], {};
    }

    method Add(o: O, id: nat)
      requires Valid()
      modifies this, hashTable, Repr
      ensures Valid() && fresh(Repr - old(Repr))
      ensures entries == old(entries) + [HashObject(id, o)]
    {
      var hash := id % size;
      if hashTable[hash] == null {
        NewBucket(hash);
      }
      Append(hash, HashObject(id, o));
    }

    /** hashTable[hash] = new cList<cHashObject> */
    method NewBucket(hash: nat)
      requires Valid() && hash < size && hashTable[hash] == null
      modifies this`Repr, hashTable
      ensures Valid() && fresh(Repr - old(Repr)) && hashTable[hash] != null
    {
      var list := new ListBase<HashObject<O>>();
      hashTable[hash] := list;
      Repr := Repr + {list};
      forall h | 0 <= h < size
        ensures Bucket(h)
      {
        assert old(Bucket(h));
      }
      forall h, k | 0 <= h < size && 0 <= k < size
        ensures Apart(h, k)
      {
        assert old(Apart(h, k));
      }
    }

    /** A list operation on one bucket leaves the others alone. */
    method AddTo(hash: nat, node: ListObject<HashObject<O>>)
      requires Valid() && hash < size && hashTable[hash] != null
      requires node.Unlinked() && node !in Repr
      modifies Repr, node
      ensures hashTable[hash].Valid() && hashTable[hash].nodes == old(hashTable[hash].nodes) + [node]
      ensures forall h :: 0 <= h < size && h != hash && hashTable[h] != null ==>
                            hashTable[h].Valid() && hashTable[h].nodes == old(hashTable[h].nodes)
    {
      assert Bucket(hash);
      ghost var touched := hashTable[hash].nodes + [node];
      forall h | 0 <= h < size && h != hash && hashTable[h] != null
        ensures hashTable[h].Valid() && forall x | x in hashTable[h].nodes :: x !in touched
      {
        assert Bucket(h) && Apart(h, hash);
      }
      label before:
      hashTable[hash].Add(node, null);
      forall h | 0 <= h < size && h != hash && hashTable[h] != null
        ensures hashTable[h].Valid() && hashTable[h].nodes == old(hashTable[h].nodes)
      {
        assert old@before(Apart(h, hash)) && unchanged@before(hashTable[h]);
        var list := hashTable[h].nodes;
        assert forall x | x in list :: x !in touched && unchanged@before(x);
        assert forall i :: 0 <= i < |list| ==> list[i] in list;
      }
    }

    /** hashTable[hash]->Add(new cHashObject(Object, Id)) */
    method Append(hash: nat, e: HashObject<O>)
      requires Valid() && hash < size && hashTable[hash] != null && e.id % size == hash
      modifies this`entries, this`Repr, Repr
      ensures Valid() && fresh(Repr - old(Repr))
      ensures entries == old(entries) + [e]
    {
      hide ListBase.Valid, Filter;
      assert Bucket(hash);
      var node := new ListObject<HashObject<O>>(e);
      AddTo(hash, node);
      Repr := Repr + {node};
      entries := entries + [e];
      forall h | 0 <= h < size
        ensures Bucket(h)
      {
        assert old(Bucket(h));
        FilterAppend(old(entries), e, BucketFilter(size, h));
      }
      forall h, k | 0 <= h < size && 0 <= k < size
        ensures Apart(h, k)
      {
        assert old(Apart(h, k)) && old(Bucket(h)) && old(Bucket(k));
      }
    }

    /** list->Del(hob) on one bucket leaves the others alone. */
    method DelFrom(hash: nat, node: ListObject<HashObject<O>>, ghost k: nat)
      requires Valid() && hash < size && hashTable[hash] != null
      requires k < |hashTable[hash].nodes| && hashTable[hash].nodes[k] == node
      requires Bucket(hash)
      modifies Repr
      ensures hashTable[hash].Valid() && hashTable[hash].nodes == RemoveAt(old(hashTable[hash].nodes), k)
      ensures forall h :: 0 <= h < size && h != hash && hashTable[h] != null ==>
                            hashTable[h].Valid() && hashTable[h].nodes == old(hashTable[h].nodes)
    {
      ghost var touched := hashTable[hash].nodes;
      forall h | 0 <= h < size && h != hash && hashTable[h] != null
        ensures hashTable[h].Valid() && forall x | x in hashTable[h].nodes :: x !in touched
      {
        assert Bucket(h) && Apart(h, hash);
      }
      hashTable[hash].Del(node);
      forall h | 0 <= h < size && h != hash && hashTable[h] != null
        ensures hashTable[h].Valid() && hashTable[h].nodes == old(hashTable[h].nodes)
      {
        assert old(Apart(h, hash)) && unchanged(hashTable[h]);
        var list := hashTable[h].nodes;
        assert forall x | x in list :: x !in touched && unchanged(x);
        assert forall i :: 0 <= i < |list| ==> list[i] in list;
      }
    }

    /** The first node of a bucket that holds the object; k is its position, or the end if there is none. */
    method FindObject(hash: nat, o: O) returns (hob: ListObject?<HashObject<O>>, ghost k: nat)
      requires Valid() && hash < size && hashTable[hash] != null
      requires Bucket(hash)
      ensures var nodes := hashTable[hash].nodes;
              && k <= |nodes| && hob == (if k < |nodes| then nodes[k] else null)
              && (k < |nodes| ==> nodes[k].value.object_ == o)
              && forall j :: 0 <= j < k ==> nodes[j].value.object_ != o
    {
      k := 0;
      hob := hashTable[hash].objects;
      ghost var nodes := hashTable[hash].nodes;
      while hob != null && hob.value.object_ != o
        invariant 0 <= k <= |nodes| && hob == if k < |nodes| then nodes[k] else null
        invariant forall j :: 0 <= j < k ==> nodes[j].value.object_ != o
        decreases |nodes| - k
      {
        hob := hob.next;
        k := k + 1;
      }
    }

    /** The loop of Del: deletes the first node of the bucket that holds the object. */
    method DelObject(hash: nat, o: O)
      requires Valid() && hash < size && hashTable[hash] != null
      modifies Repr
      ensures hashTable[hash].Valid() && forall x | x in hashTable[hash].nodes :: x in old(hashTable[hash].nodes)
      ensures Values(hashTable[hash].nodes) ==
              RemoveFirst(Filter(entries, BucketFilter(size, hash)), ObjectFilter(size, hash, o))
      ensures forall h :: 0 <= h < size && h != hash && hashTable[h] != null ==>
                            hashTable[h].Valid() && hashTable[h].nodes == old(hashTable[h].nodes)
    {
      hide Filter, RemoveFirst, FindFirst, ListBase.Valid;
      forall h | 0 <= h < size && hashTable[h] != null
        ensures hashTable[h].Valid()
      {
        assert Bucket(h);
      }
      assert Bucket(hash);
      InBucket(entries, size, hash);
      ghost var was := hashTable[hash].nodes;
      var hob, k := FindObject(hash, o);
      assert forall j :: 0 <= j < |was| ==> Values(was)[j] in Filter(entries, BucketFilter(size, hash));
      RemoveNode(was, k, ObjectFilter(size, hash, o));
      if hob != null {
        DelFrom(hash, hob, k);
        assert forall x | x in RemoveAt(was, k) :: x in was;
      }
    }

    /** Removes the first entry of the bucket that holds the object: the id is used for the hash only. */
    method Del(o: O, id: nat)
      requires Valid()
      modifies this`entries, Repr
      ensures Valid() && entries == RemoveFirst(old(entries), ObjectFilter(size, id % size, o))
    {
      hide ListBase.Valid, Filter, RemoveFirst;
      var hash := id % size;
      ghost var p := ObjectFilter(size, hash, o);
      DelInBuckets(entries, size, hash, o);
      RemoveNone(p);
      assert Bucket(hash);
      if hashTable[hash] != null {
        DelObject(hash, o);
      }
      entries := RemoveFirst(entries, p);
      forall h | 0 <= h < size
        ensures Bucket(h)
      {
        assert old(Bucket(h));
      }
      forall h, k | 0 <= h < size && 0 <= k < size
        ensures Apart(h, k)
      {
        assert old(Apart(h, k)) && old(Bucket(h)) && old(Bucket(k));
      }
    }

    method Clear()
      requires Valid()
      modifies this, hashTable
      ensures Valid() && entries == [] && Repr == {}
      ensures forall h :: 0 <= h < size ==> hashTable[h] == null
    {
      for i := 0 to size
        invariant forall h :: 0 <= h < i ==> hashTable[h] == null
      {
        hashTable[i] := null;
      }
      entries, Repr := [], {};
    }

    method Get(id: nat) returns (r: Option<O>)
      requires Valid()
      ensures r == Lookup(entries, id)
      ensures r.None? <==> forall k :: 0 <= k < |entries| ==> entries[k].id != id
      ensures r.Some? ==> exists k :: 0 <= k < |entries| && entries[k] == HashObject(id, r.value)
                                      && forall j :: 0 <= j < k ==> entries[j].id != id
    {
      LookupFirst(entries, id);
      hide ListBase.Valid, Filter;
      var hash := id % size;
      assert Bucket(hash);
      FindFirstFilter(entries, IdFilter(id), BucketFilter<O>(size, hash));
      if hashTable[hash] != null {
        r := GetFrom(hashTable[hash], id);
      } else {
        r := None;
      }
    }

    static method GetFrom(list: ListBase<HashObject<O>>, id: nat) returns (r: Option<O>)
      requires list.Valid()
      ensures r == Lookup(Values(list.nodes), id)
    {
      var hob := list.objects;
      ghost var k, s := 0, Values(list.nodes);
      assert s[0..] == s;
      while hob != null
        invariant 0 <= k <= |s| && hob == if k < |s| then list.nodes[k] else null
        invariant Lookup(s[k..], id) == Lookup(s, id)
        decreases |s| - k
      {
        assert s[k..][0] == hob.value && s[k..][1..] == s[k + 1..];
        if hob.value.id == id {
          return Some(hob.value.object_);
        }
        hob := hob.next;
        k := k + 1;
      }
      return None;
    }

    method GetList(id: nat) returns (r: ListBase?<HashObject<O>>)
      requires Valid()
      ensures r == hashTable[id % size]
      ensures if r == null then Filter(entries, BucketFilter(size, id % size)) == []
              else r.Valid() && Values(r.nodes) == Filter(entries, BucketFilter(size, id % size))
      ensures forall e | e in entries && e.id % size == id % size :: r != null && e in Values(r.nodes)
      ensures r != null ==> forall e | e in Values(r.nodes) :: e in entries && e.id % size == id % size
    {
      InBucket(entries, size, id % size);
      assert Bucket(id % size);
      return hashTable[id % size];
    }
  }

  lemma RemoveNone<T>(p: T -> bool)
    ensures RemoveFirst([], p) == []
  {
  }

  /** Taking out the first node that satisfies p is removing the first match from the values. */
  lemma RemoveNode<T>(nodes: seq<ListObject<T>>, k: nat, p: T -> bool)
    requires k <= |nodes| && (k < |nodes| ==> p(nodes[k].value)) && forall j :: 0 <= j < k ==> !p(nodes[j].value)
    ensures RemoveFirst(Values(nodes), p) == if k < |nodes| then Values(RemoveAt(nodes, k)) else Values(nodes)
  {
    var s := Values(nodes);
    var m := FirstMatch(s, p);
    assert m == k;
  }

  lemma DelInBuckets<O(!new)>(entries: seq<HashObject<O>>, size: nat, hash: nat, o: O)
    requires hash < size
    ensures forall h :: 0 <= h < size ==>
              Filter(RemoveFirst(entries, ObjectFilter(size, hash, o)), BucketFilter(size, h)) ==
              if h == hash then RemoveFirst(Filter(entries, BucketFilter(size, h)), ObjectFilter(size, hash, o))
              else Filter(entries, BucketFilter(size, h))
  {
  }

  /** A bucket holds exactly the entries whose id has its hash. */
  lemma {:induction false} InBucket<O(!new)>(entries: seq<HashObject<O>>, size: nat, h: nat)
    requires h < size
    ensures forall e :: e in Filter(entries, BucketFilter(size, h)) <==> e in entries && e.id % size == h
  {
    if entries != [] {
      InBucket(entries[1..], size, h);
      assert entries == [entries[0]] + entries[1..];
    }
  }

  /**
   * Del(o, id) removes the earliest (id, o) pair exactly when the first entry of the bucket that
   * holds o, if there is one, is stored under that id.
   */
  lemma DelRemovesPair<O(!new)>(entries: seq<HashObject<O>>, size: nat, o: O, id: nat)
    requires size > 0
    ensures RemoveFirst(entries, ObjectFilter(size, id % size, o)) == RemoveFirst(entries, PairFilter(id, o)) <==>
            var hit := FindFirst(entries, ObjectFilter(size, id % size, o));
            hit.None? || hit.value.id == id
  {
    var p, q := ObjectFilter(size, id % size, o), PairFilter(id, o);
    var k := FirstMatch(entries, p);
    var m := FirstMatch(entries, q);
    assert forall x :: q(x) ==> p(x);
    if k < m < |entries| {
      if RemoveFirst(entries, p) == RemoveFirst(entries, q) {
        ShiftedEqual(entries, k, m);
      }
    }
  }

  /** An object stored under two ids of the same bucket: Del(o, 11) takes out the pair (1, o) and leaves (11, o). */
  lemma DelOtherPairExample<O(!new)>(o: O)
    ensures var entries := [HashObject(1, o), HashObject(11, o)];
            && RemoveFirst(entries, ObjectFilter(10, 11 % 10, o)) == [HashObject(11, o)]
            && RemoveFirst(entries, PairFilter(11, o)) == [HashObject(1, o)]
  {
    var entries := [HashObject(1, o), HashObject(11, o)];
    assert entries[1..] == [HashObject(11, o)];
    assert RemoveFirst(entries[1..], PairFilter(11, o)) == [];
  }

  /** Taking out position k or position m > k gives the same only if everything in between is equal. */
  lemma ShiftedEqual<T>(s: seq<T>, k: nat, m: nat)
    requires k < m < |s| && s[..k] + s[k + 1..] == s[..m] + s[m + 1..]
    ensures s[k] == s[m]
    decreases m - k
  {
    var a, b := s[..k] + s[k + 1..], s[..m] + s[m + 1..];
    assert a[k] == s[k + 1] && b[k] == s[k];
    if k + 1 < m {
      var c := s[..k + 1] + s[k + 2..];
      assert c == a by {
        assert c[k] == a[k];
      }
      ShiftedEqual(s, k + 1, m);
    }
  }

  datatype Op<O> = AddOp(o: O, id: nat) | DelOp(o: O, id: nat) | ClearOp

  /** A run as cHashBase executes it on the flat list. */
  function Run<O(==, !new)>(size: nat, ops: seq<Op<O>>): seq<HashObject<O>>
    requires size > 0
  {
    if ops == [] then [] else
      var e := Run(size, ops[..|ops| - 1]);
      match ops[|ops| - 1]
      case AddOp(o, id) => e + [HashObject(id, o)]
      case DelOp(o, id) => RemoveFirst(e, ObjectFilter(size, id % size, o))
      case ClearOp => []
  }

  /** The same run on a plain association list, in which a deletion names its pair. */
  function AssocRun<O(==, !new)>(ops: seq<Op<O>>): seq<HashObject<O>> {
    if ops == [] then [] else
      var e := AssocRun(ops[..|ops| - 1]);
      match ops[|ops| - 1]
      case AddOp(o, id) => e + [HashObject(id, o)]
      case DelOp(o, id) => RemoveFirst(e, PairFilter(id, o))
      case ClearOp => []
  }

  ghost predicate OneIdPerObject<O>(ops: seq<Op<O>>) {
    forall i, j :: 0 <= i < |ops| && 0 <= j < |ops| && !ops[i].ClearOp? && !ops[j].ClearOp? && ops[i].o == ops[j].o ==>
                     ops[i].id == ops[j].id
  }

  /** Every run that names each object with one id only behaves as the association list, whatever the table size. */
  lemma {:induction false} RunIsAssocRun<O(!new)>(size: nat, ops: seq<Op<O>>)
    requires size > 0 && OneIdPerObject(ops)
    ensures Run(size, ops) == AssocRun(ops)
    ensures forall e | e in Run(size, ops) :: exists i :: 0 <= i < |ops| && ops[i] == AddOp(e.object_, e.id)
  {
    if ops != [] {
      var init, op := ops[..|ops| - 1], ops[|ops| - 1];
      RunIsAssocRun(size, init);
      forall e | e in Run(size, init)
        ensures exists i :: 0 <= i < |ops| && ops[i] == AddOp(e.object_, e.id)
      {
        var i :| 0 <= i < |init| && init[i] == AddOp(e.object_, e.id);
        assert ops[i] == init[i];
      }
      match op
      case AddOp(o, id) => assert ops[|ops| - 1] == AddOp(o, id);
      case DelOp(o, id) =>
        var p := ObjectFilter(size, id % size, o);
        var k := FirstMatch(Run(size, init), p);
        DelRemovesPair(Run(size, init), size, o, id);
      case ClearOp =>
    }
  }

  /** Get after Add: an id that had no entry gives the new object, every other id what it gave before. */
  lemma GetAfterAdd<O(!new)>(size: nat, ops: seq<Op<O>>, o: O, id: nat, m: nat)
    requires size > 0
    ensures Lookup(Run(size, ops + [AddOp(o, id)]), m) ==
            if m == id && Lookup(Run(size, ops), id).None? then Some(o) else Lookup(Run(size, ops), m)
  {
    assert (ops + [AddOp(o, id)])[..|ops|] == ops;
    var e := Run(size, ops);
    var r := e + [HashObject(id, o)];
    assert Run(size, ops + [AddOp(o, id)]) == r;
    var k := FirstMatch(e, IdFilter(m));
    var l := FirstMatch(r, IdFilter(m));
    assert forall j :: 0 <= j < |e| ==> r[j] == e[j];
    assert r[|e|] == HashObject(id, o);
    assert l == if k < |e| || id == m then k else k + 1;
  }

  /** Get after Clear: nothing, whatever the table held. */
  lemma GetAfterClear<O(!new)>(size: nat, ops: seq<Op<O>>, m: nat)
    requires size > 0
    ensures Lookup(Run(size, ops + [ClearOp]), m).None?
  {
    var all := ops + [ClearOp];
    assert all[|all| - 1].ClearOp? && Run(size, all) == [];
  }

  /**
   * Get after Del, in a run that names each object with one id: no other id is affected, and of this id exactly the
   * entries before and behind the earliest one of the object are left.
   */
  lemma GetAfterDel<O(!new)>(size: nat, ops: seq<Op<O>>, o: O, id: nat, m: nat)
    requires size > 0 && OneIdPerObject(ops + [DelOp(o, id)])
    ensures var e, r := Run(size, ops), Run(size, ops + [DelOp(o, id)]);
            && (m != id ==> Lookup(r, m) == Lookup(e, m))
            && (HashObject(id, o) !in e ==> r == e)
            && (HashObject(id, o) in e ==>
                  exists k :: 0 <= k < |e| && e[k] == HashObject(id, o) && HashObject(id, o) !in e[..k]
                              && r == e[..k] + e[k + 1..])
  {
    var all := ops + [DelOp(o, id)];
    assert all[..|ops|] == ops;
    assert OneIdPerObject(ops) by {
      assert forall i :: 0 <= i < |ops| ==> all[i] == ops[i];
    }
    RunIsAssocRun(size, ops);
    RunIsAssocRun(size, all);
    var e, r := Run(size, ops), Run(size, all);
    assert r == RemoveFirst(e, PairFilter(id, o));
    var k := FirstMatch(e, PairFilter(id, o));
    if k < |e| && m != id {
      LookupSkips(e, k, m);
    }
  }

  lemma LookupSkips<O(!new)>(e: seq<HashObject<O>>, k: nat, m: nat)
    requires k < |e| && e[k].id != m
    ensures Lookup(e[..k] + e[k + 1..], m) == Lookup(e, m)
  {
    hide FindFirst, RemoveFirst;
    var r := e[..k] + e[k + 1..];
    var i := FirstMatch(e, IdFilter(m));
    var j := FirstMatch(r, IdFilter(m));
    assert forall x :: 0 <= x < k ==> r[x] == e[x];
    assert forall x :: k <= x < |r| ==> r[x] == e[x + 1];
    assert forall x :: k < x < |e| ==> e[x] == r[x - 1];
    assert j == if i < k then i else i - 1;
  }
}
