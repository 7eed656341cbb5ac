/** The hash table as a whole (src/fcmanager/fc_xlhash.c), and the arcs of the call graph that it
    stores (src/fcmanager/fc_graph.c:36-66). */
module HashTable {
  import opened LHash
  import opened FreeList
  import opened Maps
  import M = Manager

  const PRIMES: seq<nat> := [
    109, 163, 251, 367, 557, 823, 1237, 1861, 2777, 4177,
    6247, 9371, 14057, 21089, 31627, 47431, 71143, 106721, 160073, 240101,
    360163, 540217, 810343, 1215497, 1823231, 2734867, 4102283, 6153409, 9230113, 13845163]

  const NO_DATA := Data(0, 0, 0)

  const FIRST_PRIME := 109
  const LAST_PRIME := 13845163

  /** The first number of the list above num, or the last one of all. */
  predicate Closest(num: nat, p: nat) {
    exists i ::
      && 0 <= i < |PRIMES| && p == PRIMES[i] && (i == |PRIMES| - 1 || p > num)
      && forall j :: 0 <= j < i ==> PRIMES[j] <= num
  }

  /** fc_spaced_primes_closest. */
  method ClosestPrime(num: nat) returns (p: nat)
    ensures Closest(num, p)
  {
    var i := 0;
    while i < |PRIMES|
      invariant 0 <= i <= |PRIMES| && forall j :: 0 <= j < i ==> PRIMES[j] <= num
    {
      if PRIMES[i] > num {
        return PRIMES[i];
      }
      i := i + 1;
    }
    return PRIMES[|PRIMES| - 1];
  }

  lemma {:induction false} PrimesAreOdd(i: nat)
    requires i < |PRIMES|
    ensures PRIMES[i] % 2 == 1 && PRIMES[i] <= LAST_PRIME && (i == |PRIMES| - 1 <==> PRIMES[i] == LAST_PRIME)
  {
  }

  lemma {:induction false} ClosestGrows(num: nat, p: nat)
    requires Closest(num, p)
    ensures p % 2 == 1 && p <= LAST_PRIME && (p > num || p == LAST_PRIME)
  {
    var i :| 0 <= i < |PRIMES| && p == PRIMES[i] && (i == |PRIMES| - 1 || p > num);
    PrimesAreOdd(i);
  }

  /** Until the last prime is reached, at most 85 per cent as many elements as buckets. */
  predicate Light(size: nat, nb: nat) {
    size % 2 == 1 && size <= LAST_PRIME && (size < LAST_PRIME ==> 100 * nb <= 85 * size)
  }

  lemma {:induction false} GrowthIsLight(size: nat, nb: nat)
    requires nb > 0 && Light(size, nb - 1)
    ensures forall p: nat :: Closest(size, p) ==> Light(p, nb)
  {
    forall p: nat | Closest(size, p) ensures Light(p, nb) {
      ClosestGrows(size, p);
    }
  }

  /** The size of a table that has had up to n elements: the first number of the list of which n is at most 85
      per cent, or the last one. */
  predicate Sized(size: nat, n: nat) {
    exists i ::
      && 0 <= i < |PRIMES| && size == PRIMES[i] && (i == |PRIMES| - 1 || 100 * n <= 85 * size)
      && forall j :: 0 <= j < i ==> 100 * n > 85 * PRIMES[j]
  }

  /** The size from the i-th number of the list on. */
  function SizeFor(n: nat, i: nat): nat
    requires i < |PRIMES|
    decreases |PRIMES| - i
  {
    if i == |PRIMES| - 1 || 100 * n <= 85 * PRIMES[i] then PRIMES[i] else SizeFor(n, i + 1)
  }

  lemma {:induction false} SizeForIs(n: nat, i: nat, k: nat)
    requires k <= i < |PRIMES| && (i == |PRIMES| - 1 || 100 * n <= 85 * PRIMES[i])
    requires forall j :: 0 <= j < i ==> 100 * n > 85 * PRIMES[j]
    ensures SizeFor(n, k) == PRIMES[i]
    decreases i - k
  {
    if k < i {
      SizeForIs(n, i, k + 1);
    }
  }

  lemma {:induction false} SizeForFits(n: nat, k: nat)
    requires k < |PRIMES| && forall j :: 0 <= j < k ==> 100 * n > 85 * PRIMES[j]
    ensures Sized(SizeFor(n, k), n)
    decreases |PRIMES| - k
  {
    if k < |PRIMES| - 1 && 100 * n > 85 * PRIMES[k] {
      SizeForFits(n, k + 1);
    }
  }

  lemma {:induction false} SizedIs(size: nat, n: nat)
    ensures Sized(size, n) <==> size == SizeFor(n, 0)
  {
    if Sized(size, n) {
      var i :| 0 <= i < |PRIMES| && size == PRIMES[i] && (i == |PRIMES| - 1 || 100 * n <= 85 * size)
        && forall j :: 0 <= j < i ==> 100 * n > 85 * PRIMES[j];
      SizeForIs(n, i, 0);
    }
    SizeForFits(n, 0);
  }

  lemma {:induction false} SmallestSize()
    ensures FIRST_PRIME == SizeFor(0, 0)
  {
  }

  lemma {:induction false} PrimesGrow(i: nat)
    requires i + 1 < |PRIMES|
    ensures PRIMES[i] + 2 <= PRIMES[i + 1]
  {
  }

  lemma {:induction false} PrimesIncrease(i: nat, j: nat)
    requires i < j < |PRIMES|
    ensures PRIMES[i] < PRIMES[j]
  {
    PrimesGrow(j - 1);
    if i < j - 1 {
      PrimesIncrease(i, j - 1);
    }
  }

  lemma {:induction false} ClosestIsNext(i: nat, p: nat)
    requires i < |PRIMES| && Closest(PRIMES[i], p)
    ensures p == PRIMES[if i + 1 < |PRIMES| then i + 1 else i]
  {
    var k :| 0 <= k < |PRIMES| && p == PRIMES[k] && (k == |PRIMES| - 1 || p > PRIMES[i])
      && forall j :: 0 <= j < k ==> PRIMES[j] <= PRIMES[i];
    if k < i {
      PrimesIncrease(k, i);
    }
    if i + 1 < |PRIMES| {
      PrimesGrow(i);
    }
  }

  /** One more element than ever: the table grows to the next size exactly when it is to. */
  lemma {:induction false} SizedMore(size: nat, n: nat)
    requires n > 0 && Sized(size, n - 1)
    ensures 100 * n <= 85 * size ==> Sized(size, n)
    ensures 100 * n > 85 * size ==> forall p: nat :: Closest(size, p) ==> Sized(p, n)
  {
    var i :| 0 <= i < |PRIMES| && size == PRIMES[i] && (i == |PRIMES| - 1 || 100 * (n - 1) <= 85 * size)
      && forall j :: 0 <= j < i ==> 100 * (n - 1) > 85 * PRIMES[j];
    if 100 * n > 85 * size {
      forall p: nat | Closest(size, p) ensures Sized(p, n) {
        ClosestIsNext(i, p);
        if i + 1 < |PRIMES| {
          PrimesGrow(i);
        }
      }
    }
  }

  function Larger(a: nat, b: nat): nat {
    if b > a then b else a
  }

  /** No more elements than there have been: the table keeps its size. */
  lemma {:induction false} SizedSame(size: nat, peak: nat, n: nat)
    requires n <= peak && Sized(size, peak) && 100 * n > 85 * size
    ensures forall p: nat :: Closest(size, p) ==> p == size
  {
    var i :| 0 <= i < |PRIMES| && size == PRIMES[i] && (i == |PRIMES| - 1 || 100 * peak <= 85 * size);
    forall p: nat | Closest(size, p) ensures p == size {
      ClosestIsNext(i, p);
    }
  }

  /** The keys of each bucket, the nodes by key, the free nodes, those in use, and all of them; and how many
      elements there have been at most. */
  datatype Shape = Shape(chains: seq<seq<Key>>, index: map<Key, Node>, free: seq<Node>, used: set<Node>, all: set<Node>,
                         peak: nat)

  /** The buckets and the free list have the shape s. */
  ghost predicate Holds(arr: array<Node?>, head: Node?, s: Shape)
    reads arr, s.all
  {
    && s.used <= s.all && (forall j :: 0 <= j < |s.free| ==> s.free[j] in s.all)
    && Stored(arr, s.chains, s.index, s.used) && Spare(head, s.free, s.all, s.used)
  }

  /** The numbers of the table fit the shape s. */
  ghost predicate Fits(s: Shape, size: nat, nb: nat, nbAdd: nat, maxNodes: nat) {
    && size == |s.chains| && nb == Length(s.chains, size) && Light(size, nb)
    && nb <= s.peak && size == SizeFor(s.peak, 0)
    && Counted(nb, |s.free|, maxNodes, nbAdd)
  }

  /** The node of a key goes from its bucket to the head of the free list. */
  method Discard(arr: array<Node?>, key: Key, head: Node?, ghost s: Shape)
    returns (found: bool, head': Node?, ghost s': Shape)
    requires Holds(arr, head, s)
    modifies arr, s.used`next, s.used`key, s.used`fnext
    ensures Holds(arr, head', s') && s'.index == s.index - {key} && s'.all == s.all && |s'.chains| == |s.chains|
    ensures s'.peak == s.peak
    ensures |s'.free| == |s.free| + if found then 1 else 0
    ensures Length(s'.chains, |s'.chains|) == Length(s.chains, |s.chains|) - if found then 1 else 0
  {
    var tmp;
    ghost var chains';
    tmp, chains' := Forget(arr, key, s.chains, s.index, s.used);
    found, head', s' := tmp != null, head, s.(chains := chains');
    if tmp != null {
      PushFree(tmp, head, s.free, s.all, s.used);
      head' := tmp;
      s' := Shape(chains', s.index - {key}, [tmp] + s.free, s.used - {tmp}, s.all, s.peak);
    } else {
      NotThere(s.index, key);
    }
  }

  ghost function EmptyShape(size: nat, free: seq<Node>): Shape {
    Shape(seq(size, _ => []), map[], free, {}, set n | n in free, 0)
  }

  lemma {:induction false} EmptyHolds(arr: array<Node?>, head: Node?, free: seq<Node>)
    requires arr.Length > 0 && (forall i :: 0 <= i < arr.Length ==> arr[i] == null)
    requires free != [] && Distinct(free) && IsFreeList(head, free)
    ensures Holds(arr, head, EmptyShape(arr.Length, free)) &&
      Length(EmptyShape(arr.Length, free).chains, arr.Length) == 0
  {
    assert forall n :: n in free ==> IsFree(free, n);
    LengthIsCount(EmptyShape(arr.Length, free).chains, {});
  }

  /** FC_LHash. */
  class Table {
    var size: nat
    var nb: nat
    var nodes: array<Node?>
    var freeEntry: Node?
    var nbAdd: nat
    var maxNodes: nat
    /** Whether the table has not been destroyed. */
    var alive: bool
    ghost var shape: Shape

    ghost predicate Valid()
      reads this, nodes, shape.all
    {
      alive && Fits(shape, size, nb, nbAdd, maxNodes) && Holds(nodes, freeEntry, shape)
    }

    /** The table as a map. */
    ghost function Contents(): map<Key, Data>
      reads this, shape.index.Values`data
    {
      ContentsOf(shape.index)
    }

    /** fc_lhash_new. */
    constructor ()
      ensures Valid() && Contents() == map[] && fresh(nodes) && fresh(shape.all)
      ensures size == FIRST_PRIME && |shape.free| == INITIAL && nb == 0
    {
      size, nb, nbAdd, maxNodes, alive := FIRST_PRIME, 0, 0, INITIAL, true;
      var buckets := NewBuckets(FIRST_PRIME);
      var head;
      ghost var s;
      head, s := NewBlock(INITIAL);
      nodes, freeEntry, shape := buckets, head, EmptyShape(FIRST_PRIME, s);
      EmptyHolds(buckets, head, s);
      SmallestSize();
    }

    /** No block may be added any more, or its size is no `int`, and the last free node is needed. */
    ghost predicate Exhausted()
      reads this
    {
      |shape.free| == 1 && (nbAdd == MAX_ADD || 2 * maxNodes > INT_MAX)
    }

    /** fc_lhash_get_a_node: the first free node.  When it was the last one, a block twice as large as
        the one before is added; when there can be no more blocks, the table is destroyed.  The same
        happens when twice max_rnodes is no `int`: an allocation of the size it wraps to fails. */
    method GetANode() returns (tmp: Node?)
      requires alive && Spare(freeEntry, shape.free, shape.all, shape.used) &&
        Counted(nb, |shape.free|, maxNodes, nbAdd)
      modifies `freeEntry, `nbAdd, `maxNodes, `alive, `shape
      ensures alive <==> !old(Exhausted())
      ensures alive ==> tmp != null && tmp == old(shape.free[0]) && tmp in shape.all && tmp !in shape.used
      ensures alive ==> Spare(freeEntry, shape.free, shape.all, shape.used + {tmp})
      ensures alive ==> Counted(nb + 1, |shape.free|, maxNodes, nbAdd)
      ensures shape == old(shape).(free := shape.free, all := shape.all)
      ensures old(shape.all) <= shape.all && fresh(shape.all - old(shape.all))
    {
      tmp := freeEntry;
      SpareTail(freeEntry, shape.free, shape.all, shape.used);
      var next := tmp.fnext;
      ghost var free, all := shape.free[1..], shape.all;
      if next == null {
        if nbAdd == MAX_ADD {
          alive := false;
          return null;
        }
        if 2 * maxNodes > INT_MAX {
          alive := false;
          return null;
        }
        next, free, all := AddBlock(2 * maxNodes, shape.all, shape.used + {tmp});
        maxNodes := maxNodes * 2;
        nbAdd := nbAdd + 1;
      }
      freeEntry := next;
      shape := shape.(free := free, all := all);
    }

    /** fc_lhash_increase_size. */
    method IncreaseSize()
      requires Holds(nodes, freeEntry, shape) && size == |shape.chains|
      modifies `nodes, `size, `shape, nodes, shape.all`next
      ensures Holds(nodes, freeEntry, shape) && size == |shape.chains| && Closest(old(size), size) && fresh(nodes)
      ensures shape == old(shape).(chains := shape.chains)
      ensures Length(shape.chains, size) == old(Length(shape.chains, size))
    {
      var newSize := ClosestPrime(size);
      ClosestGrows(size, newSize);
      var newNodes;
      ghost var chains;
      assert forall k :: k in shape.index ==> shape.index[k] in shape.used;
      newNodes, chains := Rehash(nodes, newSize, shape.chains, shape.index);
      LengthSame(shape.chains, chains, shape.index.Keys);
      nodes := newNodes;
      size := newSize;
      shape := shape.(chains := chains);
    }

    /** The new element goes into its node, and the node into its bucket. */
    method Place(tmp: Node, key: Key, data: Data)
      requires Stored(nodes, shape.chains, shape.index, shape.used) && key != 0 && key !in shape.index
      requires Spare(freeEntry, shape.free, shape.all, shape.used + {tmp}) && tmp !in shape.used && tmp in shape.all
      requires size == |shape.chains|
      modifies `nb, `shape, nodes, tmp`key, tmp`data, tmp`next, shape.used`next
      ensures Holds(nodes, freeEntry, shape) && size == |shape.chains| && tmp.data == data && nb == old(nb) + 1
      ensures shape == old(shape).(chains := shape.chains, index := old(shape.index)[key := tmp],
        used := old(shape.used) + {tmp})
      ensures Length(shape.chains, size) == old(Length(shape.chains, size)) + 1
    {
      ghost var chains := Enter(nodes, tmp, key, data, shape.chains, shape.index, shape.used);
      nb := nb + 1;
      shape := shape.(chains := chains, index := shape.index[key := tmp], used := shape.used + {tmp});
    }

    /** A new element, before the test of the load. */
    method PutNew(key: Key, data: Data)
      requires Valid() && key != 0 && key !in shape.index
      modifies this, nodes, shape.all
      ensures alive <==> !old(Exhausted())
      ensures size == old(size) && nodes == old(nodes) && shape.peak == old(shape.peak)
      ensures alive ==> Holds(nodes, freeEntry, shape) && size == |shape.chains|
      ensures alive ==> nb == old(nb) + 1 == Length(shape.chains, size)
      ensures alive ==> Counted(nb, |shape.free|, maxNodes, nbAdd)
      ensures alive ==> shape.index == old(shape.index[key := shape.free[0]]) && old(shape.free[0]).data == data
      ensures forall n :: n in old(shape.used) ==> n.data == old(n.data)
      ensures old(shape.all) <= shape.all && fresh(shape.all - old(shape.all))
    {
      var tmp := GetANode();
      if alive {
        Place(tmp, key, data);
      }
    }

    /** What the test of the load leads to. */
    ghost method SizeAfter()
      requires nb > 0 && Light(size, nb - 1) && nb - 1 <= shape.peak && size == SizeFor(shape.peak, 0)
      modifies `shape
      ensures shape == old(shape).(peak := Larger(old(shape.peak), nb))
      ensures if 100 * nb > 85 * size
              then forall p: nat :: Closest(size, p) ==> Light(p, nb) && p == SizeFor(shape.peak, 0)
              else Light(size, nb) && size == SizeFor(shape.peak, 0)
    {
      SizedIs(size, shape.peak);
      if nb > shape.peak {
        SizedMore(size, nb);
        shape := shape.(peak := nb);
      } else if 100 * nb > 85 * size {
        SizedSame(size, shape.peak, nb);
      }
      if 100 * nb > 85 * size {
        GrowthIsLight(size, nb);
      }
      forall p: nat ensures Sized(p, shape.peak) <==> p == SizeFor(shape.peak, 0) {
        SizedIs(p, shape.peak);
      }
    }

    /** The table grows when more than 85 per cent as many elements as buckets are in it. */
    method TestLoad()
      requires Holds(nodes, freeEntry, shape) && size == |shape.chains| && nb == Length(shape.chains, size)
      requires Counted(nb, |shape.free|, maxNodes, nbAdd)
      requires nb > 0 && Light(size, nb - 1) && nb - 1 <= shape.peak && size == SizeFor(shape.peak, 0)
      modifies `nodes, `size, `shape, nodes, shape.all`next
      ensures Fits(shape, size, nb, nbAdd, maxNodes) && Holds(nodes, freeEntry, shape)
      ensures shape == old(shape).(chains := shape.chains, peak := Larger(old(shape.peak), nb))
      ensures nodes == old(nodes) || fresh(nodes)
    {
      SizeAfter();
      if 100 * nb > 85 * size {
        IncreaseSize();
      }
    }

    method InsertNew(key: Key, data: Data)
      requires Valid() && key != 0 && key !in shape.index
      modifies this, nodes, shape.all
      ensures alive <==> !old(Exhausted())
      ensures alive ==> Valid() && shape.index == old(shape.index[key := shape.free[0]])
      ensures alive ==> old(shape.free[0]).data == data
      ensures alive ==> shape.peak == Larger(old(shape.peak), nb) && nb == old(nb) + 1
      ensures forall n :: n in old(shape.used) ==> n.data == old(n.data)
      ensures old(shape.all) <= shape.all && fresh(shape.all - old(shape.all)) && (nodes == old(nodes) || fresh(nodes))
    {
      PutNew(key, data);
      if alive {
        TestLoad();
      }
    }

    /** The new data of an element that is there. */
    method Replace(tmp: Node, data: Data)
      requires Valid() && tmp in shape.used
      modifies tmp`data
      ensures Valid() && Contents() == old(Contents())[tmp.key := data]
    {
      ghost var before := Contents();
      assert tmp.key in shape.index && shape.index[tmp.key] == tmp;
      assert forall k :: k in shape.index ==> shape.index[k].key == k;
      tmp.data := data;
      ContentsMore(shape.index, before, tmp.key);
    }

    method InsertData(key: Key, data: Data)
      requires Valid() && key != 0 && key !in shape.index
      modifies this, nodes, shape.all
      ensures alive <==> !old(Exhausted())
      ensures alive ==> Valid() && Contents() == old(Contents())[key := data]
      ensures alive ==> shape.peak == Larger(old(shape.peak), nb)
      ensures !alive <==> Full(old(Contents()))
      ensures old(shape.all) <= shape.all && fresh(shape.all - old(shape.all)) && (nodes == old(nodes) || fresh(nodes))
    {
      ghost var before, index := Contents(), shape.index;
      FullWhenExhausted();
      assert forall k :: k in index ==> index[k] in shape.used;
      InsertNew(key, data);
      if alive {
        KeysMore(index, key, shape.index[key]);
        ContentsMore(shape.index, before, key);
      }
    }

    /** fc_lhash_insert. */
    method Insert(key: Key, data: Data)
      requires Valid()
      modifies this, nodes, shape.all
      ensures alive <==> key == 0 || key in old(shape.index) || !old(Exhausted())
      ensures alive <==> key == 0 || key in old(Contents()) || !Full(old(Contents()))
      ensures alive ==> Valid() && Contents() == if key == 0 then old(Contents()) else old(Contents())[key := data]
      ensures alive ==> shape.peak == Larger(old(shape.peak), nb)
      ensures old(shape.all) <= shape.all && fresh(shape.all - old(shape.all)) && (nodes == old(nodes) || fresh(nodes))
    {
      if key == 0 {
        return;
      }
      var tmp := FindNode(nodes, key, shape.chains, shape.index);
      if tmp != null {
        assert shape.index[key] in shape.used && shape.index[key].key == key;
        Replace(tmp, data);
      } else {
        InsertData(key, data);
      }
    }

    /** fc_lhash_lookup. */
    method Lookup(key: Key) returns (found: bool, data: Data)
      requires Valid()
      ensures found <==> key in Contents()
      ensures found ==> data == Contents()[key]
    {
      if key == 0 {
        return false, NO_DATA;
      }
      var tmp := FindNode(nodes, key, shape.chains, shape.index);
      if tmp == null {
        return false, NO_DATA;
      }
      return true, tmp.data;
    }

    /** fc_lhash_lookup_modify: the node of the key, through which its data may be changed. */
    method LookupModify(key: Key) returns (tmp: Node?)
      requires Valid()
      ensures if key in shape.index then tmp == shape.index[key] else tmp == null
    {
      if key == 0 {
        return null;
      }
      tmp := FindNode(nodes, key, shape.chains, shape.index);
    }

    method RemoveNode(key: Key)
      requires Valid()
      modifies `freeEntry, `nb, `shape, nodes, shape.all`next, shape.all`key, shape.all`fnext
      ensures Valid() && shape.index == old(shape.index) - {key} && shape.all == old(shape.all)
      ensures shape.peak == old(shape.peak)
    {
      var found;
      found, freeEntry, shape := Discard(nodes, key, freeEntry, shape);
      if found {
        nb := nb - 1;
      }
    }

    /** fc_lhash_remove. */
    method Remove(key: Key)
      requires Valid()
      modifies `freeEntry, `nb, `shape, nodes, shape.all`next, shape.all`key, shape.all`fnext
      ensures Valid() && Contents() == old(Contents()) - {key} && shape.all == old(shape.all)
      ensures shape.peak == old(shape.peak)
    {
      if key == 0 {
        NotThere(Contents(), key);
        return;
      }
      ContentsLess(shape.index, key);
      RemoveNode(key);
    }

    /** fc_lhash_size: nb is the number of elements. */
    lemma {:induction false} SizeIsCount()
      requires Valid()
      ensures nb == |Contents()| == |shape.index|
    {
      LengthIsCount(shape.chains, shape.index.Keys);
      SameSet(Contents().Keys, shape.index.Keys);
      assert |Contents()| == |Contents().Keys| && |shape.index| == |shape.index.Keys|;
    }

    /** Every node is in the chain of its key, once, or in the free list, once, and never in both; there
        are 64 of them, and twice as many more with each block. */
    lemma {:induction false} NodesAreConserved()
      requires Valid()
      ensures |shape.all| == nb + |shape.free| == 2 * maxNodes - INITIAL && shape.free != []
      ensures forall n :: n in shape.all ==> (n in shape.free <==> n !in shape.used)
      ensures forall n :: n in shape.used ==> n.key in shape.chains[n.key % size] && shape.index[n.key] == n
    {
      var rest := shape.all - shape.used;
      forall n ensures n in rest <==> n in shape.free {
        assert n in rest ==> IsFree(shape.free, n);
      }
      DistinctCount(shape.free, rest);
      assert shape.all == shape.used + rest;
      IndexCount(shape.index, shape.used);
      SizeIsCount();
      forall n | n in shape.used ensures n.key in shape.chains[n.key % size] && shape.index[n.key] == n {
        assert InBucket(shape.chains, n.key);
      }
    }

    /** No field overflows, and the limit of 32 more blocks is never reached. */
    lemma {:induction false} FieldsFit()
      requires Valid()
      ensures nbAdd <= 24 && maxNodes <= 0x4000_0000 && nb <= INT_MAX - INITIAL && size <= LAST_PRIME
    {
      LargestBlock(nbAdd);
    }

    /** The table is destroyed by the element that needs the last node of 24 more blocks, and by no other. */
    lemma {:induction false} WhenExhausted()
      requires Valid()
      ensures Exhausted() <==> nb == INT_MAX - INITIAL
    {
      LargestBlock(nbAdd);
    }

    lemma {:induction false} FullWhenExhausted()
      requires Valid()
      ensures Exhausted() <==> Full(Contents())
    {
      WhenExhausted();
      SizeIsCount();
    }

    /** Any sequence of operations: the table answers as a map does, unless it is destroyed, which it is
        exactly when a new key is to be inserted into a map that is as large as a table can hold.  Its size is
        that for the largest number of elements that there have been. */
    method Perform(ops: seq<Op>) returns (answers: seq<Answer>)
      requires Valid()
      modifies this, nodes, shape.all
      ensures alive ==> Valid() && Contents() == Run(old(Contents()), ops) && answers == Answers(old(Contents()), ops)
      ensures alive ==> size == SizeFor(Peak(old(Contents()), ops, old(shape.peak)), 0)
      ensures !alive <==> Destroys(old(Contents()), ops)
    {
      answers := [];
      ghost var before, peak := Contents(), shape.peak;
      var i := 0;
      while i < |ops|
        invariant 0 <= i <= |ops| && Valid() && After(before, ops[..i], Contents(), answers, peak, shape.peak)
        invariant old(shape.all) <= shape.all && fresh(shape.all - old(shape.all)) &&
          (nodes == old(nodes) || fresh(nodes))
      {
        answers := StepOn(ops, i, answers, before, peak);
        if !alive {
          return;
        }
        i := i + 1;
      }
      assert ops[..|ops|] == ops;
    }

    /** The next operation of the sequence. */
    method StepOn(ops: seq<Op>, i: nat, answers: seq<Answer>, ghost before: map<Key, Data>, ghost peak: nat)
      returns (answers': seq<Answer>)
      requires Valid() && i < |ops| && After(before, ops[..i], Contents(), answers, peak, shape.peak)
      modifies this, nodes, shape.all
      ensures if alive then Valid() && After(before, ops[..i + 1], Contents(), answers', peak, shape.peak)
              else Destroys(before, ops)
      ensures old(shape.all) <= shape.all && fresh(shape.all - old(shape.all)) && (nodes == old(nodes) || fresh(nodes))
    {
      AfterMore(before, ops, i, Contents(), answers, peak, shape.peak);
      var answer := Step(ops[i]);
      answers' := answers + [answer];
    }

    /** fc_lhash_lookup_modify, and a write through the pointers that it returns. */
    method Modify(key: Key, data: Data) returns (answer: Answer)
      requires Valid()
      modifies shape.all`data
      ensures Valid() && Contents()
        == (if key in old(Contents()) then old(Contents())[key := data] else old(Contents()))
      ensures answer == if key in old(Contents()) then Some(old(Contents())[key]) else None
    {
      var tmp := LookupModify(key);
      if tmp == null {
        return None;
      }
      assert shape.index[key] in shape.used && shape.index[key].key == key;
      answer := Some(tmp.data);
      Replace(tmp, data);
    }

    method Do(op: Op) returns (answer: Answer)
      requires Valid()
      modifies this, nodes, shape.all
      ensures alive ==> Valid() && Contents() == Apply(old(Contents()), op) && answer == AnswerTo(old(Contents()), op)
      ensures alive ==> shape.peak == Larger(old(shape.peak), nb)
      ensures !alive <==> Breaks(old(Contents()), op)
      ensures old(shape.all) <= shape.all && fresh(shape.all - old(shape.all)) && (nodes == old(nodes) || fresh(nodes))
    {
      answer := None;
      match op {
        case InsertOp(key, data) =>
          Insert(key, data);
        case LookupOp(key) =>
          var found, data := Lookup(key);
          if found {
            answer := Some(data);
          }
        case ModifyOp(key, data) =>
          answer := Modify(key, data);
        case RemoveOp(key) =>
          Remove(key);
      }
    }

    method Step(op: Op) returns (answer: Answer)
      requires Valid()
      modifies this, nodes, shape.all
      ensures alive ==> Valid() && Contents() == Apply(old(Contents()), op) && answer == AnswerTo(old(Contents()), op)
      ensures alive ==> shape.peak == Larger(old(shape.peak), |Contents()|)
      ensures !alive <==> Breaks(old(Contents()), op)
      ensures old(shape.all) <= shape.all && fresh(shape.all - old(shape.all)) && (nodes == old(nodes) || fresh(nodes))
    {
      answer := Do(op);
      if alive {
        SizeIsCount();
      }
    }

    /** One more call at a key. */
    method CountKey(key: Key)
      requires Valid()
      modifies this, nodes, shape.all
      ensures var value := if key in old(Contents()) then old(Contents())[key].value + 1 else 1;
        alive ==> Valid() && CountsOf(Contents()) == if key == 0 then old(CountsOf(Contents()))
                                                     else old(CountsOf(Contents()))[key := value]
      ensures !alive <==> key != 0 && key !in old(Contents()) && Full(old(Contents()))
      ensures old(shape.all) <= shape.all && fresh(shape.all - old(shape.all)) && (nodes == old(nodes) || fresh(nodes))
    {
      var tmp := LookupModify(key);
      if tmp != null {
        CountMore(tmp, key);
      } else {
        CountsMore(Contents(), key, Data(1, 0, 0));
        Insert(key, Data(1, 0, 0));
      }
    }

    /** One more call at a key that is there. */
    method CountMore(tmp: Node, key: Key)
      requires Valid() && key in shape.index && tmp == shape.index[key] && key != 0
      modifies shape.all`data
      ensures Valid() && CountsOf(Contents()) == old(CountsOf(Contents()))[key := old(Contents())[key].value + 1]
    {
      assert shape.index[key] in shape.used && shape.index[key].key == key;
      var data := tmp.data.(value := tmp.data.value + 1);
      CountsMore(Contents(), key, data);
      Replace(tmp, data);
    }

    /** fc_graph_add on the table: one more call of an arc. */
    method AddArc(from: int, to: int)
      requires Valid()
      modifies this, nodes, shape.all
      ensures alive ==> Valid() && CountsOf(Contents()) == M.AddArc(old(CountsOf(Contents())), from, to)
      ensures !alive <==>
                from != M.NULL && M.Key(from, to) != 0 && M.Key(from, to) !in old(Contents()) && Full(old(Contents()))
      ensures old(shape.all) <= shape.all && fresh(shape.all - old(shape.all)) && (nodes == old(nodes) || fresh(nodes))
    {
      if from == M.NULL {
        return;
      }
      KeyRange(from, to);
      CountKey(M.Key(from, to));
    }
  }

  /** Calls of the table.  `ModifyOp` writes new data through the pointers of fc_lhash_lookup_modify. */
  datatype Op =
    | InsertOp(key: Key, data: Data)
    | LookupOp(key: Key)
    | ModifyOp(key: Key, data: Data)
    | RemoveOp(key: Key)

  datatype Answer = None | Some(data: Data)

  /** The same calls on a plain map. */
  function Apply(m: map<Key, Data>, op: Op): map<Key, Data> {
    match op
    case InsertOp(key, data) => if key == 0 then m else m[key := data]
    case LookupOp(_) => m
    case ModifyOp(key, data) => if key in m then m[key := data] else m
    case RemoveOp(key) => m - {key}
  }

  /** As many elements as a table with 24 more blocks can hold. */
  ghost predicate Full(m: map<Key, Data>) {
    |m| == INT_MAX - INITIAL
  }

  /** A new key for a map that is that large. */
  ghost predicate Breaks(m: map<Key, Data>, op: Op) {
    op.InsertOp? && op.key != 0 && op.key !in m && Full(m)
  }

  /** The largest number of elements that the map has had, when it was p before. */
  ghost function Peak(m: map<Key, Data>, ops: seq<Op>, p: nat): nat {
    if ops == [] then p else Larger(Peak(m, ops[..|ops| - 1], p), |Run(m, ops)|)
  }

  ghost predicate Destroys(m: map<Key, Data>, ops: seq<Op>) {
    ops != [] && (Destroys(m, ops[..|ops| - 1]) || Breaks(Run(m, ops[..|ops| - 1]), ops[|ops| - 1]))
  }

  lemma {:induction false} DestroysMore(m: map<Key, Data>, ops: seq<Op>, i: nat)
    requires i <= |ops| && Destroys(m, ops[..i])
    ensures Destroys(m, ops)
    decreases |ops| - i
  {
    if i < |ops| {
      assert ops[..i + 1][..i] == ops[..i];
      DestroysMore(m, ops, i + 1);
    } else {
      assert ops[..i] == ops;
    }
  }

  /** A map m, the answers and the largest number of elements after the operations, none of which destroys the
      table. */
  ghost predicate After(before: map<Key, Data>, ops: seq<Op>, m: map<Key, Data>, answers: seq<Answer>, p: nat,
      peak: nat)
  {
    && m == Run(before, ops) && answers == Answers(before, ops) && !Destroys(before, ops)
    && peak == Peak(before, ops, p)
  }

  lemma {:induction false} AfterMore(before: map<Key, Data>, ops: seq<Op>, i: nat, m: map<Key, Data>,
      answers: seq<Answer>, p: nat, peak: nat)
    requires i < |ops| && After(before, ops[..i], m, answers, p, peak)
    ensures var m' := Apply(m, ops[i]);
      !Breaks(m, ops[i]) ==>
        After(before, ops[..i + 1], m', answers + [AnswerTo(m, ops[i])], p, Larger(peak, |m'|))
    ensures Breaks(m, ops[i]) ==> Destroys(before, ops)
  {
    assert ops[..i + 1][..i] == ops[..i];
    if Breaks(m, ops[i]) {
      DestroysMore(before, ops, i + 1);
    }
  }

  function AnswerTo(m: map<Key, Data>, op: Op): Answer {
    if (op.LookupOp? || op.ModifyOp?) && op.key in m then Some(m[op.key]) else None
  }

  function Run(m: map<Key, Data>, ops: seq<Op>): map<Key, Data> {
    if ops == [] then m else Apply(Run(m, ops[..|ops| - 1]), ops[|ops| - 1])
  }

  function Answers(m: map<Key, Data>, ops: seq<Op>): seq<Answer> {
    if ops == [] then [] else
    Answers(m, ops[..|ops| - 1]) + [AnswerTo(Run(m, ops[..|ops| - 1]), ops[|ops| - 1])]
  }

  lemma {:induction false} IndexCount(index: map<Key, Node>, used: set<Node>)
    requires Indexed(index, used)
    ensures |used| == |index|
    decreases |index|
  {
    assert forall n :: n in used ==> n.key in index;
    assert |index| == |index.Keys|;
    if k :| k in index {
      assert index[k] in used && index[k].key == k;
      IndexLess(index, used, k);
      IndexCount(index - {k}, used - {index[k]});
      assert |index - {k}| == |(index - {k}).Keys|;
      KeysLess(index, k);
    }
  }

  lemma {:induction false} IndexLess(index: map<Key, Node>, used: set<Node>, k: Key)
    requires Indexed(index, used) && k in index
    ensures Indexed(index - {k}, used - {index[k]})
  {
    assert forall m :: m in index ==> index[m].key == m && index[m] in used;
  }

  lemma {:induction false} CapacityGrows(m: nat, n: nat)
    requires m <= n
    ensures Capacity(m) <= Capacity(n) && (m < n ==> Capacity(m) < Capacity(n))
  {
    if m < n {
      CapacityGrows(m, n - 1);
    }
  }

  lemma {:induction false} FourBlocks(n: nat)
    ensures Capacity(n + 4) == 16 * Capacity(n)
  {
    assert Capacity(n + 2) == 2 * Capacity(n + 1) && Capacity(n + 4) == 2 * Capacity(n + 3);
  }

  /** With 24 more blocks max_rnodes is the largest power of two whose double is no `int`. */
  lemma {:induction false} LargestBlock(n: nat)
    requires Capacity(n) <= INT_MAX
    ensures n <= 24 && (Capacity(n) == 0x4000_0000 <==> n == 24) && Capacity(n) <= 0x4000_0000
  {
    FourBlocks(0);
    FourBlocks(4);
    FourBlocks(8);
    FourBlocks(12);
    FourBlocks(16);
    FourBlocks(20);
    assert Capacity(25) == 2 * Capacity(24) && Capacity(24) == 2 * Capacity(23);
    if n < 24 {
      CapacityGrows(n, 23);
    } else if n > 24 {
      CapacityGrows(25, n);
    }
  }

  function CountsOf(contents: map<Key, Data>): map<int, int> {
    map k: int | k in contents :: contents[k].value
  }

  lemma {:induction false} CountsMore(contents: map<Key, Data>, key: Key, data: Data)
    ensures CountsOf(contents[key := data]) == CountsOf(contents)[key := data.value]
  {
    SameMap(CountsOf(contents[key := data]), CountsOf(contents)[key := data.value]);
  }

  lemma {:induction false} KeyRange(from: int, to: int)
    ensures 0 <= M.Key(from, to) < U64_RANGE
  {
  }

  // ---------------------------------------------------------------- a table that is destroyed

  /** The insertion of keys. */
  function Insertions(keys: seq<Key>): (ops: seq<Op>)
    ensures |ops| == |keys| && forall i :: 0 <= i < |keys| ==> ops[i] == InsertOp(keys[i], NO_DATA)
  {
    seq(|keys|, i requires 0 <= i < |keys| => InsertOp(keys[i], NO_DATA))
  }

  predicate NewKeys(keys: seq<Key>) {
    && (forall i :: 0 <= i < |keys| ==> keys[i] != 0)
    && forall i, j :: 0 <= i < j < |keys| ==> keys[i] != keys[j]
  }

  lemma {:induction false} InsertionsMore(keys: seq<Key>)
    requires keys != []
    ensures Insertions(keys)[..|keys| - 1] == Insertions(keys[..|keys| - 1])
    ensures Insertions(keys)[|keys| - 1] == InsertOp(keys[|keys| - 1], NO_DATA)
  {
  }

  lemma {:induction false} AllInserted(keys: seq<Key>)
    requires NewKeys(keys)
    ensures |Run(map[], Insertions(keys))| == |keys|
    ensures forall k :: k in Run(map[], Insertions(keys)) ==> k in keys
  {
    if keys != [] {
      var most, k := keys[..|keys| - 1], keys[|keys| - 1];
      AllInserted(most);
      InsertionsMore(keys);
      InsertedOne(Run(map[], Insertions(most)), k, NO_DATA);
    }
  }

  lemma {:induction false} InsertedOne(m: map<Key, Data>, k: Key, data: Data)
    requires k !in m
    ensures |m[k := data]| == |m| + 1
  {
    assert m[k := data].Keys == m.Keys + {k};
    assert |m| == |m.Keys| && |m[k := data]| == |m[k := data].Keys|;
  }

  lemma {:induction false} LastInsertion(keys: seq<Key>)
    requires NewKeys(keys) && keys != []
    ensures var ops := Insertions(keys[..|keys| - 1]);
      Destroys(map[], Insertions(keys)) <==> Destroys(map[], ops) || |keys| - 1 == INT_MAX - INITIAL
  {
    InsertionsMore(keys);
    AllInserted(keys[..|keys| - 1]);
    assert keys[|keys| - 1] !in keys[..|keys| - 1];
  }

  /** Keys that are all new destroy a table exactly when there are more of them than it can hold. */
  lemma {:induction false} NewKeysDestroyExactly(keys: seq<Key>)
    requires NewKeys(keys)
    ensures Destroys(map[], Insertions(keys)) <==> |keys| > INT_MAX - INITIAL
  {
    if keys != [] {
      NewKeysDestroyExactly(keys[..|keys| - 1]);
      LastInsertion(keys);
    }
  }

  /** There are that many keys. */
  method Overfill() returns (table: Table)
    ensures !table.alive
  {
    var n := INT_MAX - INITIAL + 1;
    var keys: seq<Key> := seq(n, i requires 0 <= i < n => i + 1);
    assert NewKeys(keys);
    NewKeysDestroyExactly(keys);
    table := new Table();
    var _ := table.Perform(Insertions(keys));
  }
}
