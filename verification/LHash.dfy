/** The chained hash table of the call graph (src/fcmanager/fc_xlhash.c:126-459). */
module LHash {
  import opened Maps

  const U64_RANGE := 0x1_0000_0000_0000_0000

  /** Keys are unsigned 64-bit numbers; 0 is no key. */
  type Key = k: int | 0 <= k < U64_RANGE

  datatype Data = Data(value: int, ptr1: int, ptr2: int)

  /** FC_LHNode: `next` links the chain of a bucket, `fnext` the free list. */
  class Node {
    var key: Key
    var data: Data
    var next: Node?
    var fnext: Node?

    constructor ()
    {
      key, data, next, fnext := 0, Data(0, 0, 0), null, null;
    }
  }

  // ---------------------------------------------------------------- chains

  predicate Distinct<T(==)>(s: seq<T>) {
    forall i, j :: 0 <= i < j < |s| ==> s[i] != s[j]
  }

  ghost predicate InBucket(chains: seq<seq<Key>>, k: Key)
    requires |chains| > 0
  {
    k in chains[k % |chains|]
  }

  /** Each key is in one chain, once: the chain key % size. */
  ghost predicate Placed(chains: seq<seq<Key>>, keys: set<Key>) {
    && |chains| > 0
    && (forall k {:trigger InBucket(chains, k)} :: k in keys ==> InBucket(chains, k))
    && (forall i :: 0 <= i < |chains| ==> Distinct(chains[i]))
    && forall i, j :: 0 <= i < |chains| && 0 <= j < |chains[i]| ==> chains[i][j] in keys && chains[i][j] % |chains| == i
  }

  /** The nodes of the table, by key. */
  ghost predicate Named(index: map<Key, Node>)
    reads index.Values`key
  {
    forall k {:trigger index[k].key} :: k in index ==> index[k].key == k
  }

  ghost function NodeAt(index: map<Key, Node>, c: seq<Key>, j: nat): Node? {
    if j < |c| && c[j] in index then index[c[j]] else null
  }

  /** The list from head on, linked by `next`, has the nodes of the keys c. */
  ghost predicate IsList(head: Node?, c: seq<Key>, index: map<Key, Node>)
    reads index.Values`next
  {
    && (forall j :: 0 <= j < |c| ==> c[j] in index) && head == NodeAt(index, c, 0)
    && forall j {:trigger index[c[j]].next} :: 0 <= j < |c| ==> index[c[j]].next == NodeAt(index, c, j + 1)
  }

  /** The buckets of arr are the heads of the chains. */
  ghost predicate Linked(arr: array<Node?>, chains: seq<seq<Key>>, index: map<Key, Node>)
    reads arr, index.Values`next
  {
    arr.Length == |chains| &&
    forall i {:trigger IsList(arr[i], chains[i], index)} :: 0 <= i < |chains| ==>
      IsList(arr[i], chains[i], index)
  }

  /** The search of one bucket. */
  method FindInBucket(head: Node?, key: Key, ghost c: seq<Key>, ghost index: map<Key, Node>) returns (r: Node?)
    requires Named(index) && IsList(head, c, index)
    ensures if key in c then key in index && r == index[key] else r == null
  {
    r := head;
    ghost var j := 0;
    while r != null
      invariant 0 <= j <= |c| && r == NodeAt(index, c, j)
      invariant forall m :: 0 <= m < j ==> c[m] != key
      decreases |c| - j
    {
      if r.key == key {
        return;
      }
      r := r.next;
      j := j + 1;
    }
  }

  /** fc_lhash_lookup_node. */
  method FindNode(arr: array<Node?>, key: Key, ghost chains: seq<seq<Key>>, ghost index: map<Key, Node>)
    returns (r: Node?)
    requires Named(index) && Placed(chains, index.Keys) && Linked(arr, chains, index)
    ensures if key in index then r == index[key] else r == null
  {
    assert key in index ==> InBucket(chains, key);
    r := FindInBucket(arr[key % arr.Length], key, chains[key % arr.Length], index);
  }

  /** The insertion at the end of a bucket (fc_lhash_insert_known, and the end of fc_lhash_insert). */
  method Append(arr: array<Node?>, b: nat, nd: Node, ghost c: seq<Key>, ghost index: map<Key, Node>)
    requires b < arr.Length && Named(index) && IsList(arr[b], c, index) && Distinct(c)
    requires nd.key in index && index[nd.key] == nd && nd.key !in c
    modifies arr, index.Values`next
    ensures IsList(arr[b], c + [nd.key], index) && forall i :: 0 <= i < arr.Length && i != b ==> arr[i] == old(arr[i])
    ensures forall k :: k in index && k !in c + [nd.key] ==> index[k].next == old(index[k].next)
  {
    ghost var k := nd.key;
    nd.next := null;
    assert IsList(arr[b], c, index);
    if arr[b] == null {
      arr[b] := nd;
    } else {
      var tmp := arr[b];
      ghost var j := 0;
      while tmp.next != null
        invariant 0 <= j < |c| && tmp == index[c[j]]
        decreases |c| - j
      {
        tmp := tmp.next;
        j := j + 1;
      }
      tmp.next := nd;
      assert forall m :: m in index ==> index[m].key == m;
      forall m | 0 <= m < |c| + 1 ensures index[(c + [k])[m]].next == NodeAt(index, c + [k], m + 1) {
        if m < |c| {
          assert (c + [k])[m] == c[m];
        }
      }
    }
  }

  lemma {:induction false} PlacedMore(chains: seq<seq<Key>>, keys: set<Key>, k: Key)
    requires Placed(chains, keys) && k !in keys
    ensures var b := k % |chains|; Placed(chains[b := chains[b] + [k]], keys + {k})
    ensures k !in chains[k % |chains|]
  {
    var b := k % |chains|;
    var chains' := chains[b := chains[b] + [k]];
    forall m | m in keys + {k} ensures InBucket(chains', m) {
      if m == k {
        assert chains'[b][|chains[b]|] == k;
      } else {
        assert InBucket(chains, m);
      }
    }
  }

  /** A node that is in the index, but not in the chains, enters them. */
  method AddNode(arr: array<Node?>, nd: Node, ghost chains: seq<seq<Key>>, ghost index: map<Key, Node>,
      ghost keys: set<Key>)
    returns (ghost chains': seq<seq<Key>>)
    requires Named(index) && Placed(chains, keys) && Linked(arr, chains, index)
    requires nd.key in index && index[nd.key] == nd && nd.key !in keys
    modifies arr, index.Values`next
    ensures Placed(chains', keys + {nd.key}) && Linked(arr, chains', index) && |chains'| == |chains|
    ensures forall k :: k in index && k !in keys && k != nd.key ==> index[k].next == old(index[k].next)
  {
    var b := nd.key % arr.Length;
    chains' := chains[b := chains[b] + [nd.key]];
    PlacedMore(chains, keys, nd.key);
    Append(arr, b, nd, chains[b], index);
    forall i | 0 <= i < |chains| && i != b ensures IsList(arr[i], chains'[i], index) {
      assert old(IsList(arr[i], chains[i], index));
    }
  }

  // ---------------------------------------------------------------- the growth of the table

  function Drop<T>(s: seq<T>, j: nat): (r: seq<T>)
    requires j < |s|
    ensures |r| == |s| - 1 && forall m :: 0 <= m < |r| ==> r[m] == s[if m < j then m else m + 1]
  {
    s[..j] + s[j + 1..]
  }

  /** The chains without element j of chain b. */
  ghost function Without(chains: seq<seq<Key>>, b: nat, j: nat): seq<seq<Key>>
    requires b < |chains| && j < |chains[b]|
  {
    chains[b := Drop(chains[b], j)]
  }

  lemma {:induction false} PlacedLess(chains: seq<seq<Key>>, keys: set<Key>, b: nat, j: nat)
    requires Placed(chains, keys) && b < |chains| && j < |chains[b]|
    ensures chains[b][j] in keys && Placed(Without(chains, b, j), keys - {chains[b][j]})
  {
    var c, d, n := chains[b], Drop(chains[b], j), chains[b][j];
    var chains' := Without(chains, b, j);
    forall k | k in keys - {n} ensures InBucket(chains', k) {
      assert InBucket(chains, k);
      if k % |chains| == b {
        var m :| 0 <= m < |c| && c[m] == k;
        assert d[if m < j then m else m - 1] == k;
      }
    }
  }

  lemma {:induction false} TailIsList(head: Node?, c: seq<Key>, index: map<Key, Node>)
    requires IsList(head, c, index) && head != null
    ensures c != [] && head == index[c[0]] && IsList(head.next, c[1..], index)
  {
    forall j | 0 <= j < |c| - 1 ensures index[c[1..][j]].next == NodeAt(index, c[1..], j + 1) {
      assert c[1..][j] == c[j + 1];
    }
  }

  /** The first node of a bucket leaves it. */
  method PopHead(arr: array<Node?>, b: nat, ghost chains: seq<seq<Key>>, ghost index: map<Key, Node>,
      ghost keys: set<Key>)
    returns (tmp: Node)
    requires Named(index) && Placed(chains, keys) && Linked(arr, chains, index) && b < arr.Length && arr[b] != null
    modifies arr
    ensures chains[b] != [] && tmp.key == chains[b][0] && tmp.key in index && index[tmp.key] == tmp && tmp.key in keys
    ensures Placed(Without(chains, b, 0), keys - {tmp.key}) && Linked(arr, Without(chains, b, 0), index)
  {
    tmp := arr[b];
    ghost var c := chains[b];
    TailIsList(arr[b], c, index);
    PlacedLess(chains, keys, b, 0);
    assert Drop(c, 0) == c[1..];
    arr[b] := tmp.next;
    forall i | 0 <= i < |chains| && i != b ensures IsList(arr[i], chains[i], index) {
      assert old(IsList(arr[i], chains[i], index));
    }
  }

  /** One step of the rehashing: the first node of bucket i moves to its bucket in the new array. */
  method MoveHead(arr: array<Node?>, i: nat, newNodes: array<Node?>, ghost rest: seq<seq<Key>>,
      ghost chains: seq<seq<Key>>, ghost index: map<Key, Node>, ghost moved: set<Key>)
    returns (ghost chains': seq<seq<Key>>, ghost rest': seq<seq<Key>>, ghost moved': set<Key>)
    requires i < arr.Length && arr[i] != null && arr != newNodes && moved <= index.Keys && Named(index)
    requires Placed(rest, index.Keys - moved) && Linked(arr, rest, index)
    requires Placed(chains, moved) && Linked(newNodes, chains, index)
    modifies arr, newNodes, index.Values`next
    ensures moved' <= index.Keys && |chains'| == |chains| && rest[i] != [] && rest' == Without(rest, i, 0)
    ensures Placed(rest', index.Keys - moved') && Linked(arr, rest', index)
    ensures Placed(chains', moved') && Linked(newNodes, chains', index)
  {
    var tmp := PopHead(arr, i, rest, index, index.Keys - moved);
    rest', moved' := Without(rest, i, 0), moved + {tmp.key};
    assert index.Keys - moved' == index.Keys - moved - {tmp.key};
    label L:
    chains' := AddNode(newNodes, tmp, chains, index, moved);
    forall b | 0 <= b < |rest'| ensures IsList(arr[b], rest'[b], index) {
      assert old@L(IsList(arr[b], rest'[b], index));
      assert forall j :: 0 <= j < |rest'[b]| ==> rest'[b][j] in index.Keys - moved';
    }
  }

  /** The nodes of the keys in `moved` are in the new array, the others still in the old one. */
  ghost predicate Moving(arr: array<Node?>, rest: seq<seq<Key>>, newNodes: array<Node?>, chains: seq<seq<Key>>,
      index: map<Key, Node>, moved: set<Key>)
    reads arr, newNodes, index.Values
  {
    && moved <= index.Keys && Named(index)
    && Placed(rest, index.Keys - moved) && Linked(arr, rest, index)
    && Placed(chains, moved) && Linked(newNodes, chains, index)
  }

  /** The inner loop: all nodes of bucket i move. */
  method EmptyBucket(arr: array<Node?>, i: nat, newNodes: array<Node?>, ghost rest: seq<seq<Key>>,
      ghost chains: seq<seq<Key>>, ghost index: map<Key, Node>, ghost moved: set<Key>)
    returns (ghost chains': seq<seq<Key>>, ghost rest': seq<seq<Key>>, ghost moved': set<Key>)
    requires i < arr.Length && arr != newNodes && Moving(arr, rest, newNodes, chains, index, moved)
    modifies arr, newNodes, index.Values`next
    ensures Moving(arr, rest', newNodes, chains', index, moved') && |chains'| == |chains|
    ensures |rest'| == |rest| && rest'[i] == [] && forall b :: 0 <= b < |rest| && b != i ==> rest'[b] == rest[b]
  {
    chains', rest', moved' := chains, rest, moved;
    while arr[i] != null
      invariant Moving(arr, rest', newNodes, chains', index, moved') && |chains'| == |chains|
      invariant |rest'| == |rest| && forall b :: 0 <= b < |rest| && b != i ==> rest'[b] == rest[b]
      decreases |rest'[i]|
    {
      chains', rest', moved' := MoveHead(arr, i, newNodes, rest', chains', index, moved');
    }
    assert IsList(arr[i], rest'[i], index);
  }

  /** The outer loop: all buckets are emptied. */
  method EmptyBuckets(arr: array<Node?>, newNodes: array<Node?>, ghost rest: seq<seq<Key>>,
      ghost chains: seq<seq<Key>>, ghost index: map<Key, Node>)
    returns (ghost chains': seq<seq<Key>>)
    requires arr != newNodes && Moving(arr, rest, newNodes, chains, index, {})
    modifies arr, newNodes, index.Values`next
    ensures Placed(chains', index.Keys) && Linked(newNodes, chains', index)
  {
    chains' := chains;
    ghost var rest', moved: set<Key> := rest, {};
    var i := 0;
    while i < arr.Length
      invariant 0 <= i <= arr.Length && Moving(arr, rest', newNodes, chains', index, moved)
      invariant forall b :: 0 <= b < i ==> rest'[b] == []
    {
      chains', rest', moved := EmptyBucket(arr, i, newNodes, rest', chains', index, moved);
      i := i + 1;
    }
    AllMoved(arr, rest', newNodes, chains', index, moved);
  }

  /** A new array of empty buckets. */
  method NewBuckets(size: nat) returns (nodes: array<Node?>)
    ensures fresh(nodes) && nodes.Length == size && forall i :: 0 <= i < size ==> nodes[i] == null
  {
    nodes := new Node?[size](_ => null);
  }

  /** fc_lhash_increase_size: each node moves to its bucket in a new array. */
  method Rehash(arr: array<Node?>, newSize: nat, ghost chains: seq<seq<Key>>, ghost index: map<Key, Node>)
    returns (newNodes: array<Node?>, ghost chains': seq<seq<Key>>)
    requires Named(index) && Placed(chains, index.Keys) && Linked(arr, chains, index) && newSize > 0
    modifies arr, index.Values`next
    ensures fresh(newNodes) && newNodes.Length == newSize
    ensures Placed(chains', index.Keys) && Linked(newNodes, chains', index)
  {
    newNodes := NewBuckets(newSize);
    ghost var empty := seq(newSize, _ => []);
    NothingMoved(arr, chains, newNodes, empty, index);
    chains' := EmptyBuckets(arr, newNodes, chains, empty, index);
  }

  lemma {:induction false} AllOf<T>(s: set<T>, t: set<T>)
    requires t <= s && s - t == {}
    ensures s == t
  {
    assert forall x :: x in s && x !in t ==> x in s - t;
  }

  lemma {:induction false} SomethingLeft(rest: seq<seq<Key>>, keys: set<Key>)
    requires Placed(rest, keys)
    ensures keys != {} ==> exists b :: 0 <= b < |rest| && rest[b] != []
  {
    if k: Key :| k in keys {
      assert InBucket(rest, k);
    }
  }

  lemma {:induction false} NothingMoved(arr: array<Node?>, rest: seq<seq<Key>>, newNodes: array<Node?>,
      chains: seq<seq<Key>>, index: map<Key, Node>)
    requires Named(index) && Placed(rest, index.Keys) && Linked(arr, rest, index)
    requires newNodes.Length == |chains| > 0
    requires forall i :: 0 <= i < |chains| ==> chains[i] == [] && newNodes[i] == null
    ensures Moving(arr, rest, newNodes, chains, index, {})
  {
    assert index.Keys - {} == index.Keys;
  }

  lemma {:induction false} AllMoved(arr: array<Node?>, rest: seq<seq<Key>>, newNodes: array<Node?>,
      chains: seq<seq<Key>>, index: map<Key, Node>, moved: set<Key>)
    requires Moving(arr, rest, newNodes, chains, index, moved) && forall b :: 0 <= b < |rest| ==> rest[b] == []
    ensures Placed(chains, index.Keys) && Linked(newNodes, chains, index)
  {
    SomethingLeft(rest, index.Keys - moved);
    AllOf(index.Keys, moved);
  }

  // ---------------------------------------------------------------- the number of elements

  /** The number of nodes in the first n buckets. */
  ghost function Length(chains: seq<seq<Key>>, n: nat): nat
    requires n <= |chains|
  {
    if n == 0 then 0 else Length(chains, n - 1) + |chains[n - 1]|
  }

  lemma {:induction false} DistinctCount<T>(s: seq<T>, ts: set<T>)
    requires Distinct(s) && forall x :: x in ts <==> x in s
    ensures |ts| == |s|
  {
    if s == [] {
      assert ts == {};
    } else {
      var x := s[|s| - 1];
      forall y | y in ts - {x} ensures y in s[..|s| - 1] {
        var j :| 0 <= j < |s| && s[j] == y;
        assert s[..|s| - 1][j] == y;
      }
      DistinctCount(s[..|s| - 1], ts - {x});
    }
  }

  /** The keys that belong to the first n of `size` buckets. */
  ghost function Below(keys: set<Key>, size: nat, n: nat): set<Key>
    requires size > 0
  {
    set k | k in keys && k % size < n
  }

  lemma {:induction false} PrefixCount(chains: seq<seq<Key>>, keys: set<Key>, n: nat)
    requires Placed(chains, keys) && n <= |chains|
    ensures |Below(keys, |chains|, n)| == Length(chains, n)
  {
    if n == 0 {
      SameSet(Below(keys, |chains|, 0), {});
    } else {
      PrefixCount(chains, keys, n - 1);
      var before, here := Below(keys, |chains|, n - 1), set k | k in keys && k % |chains| == n - 1;
      forall k: Key ensures k in here <==> k in chains[n - 1] {
        assert k in keys ==> InBucket(chains, k);
      }
      DistinctCount(chains[n - 1], here);
      SameSet(Below(keys, |chains|, n), before + here);
      assert before !! here;
    }
  }

  /** The buckets hold as many nodes as there are keys. */
  lemma {:induction false} LengthIsCount(chains: seq<seq<Key>>, keys: set<Key>)
    requires Placed(chains, keys)
    ensures Length(chains, |chains|) == |keys|
  {
    PrefixCount(chains, keys, |chains|);
    SameSet(Below(keys, |chains|, |chains|), keys);
  }

  lemma {:induction false} LengthMore(chains: seq<seq<Key>>, chains': seq<seq<Key>>, keys: set<Key>, k: Key)
    requires Placed(chains, keys) && Placed(chains', keys + {k}) && k !in keys
    ensures Length(chains', |chains'|) == Length(chains, |chains|) + 1
  {
    LengthIsCount(chains, keys);
    LengthIsCount(chains', keys + {k});
  }

  lemma {:induction false} LengthLess(chains: seq<seq<Key>>, chains': seq<seq<Key>>, keys: set<Key>, k: Key)
    requires Placed(chains, keys) && Placed(chains', keys - {k}) && k in keys
    ensures Length(chains', |chains'|) == Length(chains, |chains|) - 1
  {
    LengthIsCount(chains, keys);
    LengthIsCount(chains', keys - {k});
  }

  lemma {:induction false} LengthSame(chains: seq<seq<Key>>, chains': seq<seq<Key>>, keys: set<Key>)
    requires Placed(chains, keys) && Placed(chains', keys)
    ensures Length(chains', |chains'|) == Length(chains, |chains|)
  {
    LengthIsCount(chains, keys);
    LengthIsCount(chains', keys);
  }

  // ---------------------------------------------------------------- elements

  /** Every node in use, and no other, is that of its key; 0 is no key. */
  ghost predicate Indexed(index: map<Key, Node>, used: set<Node>)
    reads used`key
  {
    && 0 !in index && (forall k {:trigger index[k] in used} :: k in index ==> index[k] in used)
    && (forall n {:trigger n.key} :: n in used ==> n.key in index && index[n.key] == n) && Named(index)
  }

  /** The buckets hold the nodes in use. */
  ghost predicate Stored(arr: array<Node?>, chains: seq<seq<Key>>, index: map<Key, Node>, used: set<Node>)
    reads arr, used`key, used`next
  {
    Indexed(index, used) && Placed(chains, index.Keys) && Linked(arr, chains, index)
  }

  /** The new element goes into its node, and the node to the end of its bucket. */
  method Enter(arr: array<Node?>, tmp: Node, key: Key, data: Data, ghost chains: seq<seq<Key>>,
      ghost index: map<Key, Node>, ghost used: set<Node>)
    returns (ghost chains': seq<seq<Key>>)
    requires Stored(arr, chains, index, used) && key != 0 && key !in index && tmp !in used
    modifies arr, tmp`key, tmp`data, tmp`next, used`next
    ensures Stored(arr, chains', index[key := tmp], used + {tmp}) && tmp.data == data
    ensures Length(chains', |chains'|) == Length(chains, |chains|) + 1
  {
    LinkedMore(arr, chains, index, key, tmp);
    tmp.key := key;
    tmp.data := data;
    KeysMore(index, key, tmp);
    chains' := AddNode(arr, tmp, chains, index[key := tmp], index.Keys);
    LengthMore(chains, chains', index.Keys, key);
  }

  /** The node of a key leaves its bucket: the one before it, or the bucket, goes on with the next one. */
  method Unchain(arr: array<Node?>, b: nat, otmp: Node?, tmp: Node, ghost c: seq<Key>,
      ghost index: map<Key, Node>, ghost j: nat)
    requires b < arr.Length && Named(index) && IsList(arr[b], c, index) && Distinct(c) && j < |c|
    requires tmp == index[c[j]] && otmp == if j == 0 then null else NodeAt(index, c, j - 1)
    modifies arr, index.Values`next
    ensures IsList(arr[b], Drop(c, j), index)
    ensures forall i :: 0 <= i < arr.Length && i != b ==> arr[i] == old(arr[i])
    ensures forall k :: k in index && k !in c ==> index[k].next == old(index[k].next)
  {
    NextInDrop(arr[b], c, index, j);
    assert forall k :: k in index ==> index[k].key == k;
    if otmp != null {
      otmp.next := tmp.next;
    } else {
      arr[b] := tmp.next;
    }
    ghost var d := Drop(c, j);
    forall m | 0 <= m < |d| ensures index[d[m]].next == NodeAt(index, d, m + 1) {
      assert d[m] == c[if m < j then m else m + 1];
    }
  }

  lemma {:induction false} NextInDrop(head: Node?, c: seq<Key>, index: map<Key, Node>, j: nat)
    requires IsList(head, c, index) && j < |c|
    ensures index[c[j]].next == NodeAt(index, Drop(c, j), j)
    ensures forall m :: 0 <= m < |Drop(c, j)| && m != j - 1 ==>
      index[Drop(c, j)[m]].next == NodeAt(index, Drop(c, j), m + 1)
  {
    var d := Drop(c, j);
    forall m | 0 <= m < |d| && m != j - 1 ensures index[d[m]].next == NodeAt(index, d, m + 1) {
      var m' := if m < j then m else m + 1;
      assert d[m] == c[m'] && index[c[m']].next == NodeAt(index, c, m' + 1);
    }
    assert index[c[j]].next == NodeAt(index, c, j + 1);
  }

  /** The search in fc_lhash_remove, and the removal from the bucket of the node that it finds. */
  method Unlink(arr: array<Node?>, b: nat, key: Key, ghost c: seq<Key>, ghost index: map<Key, Node>)
    returns (tmp: Node?, ghost j: nat)
    requires b < arr.Length && Named(index) && IsList(arr[b], c, index) && Distinct(c)
    modifies arr, index.Values`next
    ensures tmp == null ==> key !in c && IsList(arr[b], c, index)
    ensures tmp != null ==> j < |c| && c[j] == key && tmp == index[key] && IsList(arr[b], Drop(c, j), index)
    ensures forall i :: 0 <= i < arr.Length && i != b ==> arr[i] == old(arr[i])
    ensures forall k :: k in index && k !in c ==> index[k].next == old(index[k].next)
  {
    var otmp: Node? := null;
    tmp, j := arr[b], 0;
    while tmp != null
      invariant 0 <= j <= |c| && tmp == NodeAt(index, c, j) &&
        otmp == (if j == 0 then null else NodeAt(index, c, j - 1))
      invariant forall m :: 0 <= m < j ==> c[m] != key
      decreases |c| - j
    {
      if tmp.key == key {
        Unchain(arr, b, otmp, tmp, c, index, j);
        return;
      }
      otmp := tmp;
      tmp := tmp.next;
      j := j + 1;
    }
  }

  /** The node of a key leaves the chains. */
  method Leave(arr: array<Node?>, key: Key, ghost chains: seq<seq<Key>>, ghost index: map<Key, Node>,
      ghost used: set<Node>)
    returns (tmp: Node?, ghost chains': seq<seq<Key>>)
    requires Stored(arr, chains, index, used)
    modifies arr, used`next
    ensures tmp == (if key in index then index[key] else null) && |chains'| == |chains|
    ensures Placed(chains', (index - {key}).Keys) && Linked(arr, chains', index - {key})
  {
    var b := key % arr.Length;
    ghost var j;
    assert key in index ==> InBucket(chains, key);
    tmp, j := Unlink(arr, b, key, chains[b], index);
    chains' := if tmp == null then chains else Without(chains, b, j);
    if tmp != null {
      PlacedLess(chains, index.Keys, b, j);
    }
    forall i | 0 <= i < |chains| && i != b ensures IsList(arr[i], chains'[i], index) {
      assert old(IsList(arr[i], chains[i], index));
    }
    KeysLess(index, key);
    KeyGone(index.Keys, key);
    LinkedLess(arr, chains', index, key);
  }

  /** The node of a key leaves the table, and loses its key. */
  method Forget(arr: array<Node?>, key: Key, ghost chains: seq<seq<Key>>, ghost index: map<Key, Node>,
      ghost used: set<Node>)
    returns (tmp: Node?, ghost chains': seq<seq<Key>>)
    requires Stored(arr, chains, index, used)
    modifies arr, used`next, used`key
    ensures tmp == (if key in index then index[key] else null) && (tmp != null ==> tmp.key == 0)
    ensures if tmp == null then Stored(arr, chains', index, used) else Stored(arr, chains', index - {key}, used - {tmp})
    ensures Length(chains', |chains'|) == Length(chains, |chains|) - if tmp == null then 0 else 1
    ensures |chains'| == |chains|
  {
    tmp, chains' := Leave(arr, key, chains, index, used);
    KeysLess(index, key);
    if tmp != null {
      LengthLess(chains, chains', index.Keys, key);
      assert forall k :: k in index ==> index[k].key == k && index[k] in used;
      tmp.key := 0;
    } else {
      NotThere(index, key);
      LengthSame(chains, chains', index.Keys);
    }
  }

  lemma {:induction false} KeyGone<T>(s: set<T>, x: T)
    ensures x !in s ==> s - {x} == s
  {
  }

  lemma {:induction false} LinkedLess(arr: array<Node?>, chains: seq<seq<Key>>, index: map<Key, Node>, key: Key)
    requires Linked(arr, chains, index) && forall i, j :: 0 <= i < |chains| && 0 <= j < |chains[i]| ==>
      chains[i][j] != key
    ensures Linked(arr, chains, index - {key})
  {
    forall i | 0 <= i < |chains| ensures IsList(arr[i], chains[i], index - {key}) {
      assert IsList(arr[i], chains[i], index);
    }
  }

  ghost function ContentsOf(index: map<Key, Node>): map<Key, Data>
    reads index.Values`data
  {
    map k | k in index :: index[k].data
  }

  lemma {:induction false} ContentsLess(index: map<Key, Node>, key: Key)
    ensures ContentsOf(index - {key}) == ContentsOf(index) - {key}
  {
    SameMap(ContentsOf(index - {key}), ContentsOf(index) - {key});
  }

  lemma {:induction false} ContentsMore(index: map<Key, Node>, before: map<Key, Data>, key: Key)
    requires index.Keys == before.Keys + {key}
    requires forall k :: k in before && k != key ==> index[k].data == before[k]
    ensures ContentsOf(index) == before[key := index[key].data]
  {
    SameMap(ContentsOf(index), before[key := index[key].data]);
  }

  lemma {:induction false} NotThere<K, V>(m: map<K, V>, k: K)
    requires k !in m
    ensures m - {k} == m
  {
  }

  lemma {:induction false} KeysMore<K, V>(m: map<K, V>, k: K, v: V)
    ensures m[k := v].Keys == m.Keys + {k}
  {
  }

  lemma {:induction false} KeysLess<K, V>(m: map<K, V>, k: K)
    ensures (m - {k}).Keys == m.Keys - {k}
  {
  }

  lemma {:induction false} LinkedMore(arr: array<Node?>, chains: seq<seq<Key>>, index: map<Key, Node>,
      key: Key, n: Node)
    requires Linked(arr, chains, index) && key !in index
    ensures Linked(arr, chains, index[key := n])
  {
    forall i | 0 <= i < |chains| ensures IsList(arr[i], chains[i], index[key := n]) {
      assert IsList(arr[i], chains[i], index);
    }
  }
}
