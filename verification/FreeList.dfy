/** The free list of the hash table (src/fcmanager/fc_xlhash.c:70-75 and 126-170). */
module FreeList {
  import opened LHash

  const MAX_ADD := 32
  const INITIAL := 64

  /** max_rnodes and nb are C `int`s. */
  const INT_MAX := 0x7fff_ffff

  /** The list from head on, linked by `fnext`. */
  ghost predicate IsFreeList(head: Node?, s: seq<Node>)
    reads s`fnext
  {
    && (if s == [] then head == null else head == s[0] && s[|s| - 1].fnext == null)
    && forall j :: 0 <= j < |s| - 1 ==> s[j].fnext == s[j + 1]
  }

  /** A new block of free nodes. */
  method NewBlock(n: nat) returns (head: Node, ghost s: seq<Node>)
    requires n > 0
    ensures |s| == n && IsFreeList(head, s) && Distinct(s) && forall j :: 0 <= j < |s| ==> fresh(s[j])
  {
    var block := [];
    var i := 0;
    while i < n
      invariant 0 <= i <= n && |block| == i && Distinct(block) && forall j :: 0 <= j < |block| ==> fresh(block[j])
    {
      var node := new Node();
      block := block + [node];
      i := i + 1;
    }
    LinkBlock(block);
    head, s := block[0], block;
  }

  method LinkBlock(block: seq<Node>)
    requires block != [] && Distinct(block)
    modifies block`fnext
    ensures IsFreeList(block[0], block)
  {
    var i := 0;
    while i < |block|
      invariant 0 <= i <= |block|
      invariant forall j :: 0 <= j < i && j < |block| - 1 ==> block[j].fnext == block[j + 1]
      invariant i == |block| ==> block[i - 1].fnext == null
    {
      block[i].fnext := if i < |block| - 1 then block[i + 1] else null;
      i := i + 1;
    }
  }

  /** 64 * 2 ^ n: the size after n more blocks. */
  function Capacity(n: nat): (c: nat)
    ensures c >= INITIAL
  {
    if n == 0 then INITIAL else 2 * Capacity(n - 1)
  }

  lemma {:induction false} TailIsFree(head: Node?, s: seq<Node>)
    requires s != [] && IsFreeList(head, s) && Distinct(s)
    ensures head == s[0] && IsFreeList(s[0].fnext, s[1..]) && Distinct(s[1..]) && s[0] !in s[1..]
  {
    forall j | 0 <= j < |s| - 2 ensures s[1..][j].fnext == s[1..][j + 1] {
      assert s[j + 1].fnext == s[j + 2];
    }
  }

  /** The nodes of all that are not used are the free ones, each once. */
  ghost predicate Divided(all: set<Node>, used: set<Node>, free: seq<Node>) {
    && used <= all && Distinct(free)
    && (forall j :: 0 <= j < |free| ==> free[j] in all && free[j] !in used)
    && forall n {:trigger IsFree(free, n)} :: n in all && n !in used ==> IsFree(free, n)
  }

  ghost predicate IsFree(free: seq<Node>, n: Node) {
    n in free
  }

  lemma {:induction false} DividedTail(all: set<Node>, used: set<Node>, free: seq<Node>)
    requires Divided(all, used, free) && free != []
    ensures free[0] in all && free[0] !in used && Divided(all, used + {free[0]}, free[1..])
  {
    forall n | n in all && n !in used && n != free[0] ensures IsFree(free[1..], n) {
      assert IsFree(free, n);
      var j :| 0 <= j < |free| && free[j] == n;
      assert free[1..][j - 1] == n;
    }
  }

  lemma {:induction false} DividedMore(all: set<Node>, used: set<Node>, free: seq<Node>, n: Node)
    requires Divided(all, used, free) && n in used
    ensures Divided(all, used - {n}, [n] + free)
  {
    var s := [n] + free;
    assert forall j :: 0 <= j < |free| ==> s[j + 1] == free[j];
    forall m | m in all && m !in used - {n} ensures IsFree(s, m) {
      if m != n {
        assert IsFree(free, m);
        var j :| 0 <= j < |free| && free[j] == m;
        assert s[j + 1] == m;
      }
    }
  }

  /** The free list has all nodes that are not used, and is not empty. */
  ghost predicate Spare(head: Node?, free: seq<Node>, all: set<Node>, used: set<Node>)
    reads free`fnext
  {
    free != [] && IsFreeList(head, free) && Divided(all, used, free)
  }

  /** The free list without its first node. */
  lemma {:induction false} SpareTail(head: Node?, free: seq<Node>, all: set<Node>, used: set<Node>)
    requires Spare(head, free, all, used)
    ensures head == free[0] && head in all && head !in used
    ensures IsFreeList(free[0].fnext, free[1..]) && Divided(all, used + {free[0]}, free[1..])
    ensures free[0].fnext == null <==> |free| == 1
  {
    TailIsFree(head, free);
    DividedTail(all, used, free);
  }

  /** When all nodes are used, a new block becomes the free list. */
  method AddBlock(n: nat, ghost all: set<Node>, ghost used: set<Node>) returns (head: Node, ghost free: seq<Node>,
                  ghost all': set<Node>)
    requires n > 0 && Divided(all, used, [])
    ensures Spare(head, free, all', used) && |free| == n && all <= all' && fresh(all' - all)
  {
    head, free := NewBlock(n);
    all' := all + set m | m in free;
    assert forall m :: m in free ==> IsFree(free, m);
    assert forall m :: m in all && m !in used ==> IsFree([], m);
  }

  /** A node becomes the first free one. */
  method PushFree(tmp: Node, head: Node?, ghost free: seq<Node>, ghost all: set<Node>, ghost used: set<Node>)
    requires Spare(head, free, all, used) && tmp in used
    modifies tmp`fnext
    ensures Spare(tmp, [tmp] + free, all, used - {tmp})
  {
    DividedMore(all, used, free, tmp);
    tmp.fnext := head;
    forall j | 0 <= j < |free| ensures ([tmp] + free)[j].fnext == ([tmp] + free)[j + 1] {
      if j > 0 {
        assert free[j - 1].fnext == free[j];
      }
    }
  }

  /** All nodes are counted, and the count of the last block fits in an `int`. */
  ghost predicate Counted(nb: nat, free: nat, maxNodes: nat, nbAdd: nat) {
    nb + free == 2 * maxNodes - INITIAL && maxNodes == Capacity(nbAdd) <= INT_MAX && nbAdd <= MAX_ADD
  }
}
