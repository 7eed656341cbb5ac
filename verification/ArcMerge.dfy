/** The arc table before the call graph is built (src/fcdump/fc_graph.c:504-531): entries with the same
    (from, to) pair are merged in place into the last of them, and the table is then compacted.  The
    compaction moves the addresses of an entry but not its number. */
module ArcMerge {
  import opened Maps

  const NULL := 0

  datatype Arc = Arc(from: int, to: int, number: int)

  predicate SamePair(a: Arc, b: Arc) {
    a.from == b.from && a.to == b.to
  }

  /** The calls that the first k entries count for the pair of a. */
  function Calls(s: seq<Arc>, k: nat, a: Arc): int
    requires k <= |s|
  {
    if k == 0 then 0 else Calls(s, k - 1, a) + if SamePair(s[k - 1], a) then s[k - 1].number else 0
  }

  /** No entry from j to k, without k, has the pair of a. */
  predicate Absent(s: seq<Arc>, j: nat, k: nat, a: Arc)
    requires k <= |s|
  {
    forall m :: j <= m < k ==> !SamePair(s[m], a)
  }

  /** The last entry of its pair. */
  predicate Last(s: seq<Arc>, i: nat)
    requires i < |s|
  {
    Absent(s, i + 1, |s|, s[i])
  }

  /** An entry that outlives the compaction. */
  predicate Survives(s: seq<Arc>, i: nat)
    requires i < |s|
  {
    Last(s, i) && s[i].from != NULL
  }

  /** The survivors among the first k entries, in order. */
  function Survivors(s: seq<Arc>, k: nat): (r: seq<nat>)
    requires k <= |s|
    ensures |r| <= k && forall d :: 0 <= d < |r| ==> r[d] < k
  {
    if k == 0 then [] else Survivors(s, k - 1) + if Survives(s, k - 1) then [k - 1] else []
  }

  lemma {:induction false} CallsBetween(s: seq<Arc>, j: nat, k: nat, a: Arc)
    requires j <= k <= |s| && Absent(s, j, k, a)
    ensures Calls(s, k, a) == Calls(s, j, a)
  {
    if j < k {
      CallsBetween(s, j, k - 1, a);
    }
  }

  lemma {:induction false} CallsOfPair(s: seq<Arc>, k: nat, a: Arc, b: Arc)
    requires k <= |s| && SamePair(a, b)
    ensures Calls(s, k, a) == Calls(s, k, b)
  {
    if k > 0 {
      CallsOfPair(s, k - 1, a, b);
    }
  }

  // ---------------------------------------------------------------- the two passes

  /** Entry k when the first i entries have been treated: a treated entry has lost its pair unless it
      is the last one of it; the counts of treated entries wait in the next entry of their pair. */
  function Treated(s: seq<Arc>, i: nat, k: nat): Arc
    requires k < |s| && i <= |s|
  {
    if k < i then
      var n := Calls(s, k + 1, s[k]);
      if Last(s, k) then Arc(s[k].from, s[k].to, n) else Arc(NULL, NULL, n)
    else Arc(s[k].from, s[k].to, s[k].number + if Absent(s, i, k, s[k]) then Calls(s, i, s[k]) else 0)
  }

  lemma {:induction false} TreatOther(s: seq<Arc>, i: nat, k: nat)
    requires i < |s| && k < |s| && i != k && (SamePair(s[i], s[k]) && i < k ==> !Absent(s, i + 1, k, s[k]))
    ensures Treated(s, i + 1, k) == Treated(s, i, k)
  {
    if i < k {
      assert Absent(s, i, k, s[k]) <==> Absent(s, i + 1, k, s[k]) && !SamePair(s[i], s[k]);
    }
  }

  lemma {:induction false} TreatNext(s: seq<Arc>, i: nat, j: nat)
    requires i < j < |s| && SamePair(s[i], s[j]) && Absent(s, i + 1, j, s[i])
    ensures Treated(s, i + 1, j) == Arc(s[j].from, s[j].to, s[j].number + Treated(s, i, i).number)
    ensures Treated(s, i + 1, i) == Arc(NULL, NULL, Treated(s, i, i).number)
  {
    CallsOfPair(s, i, s[i], s[j]);
  }

  lemma {:induction false} TreatLast(s: seq<Arc>, i: nat)
    requires i < |s| && Last(s, i)
    ensures Treated(s, i + 1, i) == Treated(s, i, i)
  {
  }

  /** The table t, when the first i entries of s have been treated. */
  predicate HasTreated(t: seq<Arc>, s: seq<Arc>, i: nat) {
    i <= |s| == |t| && forall k :: 0 <= k < |s| ==> t[k] == Treated(s, i, k)
  }

  lemma {:induction false} PairsKept(t: seq<Arc>, s: seq<Arc>, i: nat)
    requires HasTreated(t, s, i)
    ensures forall k :: i <= k < |s| ==> SamePair(t[k], s[k])
  {
    forall k | i <= k < |s| ensures SamePair(t[k], s[k]) {
      assert t[k] == Treated(s, i, k);
    }
  }

  /** Entry i merged into entry j. */
  function Merged(t: seq<Arc>, i: nat, j: nat): seq<Arc>
    requires i < |t| && j < |t|
  {
    t[i := Arc(NULL, NULL, t[i].number)][j := t[j].(number := t[j].number + t[i].number)]
  }

  lemma {:induction false} MergeStep(t: seq<Arc>, s: seq<Arc>, i: nat, j: nat)
    requires i < j <= |s| && HasTreated(t, s, i) && Absent(t, i + 1, j, t[i]) && (j < |s| ==> SamePair(t[i], t[j]))
    ensures HasTreated(if j < |s| then Merged(t, i, j) else t, s, i + 1)
  {
    PairsKept(t, s, i);
    assert Absent(s, i + 1, j, s[i]) by {
      forall k | i + 1 <= k < j ensures !SamePair(s[k], s[i]) {
        assert !SamePair(t[k], t[i]);
      }
    }
    var t' := if j < |s| then Merged(t, i, j) else t;
    if j < |s| {
      TreatNext(s, i, j);
    } else {
      TreatLast(s, i);
    }
    forall k | 0 <= k < |s| && k != i && k != j ensures t'[k] == Treated(s, i + 1, k) {
      assert t'[k] == t[k];
      if i < k < j {
        assert !SamePair(s[k], s[i]);
      }
      TreatOther(s, i, k);
    }
  }

  /** The first entry, from entry j on, with the pair of entry i. */
  function NextOf(t: seq<Arc>, i: nat, j: nat): (m: nat)
    requires i < |t| && j <= |t|
    ensures j <= m <= |t| && Absent(t, j, m, t[i]) && (m < |t| ==> SamePair(t[i], t[m]))
    decreases |t| - j
  {
    if j == |t| || SamePair(t[i], t[j]) then j else NextOf(t, i, j + 1)
  }

  /** The table after i rounds of the first pass. */
  function MergeFirst(s: seq<Arc>, i: nat): (t: seq<Arc>)
    requires i <= |s|
    ensures |t| == |s|
  {
    if i == 0 then s else
    var t := MergeFirst(s, i - 1);
    var j := NextOf(t, i - 1, i);
    if j < |t| then Merged(t, i - 1, j) else t
  }

  lemma {:induction false} MergeTreats(s: seq<Arc>, i: nat)
    requires i <= |s|
    ensures HasTreated(MergeFirst(s, i), s, i)
  {
    if i > 0 {
      MergeTreats(s, i - 1);
      MergeStep(MergeFirst(s, i - 1), s, i - 1, NextOf(MergeFirst(s, i - 1), i - 1, i));
    }
  }

  /** The first pass: two nested loops. */
  method MergeDuplicates(a: array<Arc>)
    modifies a
    ensures a[..] == MergeFirst(old(a[..]), a.Length)
  {
    ghost var s := a[..];
    var i := 0;
    while i < a.Length - 1
      invariant 0 <= i <= a.Length && (i < a.Length || i == 0) && a[..] == MergeFirst(s, i)
    {
      var j := i + 1;
      while j < a.Length
        invariant i < j <= a.Length && a[..] == MergeFirst(s, i) && NextOf(a[..], i, i + 1) == NextOf(a[..], i, j)
      {
        if a[i].from == a[j].from && a[i].to == a[j].to {
          break;
        }
        j := j + 1;
      }
      if j < a.Length {
        MergeInto(a, i, j);
      }
      i := i + 1;
    }
  }

  method MergeInto(a: array<Arc>, i: nat, j: nat)
    requires i < j < a.Length
    modifies a
    ensures a[..] == Merged(old(a[..]), i, j)
  {
    a[i] := a[i].(from := NULL, to := NULL);
    a[j] := a[j].(number := a[j].number + a[i].number);
  }

  /** The table u, when the first i entries of the treated table have been compacted into dec ones. */
  predicate Compacted(u: seq<Arc>, s: seq<Arc>, i: nat, dec: nat) {
    && dec <= i <= |s| == |u| && dec == |Survivors(s, i)|
    && (forall d {:trigger u[d]} :: 0 <= d < dec ==> SamePair(u[d], s[Survivors(s, i)[d]]))
    && (forall k {:trigger u[k]} :: 0 <= k < |s| ==> u[k].number == Calls(s, k + 1, s[k]))
    && forall k {:trigger u[k]} :: i <= k < |s| ==> u[k] == Treated(s, |s|, k)
  }

  /** The addresses of entry i moved to entry dec. */
  function Moved(u: seq<Arc>, i: nat, dec: nat): seq<Arc>
    requires i < |u| && dec < |u|
  {
    u[dec := Arc(u[i].from, u[i].to, u[dec].number)]
  }

  lemma {:induction false} CompactStep(u: seq<Arc>, s: seq<Arc>, i: nat, dec: nat)
    requires Compacted(u, s, i, dec) && i < |s|
    ensures Compacted(Moved(u, i, dec), s, i + 1, if u[i].from == NULL then dec else dec + 1)
  {
    assert u[i] == Treated(s, |s|, i);
  }

  /** The table after i rounds of the second pass, and how many entries it has kept. */
  function CompactFirst(t: seq<Arc>, i: nat): (r: (seq<Arc>, nat))
    requires i <= |t|
    ensures |r.0| == |t| && r.1 <= i
  {
    if i == 0 then (t, 0) else
    var (u, dec) := CompactFirst(t, i - 1);
    (Moved(u, i - 1, dec), if u[i - 1].from == NULL then dec else dec + 1)
  }

  lemma {:induction false} CompactStart(s: seq<Arc>, t: seq<Arc>)
    requires HasTreated(t, s, |s|)
    ensures Compacted(t, s, 0, 0)
  {
    forall k | 0 <= k < |s| ensures t[k].number == Calls(s, k + 1, s[k]) {
      assert t[k] == Treated(s, |s|, k);
    }
  }

  predicate CompactedAt(s: seq<Arc>, t: seq<Arc>, i: nat)
    requires i <= |t|
  {
    var (u, dec) := CompactFirst(t, i);
    Compacted(u, s, i, dec)
  }

  lemma {:induction false} CompactRound(s: seq<Arc>, t: seq<Arc>, i: nat)
    requires |t| == |s| && 0 < i <= |s| && CompactedAt(s, t, i - 1)
    ensures CompactedAt(s, t, i)
  {
    var (u, dec) := CompactFirst(t, i - 1);
    CompactStep(u, s, i - 1, dec);
    assert CompactFirst(t, i) == (Moved(u, i - 1, dec), if u[i - 1].from == NULL then dec else dec + 1);
  }

  lemma {:induction false} CompactKeeps(s: seq<Arc>, t: seq<Arc>, i: nat)
    requires HasTreated(t, s, |s|) && i <= |s|
    ensures CompactedAt(s, t, i)
  {
    if i == 0 {
      CompactStart(s, t);
    } else {
      CompactKeeps(s, t, i - 1);
      CompactRound(s, t, i);
    }
  }

  /** The second pass: the addresses of the survivors move to the front, in order; the numbers stay
      where they are. */
  method Compact(a: array<Arc>) returns (dec: nat)
    modifies a
    ensures (a[..], dec) == CompactFirst(old(a[..]), a.Length)
  {
    ghost var t := a[..];
    dec := 0;
    var i := 0;
    while i < a.Length
      invariant 0 <= dec <= i <= a.Length && (a[..], dec) == CompactFirst(t, i)
    {
      Move(a, i, dec);
      if a[dec].from != NULL {
        dec := dec + 1;
      }
      i := i + 1;
    }
  }

  method Move(a: array<Arc>, i: nat, dec: nat)
    requires i < a.Length && dec < a.Length
    modifies a
    ensures a[..] == Moved(old(a[..]), i, dec)
  {
    a[dec] := a[dec].(from := a[i].from);
    a[dec] := a[dec].(to := a[i].to);
  }

  /** The duplicate removal of fc_graph_create.  The table keeps one entry for each pair that has a
      caller, at the place of its last entry; the number of entry k counts the pair that was there. */
  method RemoveDuplicates(a: array<Arc>) returns (dec: nat)
    modifies a
    ensures dec <= a.Length && Compacted(a[..], old(a[..]), a.Length, dec)
  {
    ghost var s := a[..];
    MergeDuplicates(a);
    MergeTreats(s, a.Length);
    CompactKeeps(s, a[..], a.Length);
    dec := Compact(a);
  }

  // ---------------------------------------------------------------- what the two passes achieve

  lemma {:induction false} SurvivorsSurvive(s: seq<Arc>, k: nat, d: nat)
    requires k <= |s| && d < |Survivors(s, k)|
    ensures d <= Survivors(s, k)[d] < k && Survives(s, Survivors(s, k)[d])
  {
    if d < |Survivors(s, k - 1)| {
      SurvivorsSurvive(s, k - 1, d);
    }
  }

  lemma {:induction false} SurvivorsInOrder(s: seq<Arc>, k: nat, d: nat, e: nat)
    requires k <= |s| && d < e < |Survivors(s, k)|
    ensures Survivors(s, k)[d] < Survivors(s, k)[e]
  {
    if e < |Survivors(s, k - 1)| {
      SurvivorsInOrder(s, k - 1, d, e);
    }
  }

  lemma {:induction false} SurvivorIsIn(s: seq<Arc>, k: nat, i: nat)
    requires i < k <= |s| && Survives(s, i)
    ensures i in Survivors(s, k)
  {
    if i < k - 1 {
      SurvivorIsIn(s, k - 1, i);
    }
  }

  lemma {:induction false} SurvivorsAre(s: seq<Arc>, k: nat)
    requires k <= |s|
    ensures forall d :: 0 <= d < |Survivors(s, k)| ==> d <= Survivors(s, k)[d] < k && Survives(s, Survivors(s, k)[d])
    ensures forall d, e :: 0 <= d < e < |Survivors(s, k)| ==> Survivors(s, k)[d] < Survivors(s, k)[e]
    ensures forall i :: 0 <= i < k && Survives(s, i) ==> i in Survivors(s, k)
  {
    var r := Survivors(s, k);
    forall d | 0 <= d < |r| ensures d <= r[d] < k && Survives(s, r[d]) {
      SurvivorsSurvive(s, k, d);
    }
    forall d, e | 0 <= d < e < |r| ensures r[d] < r[e] {
      SurvivorsInOrder(s, k, d, e);
    }
    forall i | 0 <= i < k && Survives(s, i) ensures i in r {
      SurvivorIsIn(s, k, i);
    }
  }

  lemma {:induction false} PlacesInOrder(r: seq<nat>, d: nat, e: nat)
    requires d < |r| && e < |r| && forall k, m :: 0 <= k < m < |r| ==> r[k] < r[m]
    ensures r[d] <= r[e] ==> d <= e
  {
  }

  /** The last entry of a pair, from entry i on. */
  lemma {:induction false} LastOfPair(s: seq<Arc>, i: nat) returns (j: nat)
    requires i < |s|
    ensures i <= j < |s| && SamePair(s[i], s[j]) && Last(s, j)
    decreases |s| - i
  {
    if Last(s, i) {
      j := i;
    } else {
      var m :| i + 1 <= m < |s| && SamePair(s[m], s[i]);
      j := LastOfPair(s, m);
    }
  }

  lemma {:induction false} LastIsOne(s: seq<Arc>, j: nat, k: nat)
    requires j < |s| && k < |s| && Last(s, j) && Last(s, k) && SamePair(s[j], s[k])
    ensures j == k
  {
  }

  /** Each pair that has a caller survives exactly once, and carries the sum of all its counts at the
      end of the first pass. */
  lemma {:induction false} OneSurvivor(s: seq<Arc>, i: nat)
    requires i < |s| && s[i].from != NULL
    ensures exists d :: 0 <= d < |Survivors(s, |s|)| && SamePair(s[Survivors(s, |s|)[d]], s[i])
    ensures var r := Survivors(s, |s|);
      forall d, e :: 0 <= d < |r| && 0 <= e < |r| && SamePair(s[r[d]], s[i]) && SamePair(s[r[e]], s[i]) ==> d == e
    ensures var r := Survivors(s, |s|);
      forall d :: 0 <= d < |r| && SamePair(s[r[d]], s[i]) ==> Treated(s, |s|, r[d]).number == Calls(s, |s|, s[i])
  {
    var r := Survivors(s, |s|);
    SurvivorsAre(s, |s|);
    var j := LastOfPair(s, i);
    assert Survives(s, j) && j in r;
    var d :| 0 <= d < |r| && r[d] == j;
    forall e | 0 <= e < |r| && SamePair(s[r[e]], s[i])
      ensures e == d && Treated(s, |s|, r[e]).number == Calls(s, |s|, s[i])
    {
      assert Survives(s, r[e]);
      LastIsOne(s, j, r[e]);
      PlacesInOrder(r, d, e);
      PlacesInOrder(r, e, d);
      CallsBetween(s, j + 1, |s|, s[j]);
      CallsOfPair(s, |s|, s[j], s[i]);
    }
  }

  /** The counts of all entries, by pair. */
  function Totals(s: seq<Arc>, k: nat): map<(int, int), int>
    requires k <= |s|
  {
    if k == 0 then map[] else
    var m, p := Totals(s, k - 1), (s[k - 1].from, s[k - 1].to);
    m[p := s[k - 1].number + if p in m then m[p] else 0]
  }

  function Numbers(s: seq<Arc>, k: nat): int
    requires k <= |s|
  {
    if k == 0 then 0 else Numbers(s, k - 1) + s[k - 1].number
  }

  /** No call is lost or counted twice: the sums of the pairs add up to the sum of the table. */
  lemma {:induction false} TotalsConserve(s: seq<Arc>, k: nat)
    requires k <= |s|
    ensures Total(Totals(s, k)) == Numbers(s, k)
    ensures forall i :: 0 <= i < k ==> (s[i].from, s[i].to) in Totals(s, k)
    ensures forall p :: p in Totals(s, k) ==> Totals(s, k)[p] == Calls(s, k, Arc(p.0, p.1, 0))
    ensures forall p :: p !in Totals(s, k) ==> Calls(s, k, Arc(p.0, p.1, 0)) == 0
  {
    if k > 0 {
      TotalsConserve(s, k - 1);
      var m, p := Totals(s, k - 1), (s[k - 1].from, s[k - 1].to);
      if p in m {
        TotalUpdate(m, p, s[k - 1].number + m[p]);
      } else {
        TotalInsert(m, p, s[k - 1].number);
      }
    }
  }

  // ---------------------------------------------------------------- the counts after the compaction

  /** Entry d of the compacted table has the count of its pair. */
  predicate CountFollows(s: seq<Arc>, d: nat)
    requires d < |Survivors(s, |s|)|
  {
    Calls(s, d + 1, s[d]) == Calls(s, |s|, s[Survivors(s, |s|)[d]])
  }

  predicate CountsFollow(s: seq<Arc>) {
    forall d :: 0 <= d < |Survivors(s, |s|)| ==> CountFollows(s, d)
  }

  /** Nothing that the table drops comes before something that it keeps. */
  predicate Aligned(s: seq<Arc>) {
    forall i, j :: 0 <= i < j < |s| && Survives(s, j) ==> Survives(s, i)
  }

  /** Tables with the same pairs, and positive counts. */
  predicate Renumbered(t: seq<Arc>, s: seq<Arc>) {
    |t| == |s| && (forall i :: 0 <= i < |s| ==> SamePair(t[i], s[i])) && forall i :: 0 <= i < |t| ==> t[i].number > 0
  }

  lemma {:induction false} RenumberedSurvivors(t: seq<Arc>, s: seq<Arc>, k: nat)
    requires Renumbered(t, s) && k <= |s|
    ensures Survivors(t, k) == Survivors(s, k)
  {
    if k > 0 {
      RenumberedSurvivors(t, s, k - 1);
      assert Last(t, k - 1) <==> Last(s, k - 1) by {
        forall m | k <= m < |s| ensures SamePair(t[m], t[k - 1]) <==> SamePair(s[m], s[k - 1]) {}
      }
    }
  }

  lemma {:induction false} AlignedSurvivors(s: seq<Arc>, d: nat)
    requires Aligned(s) && d < |Survivors(s, |s|)|
    ensures Survivors(s, |s|)[d] == d
    decreases d
  {
    var r := Survivors(s, |s|);
    SurvivorsAre(s, |s|);
    if d < r[d] {
      assert Survives(s, r[d]) && Survives(s, d);
      var e :| 0 <= e < |r| && r[e] == d;
      PlacesInOrder(r, e, d);
      AlignedSurvivors(s, e);
    }
  }

  lemma {:induction false} CallsAtMost(s: seq<Arc>, k: nat, a: Arc)
    requires k <= |s| && forall i :: 0 <= i < k ==> s[i].number == 1
    ensures 0 <= Calls(s, k, a) <= k
  {
    if k > 0 {
      CallsAtMost(s, k - 1, a);
    }
  }

  lemma {:induction false} CallsAtLeast(s: seq<Arc>, k: nat, i: nat)
    requires i < k <= |s| && forall i :: 0 <= i < k ==> s[i].number > 0
    ensures Calls(s, k, s[i]) >= s[i].number
  {
    if i < k - 1 {
      CallsAtLeast(s, k - 1, i);
    } else {
      CallsNonNegative(s, i, s[i]);
    }
  }

  lemma {:induction false} CallsNonNegative(s: seq<Arc>, k: nat, a: Arc)
    requires k <= |s| && forall i :: 0 <= i < k ==> s[i].number > 0
    ensures Calls(s, k, a) >= 0
  {
    if k > 0 {
      CallsNonNegative(s, k - 1, a);
    }
  }

  /** The counts follow their pairs through the compaction, whatever they are, exactly when the table
      drops nothing before something that it keeps. */
  lemma {:induction false} CountsFollowExactly(s: seq<Arc>)
    ensures (forall t: seq<Arc> :: Renumbered(t, s) ==> CountsFollow(t)) <==> Aligned(s)
  {
    if Aligned(s) {
      forall t: seq<Arc> | Renumbered(t, s) ensures CountsFollow(t) {
        AlignedCounts(s, t);
      }
    } else {
      var t := Misaligned(s);
    }
  }

  lemma {:induction false} AlignedCounts(s: seq<Arc>, t: seq<Arc>)
    requires Aligned(s) && Renumbered(t, s)
    ensures CountsFollow(t)
  {
    RenumberedSurvivors(t, s, |s|);
    forall d | 0 <= d < |Survivors(t, |t|)|
      ensures CountFollows(t, d)
    {
      AlignedCount(s, t, d);
    }
  }

  lemma {:induction false} AlignedCount(s: seq<Arc>, t: seq<Arc>, d: nat)
    requires Aligned(s) && |t| == |s| && Survivors(t, |t|) == Survivors(s, |s|) && d < |Survivors(t, |t|)|
    ensures CountFollows(t, d)
  {
    AlignedSurvivors(s, d);
    SurvivorsAre(t, |t|);
    assert Survives(t, Survivors(t, |t|)[d]);
    CallsBetween(t, d + 1, |t|, t[d]);
  }

  /** One call for each entry, except for one that has more than all others. */
  function Renumber(s: seq<Arc>, m: nat): (t: seq<Arc>)
    ensures Renumbered(t, s)
    ensures forall k :: 0 <= k < |s| ==> t[k].number == if k == m then |s| + 1 else 1
  {
    seq(|s|, k requires 0 <= k < |s| => Arc(s[k].from, s[k].to, if k == m then |s| + 1 else 1))
  }

  /** A table in which a dropped entry precedes a kept one has a numbering with a wrong count. */
  lemma {:induction false} Misaligned(s: seq<Arc>) returns (t: seq<Arc>)
    requires !Aligned(s)
    ensures Renumbered(t, s) && !CountsFollow(t)
  {
    var i, j :| 0 <= i < j < |s| && Survives(s, j) && !Survives(s, i);
    var d := FirstMoved(s, i, j);
    t := Renumber(s, Survivors(s, |s|)[d]);
    RenumberedSurvivors(t, s, |s|);
    MisplacedCount(t, d, Survivors(s, |s|)[d]);
  }

  lemma {:induction false} MisplacedCount(t: seq<Arc>, d: nat, e: nat)
    requires d < |Survivors(t, |t|)| && d < e < |t| && Survivors(t, |t|)[d] == e
    requires forall k :: 0 <= k < |t| ==> t[k].number == if k == e then |t| + 1 else 1
    ensures !CountFollows(t, d)
  {
    CallsAtMost(t, d + 1, t[d]);
    CallsAtLeast(t, |t|, e);
  }

  lemma {:induction false} FirstMoved(s: seq<Arc>, i: nat, j: nat) returns (d: nat)
    requires i < j < |s| && Survives(s, j) && !Survives(s, i)
    ensures d < |Survivors(s, |s|)| && d < Survivors(s, |s|)[d]
  {
    var r := Survivors(s, |s|);
    SurvivorsAre(s, |s|);
    d :| 0 <= d < |r| && r[d] == j;
    if r[d] == d {
      AllInPlace(r, d, i);
    }
  }

  /** A strictly increasing sequence that has reached d at place d holds every number up to d. */
  lemma {:induction false} AllInPlace(r: seq<nat>, d: nat, i: nat)
    requires d < |r| && r[d] == d && i <= d && forall k, m :: 0 <= k < m < |r| ==> r[k] < r[m]
    ensures r[i] == i
  {
    if i < d {
      AllInPlaceBelow(r, i);
      AllInPlaceAbove(r, i, d);
    }
  }

  lemma {:induction false} AllInPlaceBelow(r: seq<nat>, i: nat)
    requires i < |r| && forall k, m :: 0 <= k < m < |r| ==> r[k] < r[m]
    ensures i <= r[i]
  {
    if i > 0 {
      AllInPlaceBelow(r, i - 1);
      assert r[i - 1] < r[i];
    }
  }

  lemma {:induction false} AllInPlaceAbove(r: seq<nat>, i: nat, d: nat)
    requires i <= d < |r| && forall k, m :: 0 <= k < m < |r| ==> r[k] < r[m]
    ensures r[i] + d - i <= r[d]
  {
    if i < d {
      AllInPlaceAbove(r, i, d - 1);
      assert r[d - 1] < r[d];
    }
  }

  /** Five and seven calls of one arc, nine of another: the first entry keeps 5, the second shows the
      12 of the first, and the 9 are lost. */
  lemma {:induction false} CountsMisplaced()
    ensures var s := [Arc(1, 2, 5), Arc(1, 2, 7), Arc(3, 4, 9)];
      && Survivors(s, 3) == [1, 2] && !CountsFollow(s)
      && Calls(s, 1, s[0]) == 5 && Calls(s, 2, s[1]) == 12 && Calls(s, 3, s[1]) == 12 && Calls(s, 3, s[2]) == 9
  {
    var s := [Arc(1, 2, 5), Arc(1, 2, 7), Arc(3, 4, 9)];
    assert SamePair(s[1], s[0]) && !Last(s, 0);
    assert Survivors(s, 1) == [] && Survivors(s, 2) == [1];
    assert Calls(s, 1, s[0]) == 5 && Calls(s, 1, s[1]) == 5 && Calls(s, 2, s[1]) == 12;
    assert Calls(s, 1, s[2]) == 0 && Calls(s, 2, s[2]) == 0;
    assert !CountFollows(s, 0);
  }
}
