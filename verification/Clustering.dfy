/** buildCompleteLinkCluster of src/consolidation.ts: a greedy complete-link group around an
    anchor, and what makes it the right group. */
module Clustering {
  import opened Prelude
  import opened Ordering

  /** The keyset cursor (created_at, id). */
  datatype Key = Key(createdAt: Instant, id: Id)

  predicate KeyLess(a: Key, b: Key) {
    a.createdAt < b.createdAt || (a.createdAt == b.createdAt && a.id < b.id)
  }

  ghost function AscendingKeys(s: set<Key>): (q: seq<Key>)
    ensures Lists(KeyLess, s, q)
  {
    AscendingLists(KeyLess, s);
    Ascending(KeyLess, s)
  }

  lemma AscendingKeysUnique(s: set<Key>, q: seq<Key>)
    requires SortedBy(KeyLess, q) && forall x :: x in q <==> x in s
    ensures AscendingKeys(s) == q
  {
    AscendingUnique(KeyLess, AscendingKeys(s), q);
  }

  /** The first n of a set: nothing left out comes before any of them. */
  lemma FirstKeys(s: set<Key>, n: nat)
    ensures var q := Limit(AscendingKeys(s), n);
      && |q| <= n && SortedBy(KeyLess, q) && (forall k :: k in q ==> k in s)
      && forall k :: k in s && k !in q ==> |q| == n && forall x :: x in q ==> KeyLess(x, k)
  {
    LimitIsFirst(KeyLess, s, AscendingKeys(s), n);
  }

  method ListKeys(s: set<Key>) returns (q: seq<Key>)
    ensures q == AscendingKeys(s)
  {
    q := ListAscending(KeyLess, s);
  }

  /** `createdText` is the rank of created_at's text in the collation of localeCompare.  It need not
      follow the instants: texts with and without a fraction of a second compare by what follows it. */
  datatype Candidate = Candidate(key: Key, createdText: int, revision: nat, similarityToAnchor: real)

  /** compareCandidate: by the text of created_at, then by id. */
  predicate Earlier(a: Candidate, b: Candidate) {
    a.createdText < b.createdText || (a.createdText == b.createdText && a.key.id < b.key.id)
  }

  /** The pair map is keyed without order; a missing pair counts as minus infinity. */
  datatype Links = Links(pairs: map<(Id, Id), real>, threshold: real)

  function PairKey(a: Id, b: Id): (Id, Id) {
    if a < b then (a, b) else (b, a)
  }

  predicate Similar(w: Links, a: Candidate, b: Candidate) {
    var k := PairKey(a.key.id, b.key.id);
    k in w.pairs && w.pairs[k] >= w.threshold
  }

  // ---------------------------------------------------------------- candidate order

  function Insert(c: Candidate, q: seq<Candidate>): seq<Candidate> {
    if q == [] || Earlier(c, q[0]) then [c] + q else [q[0]] + Insert(c, q[1..])
  }

  /** A stable sort by compareCandidate, like Array.prototype.sort. */
  function SortCandidates(q: seq<Candidate>): seq<Candidate> {
    if q == [] then [] else Insert(q[|q| - 1], SortCandidates(q[..|q| - 1]))
  }

  function WithoutAnchor(anchor: Candidate, q: seq<Candidate>): (r: seq<Candidate>)
    ensures forall c :: c in r <==> c in q && c.key.id != anchor.key.id
  {
    if q == [] then [] else
      var rest := WithoutAnchor(anchor, q[..|q| - 1]);
      if q[|q| - 1].key.id == anchor.key.id then rest else rest + [q[|q| - 1]]
  }

  function Ordered(anchor: Candidate, q: seq<Candidate>): seq<Candidate> {
    SortCandidates(WithoutAnchor(anchor, q))
  }

  // ---------------------------------------------------------------- the greedy group

  predicate Joins(w: Links, members: seq<Candidate>, c: Candidate) {
    c.similarityToAnchor >= w.threshold && forall m :: m in members ==> Similar(w, m, c)
  }

  /** The non-anchor members admitted from the first `n` candidates, with no size limit. */
  function Admitted(w: Links, q: seq<Candidate>, n: nat): (r: seq<Candidate>)
    requires n <= |q|
    ensures |r| <= n
    ensures forall c :: c in r ==> c in q[..n]
  {
    if n == 0 then [] else
      var before := Admitted(w, q, n - 1);
      if Joins(w, before, q[n - 1]) then before + [q[n - 1]] else before
  }

  /** Position `k` is admitted. */
  predicate Chosen(w: Links, q: seq<Candidate>, k: nat)
    requires k < |q|
  {
    Joins(w, Admitted(w, q, k), q[k])
  }

  /** A set of positions whose candidates link to the anchor and to each other. */
  ghost predicate IsClique(w: Links, q: seq<Candidate>, s: set<nat>) {
    && (forall i :: i in s ==> i < |q| && q[i].similarityToAnchor >= w.threshold)
    && (forall i, j :: i in s && j in s && i < j ==> Similar(w, q[i], q[j]))
  }

  ghost function ChosenSet(w: Links, q: seq<Candidate>): set<nat> {
    set k: nat | k < |q| && Chosen(w, q, k)
  }

  lemma {:induction false} AdmittedAreChosen(w: Links, q: seq<Candidate>, n: nat, c: Candidate)
    requires n <= |q|
    ensures c in Admitted(w, q, n) <==> exists k: nat :: k < n && Chosen(w, q, k) && q[k] == c
  {
    hide Joins;
    if n > 0 {
      AdmittedAreChosen(w, q, n - 1, c);
      var before := Admitted(w, q, n - 1);
      if Chosen(w, q, n - 1) {
        assert Admitted(w, q, n) == before + [q[n - 1]];
      } else {
        assert Admitted(w, q, n) == before;
      }
      if c in Admitted(w, q, n) && c !in before {
        assert Chosen(w, q, n - 1) && q[n - 1] == c;
      }
    }
  }

  /** The greedy group is a clique at the threshold. */
  lemma ChosenIsClique(w: Links, q: seq<Candidate>)
    ensures IsClique(w, q, ChosenSet(w, q))
  {
    var s := ChosenSet(w, q);
    forall i, j | i in s && j in s && i < j ensures Similar(w, q[i], q[j]) {
      AdmittedAreChosen(w, q, j, q[i]);
      assert q[i] in Admitted(w, q, j);
    }
  }

  /** It is the lexicographically first clique: at the first position where any other clique
      differs from it, the greedy group is the one that has the candidate. */
  lemma FirstDifference(w: Links, q: seq<Candidate>, s: set<nat>, k: nat)
    requires IsClique(w, q, s) && k < |q|
    requires forall i: nat :: i < k ==> (i in s <==> Chosen(w, q, i))
    requires k in s
    ensures Chosen(w, q, k)
  {
    forall m | m in Admitted(w, q, k) ensures Similar(w, m, q[k]) {
      AdmittedAreChosen(w, q, k, m);
      var i: nat :| i < k && Chosen(w, q, i) && q[i] == m;
      assert i in s;
    }
  }

  lemma {:induction false} LexicographicallyFirst(w: Links, q: seq<Candidate>, s: set<nat>, n: nat)
    requires IsClique(w, q, s) && n <= |q|
    ensures (forall i: nat :: i < n ==> (i in s <==> Chosen(w, q, i)))
         || exists k: nat :: k < n && Chosen(w, q, k) && k !in s
              && forall i: nat :: i < k ==> (i in s <==> Chosen(w, q, i))
  {
    hide Chosen, IsClique;
    if n > 0 {
      LexicographicallyFirst(w, q, s, n - 1);
      if forall i: nat :: i < n - 1 ==> (i in s <==> Chosen(w, q, i)) {
        if n - 1 in s {
          FirstDifference(w, q, s, n - 1);
        } else if Chosen(w, q, n - 1) {
          var k: nat := n - 1;
          assert k < n && Chosen(w, q, k) && k !in s;
        }
      }
    }
  }

  /** It is maximal: no rejected candidate can be added. */
  lemma ChosenIsMaximal(w: Links, q: seq<Candidate>, k: nat)
    requires k < |q| && !Chosen(w, q, k)
    ensures !IsClique(w, q, ChosenSet(w, q) + {k})
  {
    if IsClique(w, q, ChosenSet(w, q) + {k}) {
      FirstDifference(w, q, ChosenSet(w, q) + {k}, k);
    }
  }

  // ---------------------------------------------------------------- the loop

  /** Every candidate of the whole greedy group, anchor first. */
  function WholeGroup(anchor: Candidate, candidates: seq<Candidate>, w: Links): seq<Candidate> {
    var q := Ordered(anchor, candidates);
    [anchor] + Admitted(w, q, |q|)
  }

  datatype Cluster = Cluster(anchor: Candidate, members: seq<Candidate>, oversized: bool)

  function BuiltCluster(anchor: Candidate, candidates: seq<Candidate>, w: Links, maxSize: int): Cluster {
    var whole := WholeGroup(anchor, candidates, w);
    if 1 <= maxSize < |whole| then Cluster(anchor, whole[..maxSize + 1], true) else Cluster(anchor, whole, false)
  }

  lemma {:induction false} AdmittedPrefix(w: Links, q: seq<Candidate>, m: nat, n: nat)
    requires m <= n <= |q|
    ensures Admitted(w, q, m) <= Admitted(w, q, n)
  {
    if m < n {
      AdmittedPrefix(w, q, m, n - 1);
    }
  }

  method BuildCompleteLinkCluster(
      anchor: Candidate, candidates: seq<Candidate>, w: Links, maxSize: int) returns (cluster: Cluster)
    ensures cluster == BuiltCluster(anchor, candidates, w, maxSize)
    ensures cluster.oversized ==> |cluster.members| == maxSize + 1
    ensures maxSize >= 1 ==> (cluster.oversized <==> |cluster.members| > maxSize)
    ensures DistinctIds(candidates) ==> IsGreedy(anchor, candidates, w, cluster)
  {
    hide Ordered, Compatible, Joins;
    BuiltIsGreedy(anchor, candidates, w, maxSize);
    hide IsGreedy;
    var ordered := Ordered(anchor, candidates);
    OrderedHasNoAnchor(anchor, candidates);
    var members := [anchor];
    var i := 0;
    while i < |ordered|
      invariant 0 <= i <= |ordered|
      invariant members == [anchor] + Admitted(w, ordered, i)
      invariant |members| <= maxSize || maxSize < 1
    {
      var candidate := ordered[i];
      ghost var before := Admitted(w, ordered, i);
      i := i + 1;
      AnchorAlwaysLinks(w, anchor, before, candidate);
      if candidate.similarityToAnchor < w.threshold { continue; }
      if !Compatible(w, anchor, members, candidate) { continue; }
      members := members + [candidate];
      if |members| == maxSize + 1 {
        AdmittedPrefix(w, ordered, i, |ordered|);
        return Cluster(anchor, members, true);
      }
    }
    cluster := Cluster(anchor, members, false);
  }

  predicate Compatible(w: Links, anchor: Candidate, members: seq<Candidate>, c: Candidate) {
    forall m :: m in members ==> m.key.id == anchor.key.id || Similar(w, m, c)
  }

  /** The loop's test skips the anchor, whose similarity the candidate carries. */
  lemma AnchorAlwaysLinks(w: Links, anchor: Candidate, before: seq<Candidate>, c: Candidate)
    requires forall m :: m in before ==> m.key.id != anchor.key.id
    ensures Joins(w, before, c) <==> c.similarityToAnchor >= w.threshold && Compatible(w, anchor, [anchor] + before, c)
  {
  }

  lemma OrderedHasNoAnchor(anchor: Candidate, candidates: seq<Candidate>)
    ensures forall c :: c in Ordered(anchor, candidates) ==> c.key.id != anchor.key.id
  {
    SortIsPermutation(WithoutAnchor(anchor, candidates));
    forall c | c in Ordered(anchor, candidates) ensures c.key.id != anchor.key.id {
      assert c in multiset(Ordered(anchor, candidates));
    }
  }

  // ---------------------------------------------------------------- the built cluster

  /** Members of a built cluster pairwise meet the threshold; and when it is not oversized, every
      supplied candidate left out misses it against the anchor or against some member. */
  lemma ClusterIsCliqueAndMaximal(anchor: Candidate, candidates: seq<Candidate>, w: Links, maxSize: int)
    ensures var c := BuiltCluster(anchor, candidates, w, maxSize);
      && c.members[0] == anchor
      && (forall i :: 1 <= i < |c.members| ==> c.members[i].similarityToAnchor >= w.threshold)
      && (forall i, j :: 1 <= i < j < |c.members| ==> Similar(w, c.members[i], c.members[j]))
      && (!c.oversized ==> forall x :: x in candidates && x.key.id != anchor.key.id && x !in c.members ==>
            x.similarityToAnchor < w.threshold || exists m :: m in c.members[1..] && !Similar(w, m, x))
  {
    var q, whole := Ordered(anchor, candidates), WholeGroup(anchor, candidates, w);
    AdmittedIsLinked(w, q, |q|);
    forall i, j | 1 <= i < j < |whole| ensures Similar(w, whole[i], whole[j]) {
      assert whole[i] == Admitted(w, q, |q|)[i - 1] && whole[j] == Admitted(w, q, |q|)[j - 1];
    }
    forall x | x in candidates && x.key.id != anchor.key.id && x !in whole
      ensures x.similarityToAnchor < w.threshold || exists m :: m in whole[1..] && !Similar(w, m, x)
    {
      RejectedMisses(w, anchor, candidates, x);
      assert whole[1..] == Admitted(w, q, |q|);
    }
  }

  ghost predicate Linked(w: Links, r: seq<Candidate>) {
    && (forall i :: 0 <= i < |r| ==> r[i].similarityToAnchor >= w.threshold)
    && (forall i, j :: 0 <= i < j < |r| ==> Similar(w, r[i], r[j]))
  }

  lemma {:induction false} AdmittedIsLinked(w: Links, q: seq<Candidate>, n: nat)
    requires n <= |q|
    ensures Linked(w, Admitted(w, q, n))
  {
    if n > 0 {
      AdmittedIsLinked(w, q, n - 1);
      var before := Admitted(w, q, n - 1);
      assert forall i :: 0 <= i < |before| ==> before[i] in before;
    }
  }

  lemma RejectedMisses(w: Links, anchor: Candidate, candidates: seq<Candidate>, x: Candidate)
    requires x in candidates && x.key.id != anchor.key.id
    requires var q := Ordered(anchor, candidates); x !in Admitted(w, q, |q|)
    ensures var q := Ordered(anchor, candidates);
      x.similarityToAnchor < w.threshold || exists m :: m in Admitted(w, q, |q|) && !Similar(w, m, x)
  {
    var q := Ordered(anchor, candidates);
    SortIsPermutation(WithoutAnchor(anchor, candidates));
    assert x in multiset(q);
    var k: nat :| k < |q| && q[k] == x;
    AdmittedAreChosen(w, q, |q|, x);
    assert !Chosen(w, q, k);
    AdmittedPrefix(w, q, k, |q|);
  }

  // ---------------------------------------------------------------- the cluster, from the pairs

  /** The similarity of the pair is known and meets the threshold. */
  predicate Meets(w: Links, x: Candidate, y: Candidate) {
    if x.key.id < y.key.id then (x.key.id, y.key.id) in w.pairs && w.pairs[(x.key.id, y.key.id)] >= w.threshold
    else (y.key.id, x.key.id) in w.pairs && w.pairs[(y.key.id, x.key.id)] >= w.threshold
  }

  predicate Precedes(x: Candidate, y: Candidate) {
    if x.createdText != y.createdText then x.createdText < y.createdText else x.key.id < y.key.id
  }

  /** Taken in the order of created_at's text and id: a candidate is a member exactly when it is near
      the anchor and meets every member before it, up to the last member of an oversized cluster. */
  ghost predicate IsGreedy(anchor: Candidate, candidates: seq<Candidate>, w: Links, c: Cluster) {
    && c.anchor == anchor && |c.members| > 0 && c.members[0] == anchor
    && (forall i :: 1 <= i < |c.members| ==> c.members[i] in candidates && c.members[i].key.id != anchor.key.id)
    && (forall i, j :: 1 <= i < j < |c.members| ==> Precedes(c.members[i], c.members[j]))
    && forall x :: x in candidates && x.key.id != anchor.key.id && ReachedBy(c, x) ==>
         (x in c.members[1..] <==> x.similarityToAnchor >= w.threshold && AllBeforeMeet(w, c.members[1..], x))
  }

  predicate ReachedBy(c: Cluster, x: Candidate)
    requires |c.members| > 0
  {
    c.oversized ==> !Precedes(c.members[|c.members| - 1], x)
  }

  predicate AllBeforeMeet(w: Links, members: seq<Candidate>, x: Candidate) {
    forall m :: m in members && Precedes(m, x) ==> Meets(w, m, x)
  }

  /** The first n candidates in order, and what was admitted of them. */
  ghost predicate GreedyOf(w: Links, q: seq<Candidate>, n: nat, r: seq<Candidate>)
    requires n <= |q|
  {
    && (forall m :: m in r ==> m in q[..n]) && SortedBy(Earlier, r)
    && forall k :: 0 <= k < n ==>
         (q[k] in r <==> q[k].similarityToAnchor >= w.threshold && AllBeforeMeet(w, r, q[k]))
  }

  lemma {:induction false} AdmittedIsGreedy(w: Links, q: seq<Candidate>, n: nat)
    requires n <= |q| && SortedBy(Earlier, q)
    ensures GreedyOf(w, q, n, Admitted(w, q, n))
  {
    if n > 0 {
      AdmittedIsGreedy(w, q, n - 1);
      GreedyMore(w, q, n, Admitted(w, q, n - 1));
    }
  }

  lemma GreedyMore(w: Links, q: seq<Candidate>, n: nat, before: seq<Candidate>)
    requires 0 < n <= |q| && SortedBy(Earlier, q) && GreedyOf(w, q, n - 1, before)
    ensures GreedyOf(w, q, n, if Joins(w, before, q[n - 1]) then before + [q[n - 1]] else before)
  {
    var x := q[n - 1];
    var r := if Joins(w, before, x) then before + [x] else before;
    forall m | m in q[..n - 1] ensures Earlier(m, x) && !Precedes(x, m) && m != x {
      var i :| 0 <= i < n - 1 && q[i] == m;
    }
    JoinsIff(w, before, x);
    hide Joins, Precedes, Earlier, AllBeforeMeet;
    GrowsInOrder(q, n, before);
    forall k | 0 <= k < n
      ensures q[k] in r <==> q[k].similarityToAnchor >= w.threshold && AllBeforeMeet(w, r, q[k])
    {
      if k < n - 1 { assert q[k] in q[..n - 1]; }
      NotBefore(w, before, x, q[k]);
    }
  }

  lemma GrowsInOrder(q: seq<Candidate>, n: nat, before: seq<Candidate>)
    requires 0 < n <= |q| && SortedBy(Earlier, before) && forall m :: m in before ==> m in q[..n - 1]
    requires forall m :: m in before ==> Earlier(m, q[n - 1])
    ensures SortedBy(Earlier, before + [q[n - 1]])
    ensures forall m :: m in before + [q[n - 1]] ==> m in q[..n]
  {
    hide Earlier;
    assert q[..n] == q[..n - 1] + [q[n - 1]];
    assert forall i :: 0 <= i < |before| ==> before[i] in before && before[i] in q[..n - 1];
  }

  lemma JoinsIff(w: Links, before: seq<Candidate>, x: Candidate)
    requires forall m :: m in before ==> Earlier(m, x)
    ensures Joins(w, before, x) <==> x.similarityToAnchor >= w.threshold && AllBeforeMeet(w, before, x)
  {
    assert forall m :: m in before ==> Precedes(m, x) && (Meets(w, m, x) <==> Similar(w, m, x));
  }

  lemma NotBefore(w: Links, before: seq<Candidate>, x: Candidate, y: Candidate)
    requires !Precedes(x, y)
    ensures AllBeforeMeet(w, before + [x], y) <==> AllBeforeMeet(w, before, y)
  {
    hide Meets;
    assert forall m :: m in before + [x] <==> m in before || m == x;
  }

  lemma BuiltIsGreedy(anchor: Candidate, candidates: seq<Candidate>, w: Links, maxSize: int)
    ensures var c := BuiltCluster(anchor, candidates, w, maxSize);
      && (c.oversized ==> |c.members| == maxSize + 1) && (maxSize >= 1 ==> (c.oversized <==> |c.members| > maxSize))
      && (DistinctIds(candidates) ==> IsGreedy(anchor, candidates, w, c))
  {
    hide Ordered, Admitted, GreedyOf, IsGreedy;
    if DistinctIds(candidates) {
      var q, c := Ordered(anchor, candidates), BuiltCluster(anchor, candidates, w, maxSize);
      OrderedLists(anchor, candidates);
      AdmittedIsGreedy(w, q, |q|);
      var r := Admitted(w, q, |q|);
      if c.oversized { CutMembers(anchor, r, maxSize); } else { CutMembers(anchor, r, |r|); }
      CutIsGreedy(anchor, candidates, w, q, r, c);
    }
  }

  lemma CutMembers(anchor: Candidate, r: seq<Candidate>, n: nat)
    requires n <= |r|
    ensures var ms := ([anchor] + r)[..n + 1]; ms[0] == anchor && ms[1..] == r[..n] <= r
    ensures n == |r| ==> ([anchor] + r)[..n + 1] == [anchor] + r && r[..n] == r
  {
  }

  lemma OrderedLists(anchor: Candidate, candidates: seq<Candidate>)
    requires DistinctIds(candidates)
    ensures SortedBy(Earlier, Ordered(anchor, candidates))
    ensures forall x :: x in Ordered(anchor, candidates) <==> x in candidates && x.key.id != anchor.key.id
  {
    WithoutAnchorDistinct(anchor, candidates);
    SortSorts(WithoutAnchor(anchor, candidates));
    SortIsPermutation(WithoutAnchor(anchor, candidates));
    forall x ensures x in Ordered(anchor, candidates) <==> x in WithoutAnchor(anchor, candidates) {
      assert x in Ordered(anchor, candidates) <==> x in multiset(Ordered(anchor, candidates));
      assert x in WithoutAnchor(anchor, candidates) <==> x in multiset(WithoutAnchor(anchor, candidates));
    }
  }

  lemma CutIsGreedy(
      anchor: Candidate, candidates: seq<Candidate>, w: Links, q: seq<Candidate>, r: seq<Candidate>, c: Cluster)
    requires GreedyOf(w, q, |q|, r) && forall x :: x in q <==> x in candidates && x.key.id != anchor.key.id
    requires c.anchor == anchor && |c.members| > 0 && c.members[0] == anchor && c.members[1..] <= r
    requires c.oversized ==> |c.members| > 1
    requires !c.oversized ==> c.members[1..] == r
    ensures IsGreedy(anchor, candidates, w, c)
  {
    var n := |c.members| - 1;
    forall i | 1 <= i < |c.members| ensures c.members[i] == r[i - 1] && r[i - 1] in r && r[i - 1] in q {
      assert c.members[i] == c.members[1..][i - 1];
    }
    forall i, j | 1 <= i < j < |c.members| ensures Precedes(c.members[i], c.members[j]) {
      assert Earlier(r[i - 1], r[j - 1]);
    }
    assert forall i :: 0 <= i < n ==> r[i] == c.members[1..][i];
    forall x | x in q && ReachedBy(c, x)
      ensures x in c.members[1..] <==> x.similarityToAnchor >= w.threshold && AllBeforeMeet(w, c.members[1..], x)
    {
      var k :| 0 <= k < |q| && q[k] == x;
      assert x in r <==> x.similarityToAnchor >= w.threshold && AllBeforeMeet(w, r, x);
      forall m | m in r && m !in c.members[1..] ensures m != x && !Precedes(m, x) {
        var i :| 0 <= i < |r| && r[i] == m;
        assert i >= n && Earlier(r[n - 1], r[i]) && r[n - 1] == c.members[n];
      }
    }
  }

  // ---------------------------------------------------------------- oversize

  /** "Oversized" means "has maxSize + 1 members", for every input, exactly when maxSize is not 0:
      the size is only looked at after a push, so with maxSize 0 a lone anchor fills the cluster
      unnoticed. */
  lemma OversizedIffFull(maxSize: int)
    ensures (forall anchor, candidates, w :: var c := BuiltCluster(anchor, candidates, w, maxSize);
               c.oversized <==> |c.members| == maxSize + 1) <==> maxSize != 0
  {
    if maxSize == 0 {
      var anchor := Candidate(Key(0, 0), 0, 0, 1.0);
      var c := BuiltCluster(anchor, [], Links(map[], 0.92), maxSize);
      assert !c.oversized && |c.members| == maxSize + 1;
    }
  }

  // ---------------------------------------------------------------- order of supply

  lemma {:induction false} InsertIsPermutation(c: Candidate, q: seq<Candidate>)
    ensures multiset(Insert(c, q)) == multiset(q) + multiset{c}
  {
    if q != [] && !Earlier(c, q[0]) {
      InsertIsPermutation(c, q[1..]);
      assert q == [q[0]] + q[1..];
    }
  }

  lemma {:induction false} SortIsPermutation(q: seq<Candidate>)
    ensures multiset(SortCandidates(q)) == multiset(q)
  {
    if q != [] {
      SortIsPermutation(q[..|q| - 1]);
      InsertIsPermutation(q[|q| - 1], SortCandidates(q[..|q| - 1]));
      assert q == q[..|q| - 1] + [q[|q| - 1]];
    }
  }

  /** Ids are primary keys. */
  ghost predicate DistinctIds(q: seq<Candidate>) {
    forall i, j :: 0 <= i < j < |q| ==> q[i].key.id != q[j].key.id
  }

  lemma {:induction false} InsertKeepsSorted(c: Candidate, q: seq<Candidate>)
    requires SortedBy(Earlier, q) && forall i :: 0 <= i < |q| ==> q[i].key.id != c.key.id
    ensures SortedBy(Earlier, Insert(c, q))
  {
    if q != [] && !Earlier(c, q[0]) {
      InsertKeepsSorted(c, q[1..]);
      InsertIsPermutation(c, q[1..]);
      forall x | x in Insert(c, q[1..]) ensures Earlier(q[0], x) {
        assert x in multiset(Insert(c, q[1..]));
      }
    }
  }

  lemma {:induction false} SortSorts(q: seq<Candidate>)
    requires DistinctIds(q)
    ensures SortedBy(Earlier, SortCandidates(q))
  {
    if q != [] {
      var init, c := q[..|q| - 1], q[|q| - 1];
      SortSorts(init);
      SortIsPermutation(init);
      var r := SortCandidates(init);
      forall i | 0 <= i < |r| ensures r[i].key.id != c.key.id {
        assert r[i] in multiset(r) && r[i] in init;
      }
      InsertKeepsSorted(c, r);
    }
  }

  lemma {:induction false} WithoutAnchorCounts(anchor: Candidate, q: seq<Candidate>, c: Candidate)
    ensures multiset(WithoutAnchor(anchor, q))[c] == if c.key.id == anchor.key.id then 0 else multiset(q)[c]
  {
    if q != [] {
      WithoutAnchorCounts(anchor, q[..|q| - 1], c);
      assert q == q[..|q| - 1] + [q[|q| - 1]];
    }
  }

  lemma {:induction false} WithoutAnchorDistinct(anchor: Candidate, q: seq<Candidate>)
    requires DistinctIds(q)
    ensures DistinctIds(WithoutAnchor(anchor, q))
  {
    if q != [] {
      WithoutAnchorDistinct(anchor, q[..|q| - 1]);
    }
  }

  lemma SortedCandidatesUnique(p: seq<Candidate>, q: seq<Candidate>)
    requires SortedBy(Earlier, p) && SortedBy(Earlier, q) && forall x :: x in p <==> x in q
    ensures p == q
  {
    AscendingUnique(Earlier, p, q);
  }

  /** The cluster does not depend on the order in which the candidates are supplied. */
  lemma OrderIndependent(anchor: Candidate, p: seq<Candidate>, q: seq<Candidate>, w: Links, maxSize: int)
    requires multiset(p) == multiset(q) && DistinctIds(p) && DistinctIds(q)
    ensures BuiltCluster(anchor, p, w, maxSize) == BuiltCluster(anchor, q, w, maxSize)
  {
    var a, b := WithoutAnchor(anchor, p), WithoutAnchor(anchor, q);
    WithoutAnchorDistinct(anchor, p);
    WithoutAnchorDistinct(anchor, q);
    SortSorts(a);
    SortSorts(b);
    SortIsPermutation(a);
    SortIsPermutation(b);
    forall c ensures c in SortCandidates(a) <==> c in SortCandidates(b) {
      WithoutAnchorCounts(anchor, p, c);
      WithoutAnchorCounts(anchor, q, c);
      assert c in SortCandidates(a) <==> c in multiset(SortCandidates(a));
      assert c in SortCandidates(b) <==> c in multiset(SortCandidates(b));
    }
    SortedCandidatesUnique(SortCandidates(a), SortCandidates(b));
  }
}
