/** Selecting clusters after a cursor, and the checkpoint that survives failures
    (selectConsolidationClusters, runConsolidation). */
module ConsolidationRun {
  import opened Prelude
  import opened Ordering
  import opened Clustering

  const THRESHOLD: real := 0.92
  const MIN_CLUSTER_SIZE: nat := 2
  const MAX_CLUSTER_SIZE: nat := 20

  /** The eligible rows of a namespace with their revisions, cosine similarity, and the rank of the
      text of each created_at. */
  datatype Table = Table(rows: map<Key, nat>, sim: (Id, Id) -> real, text: Instant -> int)

  predicate After(k: Key, cursor: Option<Key>) {
    cursor.None? || KeyLess(cursor.value, k)
  }

  // ---------------------------------------------------------------- selection

  function Unseen(t: Table, cursor: Option<Key>): set<Key> {
    set k | k in t.rows && After(k, cursor)
  }

  /** Rows at or after the anchor that meet the threshold with it. */
  function Near(t: Table, a: Key): set<Key> {
    set k | k in t.rows && !KeyLess(k, a) && t.sim(k.id, a.id) >= THRESHOLD
  }

  /** Anchors strictly after the cursor, in (created_at, id) order, LIMIT n. */
  ghost function Anchors(t: Table, cursor: Option<Key>, n: nat): seq<Key> {
    Limit(AscendingKeys(Unseen(t, cursor)), n)
  }

  /** The first 21 rows at or after the anchor that meet the threshold with it. */
  ghost function Neighbours(t: Table, a: Key): seq<Key> {
    Limit(AscendingKeys(Near(t, a)), MAX_CLUSTER_SIZE + 1)
  }

  function CandidateOf(t: Table, a: Key, k: Key): Candidate
    requires k in t.rows
  {
    Candidate(k, t.text(k.createdAt), t.rows[k], t.sim(k.id, a.id))
  }

  ghost function Candidates(t: Table, a: Key): (r: seq<Candidate>)
    ensures |r| == |Neighbours(t, a)|
  {
    var ks := Neighbours(t, a);
    seq(|ks|, i requires 0 <= i < |ks| =>
      assert ks[i] in AscendingKeys(Near(t, a));
      CandidateOf(t, a, ks[i]))
  }

  /** Similarities of all pairs of the candidate set. */
  function PairsOf(t: Table, ks: seq<Key>): map<(Id, Id), real> {
    var ids := set k | k in ks :: k.id;
    map i, j | i in ids && j in ids && i < j :: (i, j) := t.sim(i, j)
  }

  ghost function PairMap(t: Table, a: Key): map<(Id, Id), real> {
    PairsOf(t, Neighbours(t, a))
  }

  ghost function AnchorCandidate(t: Table, a: Key): Candidate
    requires a in t.rows
  {
    if a in Neighbours(t, a) then CandidateOf(t, a, a) else Candidate(a, t.text(a.createdAt), t.rows[a], 1.0)
  }

  ghost function ClusterAt(t: Table, a: Key): Cluster
    requires a in t.rows
  {
    BuiltCluster(AnchorCandidate(t, a), Candidates(t, a), Links(PairMap(t, a), THRESHOLD), MAX_CLUSTER_SIZE)
  }

  datatype Progress = Progress(clusters: seq<Cluster>, consumed: set<Id>, examined: nat, last: Option<Key>)

  const START := Progress([], {}, 0, None)

  ghost function Examine(t: Table, p: Progress, a: Key): Progress
    requires a in t.rows
  {
    var seen := p.(examined := p.examined + 1, last := Some(a));
    if a.id in p.consumed || |Candidates(t, a)| < MIN_CLUSTER_SIZE then seen else
      var c := ClusterAt(t, a);
      if |c.members| < MIN_CLUSTER_SIZE then seen
      else if c.oversized then seen.(clusters := p.clusters + [c])
      else seen.(clusters := p.clusters + [c], consumed := p.consumed + set m | m in c.members :: m.key.id)
  }

  ghost function Scan(t: Table, anchors: seq<Key>, clusterLimit: nat, n: nat): Progress
    requires n <= |anchors| && forall a :: a in anchors ==> a in t.rows
  {
    if n == 0 then START else
      var p := Scan(t, anchors, clusterLimit, n - 1);
      if |p.clusters| >= clusterLimit then p else Examine(t, p, anchors[n - 1])
  }

  ghost function Select(t: Table, cursor: Option<Key>, anchorLimit: nat, clusterLimit: nat): Progress {
    var anchors := Anchors(t, cursor, anchorLimit);
    AnchorsEligible(t, cursor, anchorLimit);
    Scan(t, anchors, clusterLimit, |anchors|)
  }

  lemma AnchorsEligible(t: Table, cursor: Option<Key>, n: nat)
    ensures forall a :: a in Anchors(t, cursor, n) ==> a in t.rows && After(a, cursor)
    ensures SortedBy(KeyLess, Anchors(t, cursor, n))
  {
    var all := AscendingKeys(Unseen(t, cursor));
    forall a | a in Anchors(t, cursor, n) ensures a in all {
    }
  }

  /** What a scan has examined is a prefix of the anchors, all of them unless the cluster limit was
      hit; each cluster is rooted at an examined anchor, in order. */
  ghost predicate ScanShape(p: Progress, anchors: seq<Key>, clusterLimit: nat, n: nat) {
    && p.examined <= n <= |anchors|
    && (|p.clusters| < clusterLimit ==> p.examined == n)
    && p.last == (if p.examined == 0 then None else Some(anchors[p.examined - 1]))
    && |p.clusters| <= clusterLimit && |p.clusters| <= p.examined
    && (forall i :: 0 <= i < |p.clusters| ==> p.clusters[i].anchor.key in anchors[..p.examined])
    && (forall i, j :: 0 <= i < j < |p.clusters| ==> KeyLess(p.clusters[i].anchor.key, p.clusters[j].anchor.key))
  }

  lemma ExamineShape(t: Table, p: Progress, a: Key)
    requires a in t.rows
    ensures var e := Examine(t, p, a);
      && e.examined == p.examined + 1 && e.last == Some(a)
      && (e.clusters == p.clusters || (|e.clusters| == |p.clusters| + 1 && e.clusters[..|p.clusters|] == p.clusters
                                       && e.clusters[|p.clusters|].anchor.key == a))
  {
  }

  lemma {:induction false} ScanHasShape(t: Table, anchors: seq<Key>, clusterLimit: nat, n: nat)
    requires n <= |anchors| && (forall a :: a in anchors ==> a in t.rows) && SortedBy(KeyLess, anchors)
    ensures ScanShape(Scan(t, anchors, clusterLimit, n), anchors, clusterLimit, n)
  {
    if n > 0 {
      ScanHasShape(t, anchors, clusterLimit, n - 1);
      var p := Scan(t, anchors, clusterLimit, n - 1);
      if |p.clusters| < clusterLimit {
        ExamineShape(t, p, anchors[n - 1]);
        ShapeExtends(p, Examine(t, p, anchors[n - 1]), anchors, clusterLimit, n);
      }
    }
  }

  lemma ShapeExtends(p: Progress, e: Progress, anchors: seq<Key>, clusterLimit: nat, n: nat)
    requires 0 < n <= |anchors| && SortedBy(KeyLess, anchors)
    requires ScanShape(p, anchors, clusterLimit, n - 1) && |p.clusters| < clusterLimit
    requires e.examined == p.examined + 1 && e.last == Some(anchors[n - 1])
    requires e.clusters == p.clusters || (|e.clusters| == |p.clusters| + 1 && e.clusters[..|p.clusters|] == p.clusters
                                          && e.clusters[|p.clusters|].anchor.key == anchors[n - 1])
    ensures ScanShape(e, anchors, clusterLimit, n)
  {
  }

  // ---------------------------------------------------------------- what a selected cluster is

  /** Ids are primary keys, and a vector has similarity 1 with itself. */
  ghost predicate Consistent(t: Table) {
    && (forall j, k :: j in t.rows && k in t.rows && j.id == k.id ==> j == k)
    && (forall k :: k in t.rows ==> t.sim(k.id, k.id) >= THRESHOLD)
  }

  /** The pairs query joins on left.id < right.id. */
  predicate PairSimilar(t: Table, i: Id, j: Id) {
    (if i < j then t.sim(i, j) else t.sim(j, i)) >= THRESHOLD
  }

  lemma NeighbourIs(t: Table, a: Key, k: Key)
    requires k in Neighbours(t, a)
    ensures k in t.rows && !KeyLess(k, a) && t.sim(k.id, a.id) >= THRESHOLD
  {
    assert k in AscendingKeys(Near(t, a));
  }

  lemma CandidateIs(t: Table, a: Key, c: Candidate)
    requires c in Candidates(t, a)
    ensures c.key in Neighbours(t, a) && c.key in t.rows && c == CandidateOf(t, a, c.key)
  {
    NeighbourIs(t, a, c.key);
  }

  lemma SimilarIsPairSimilar(t: Table, a: Key, x: Candidate, y: Candidate)
    requires x in Candidates(t, a) && y in Candidates(t, a) && x.key.id != y.key.id
    ensures Similar(Links(PairMap(t, a), THRESHOLD), x, y) <==> PairSimilar(t, x.key.id, y.key.id)
  {
  }

  lemma CandidatesDistinct(t: Table, a: Key)
    requires Consistent(t)
    ensures var cs := Candidates(t, a); forall i, j :: 0 <= i < j < |cs| ==> cs[i].key.id != cs[j].key.id
  {
    var ks := Neighbours(t, a);
    var all := AscendingKeys(Near(t, a));
    forall i, j | 0 <= i < j < |ks| ensures ks[i].id != ks[j].id {
      assert ks[i] == all[i] && ks[j] == all[j] && KeyLess(all[i], all[j]);
      assert ks[i] in all && ks[j] in all;
    }
  }

  /** The anchor is the first of its own neighbours. */
  lemma AnchorIsNeighbour(t: Table, a: Key)
    requires Consistent(t) && a in t.rows
    ensures |Neighbours(t, a)| > 0 && Neighbours(t, a)[0] == a
  {
    var s := Near(t, a);
    var all := AscendingKeys(s);
    assert a in s && a in all;
    var i :| 0 <= i < |all| && all[i] == a;
    assert all[0] in all && all[0] in s;
  }

  /** A mutually compatible 21st row makes the group oversized, but only among the first 21
      neighbours: the group is oversized exactly when there are that many and all of them are
      pairwise similar. */
  lemma OversizedExactly(t: Table, a: Key)
    requires Consistent(t) && a in t.rows
    ensures ClusterAt(t, a).oversized <==> |Neighbours(t, a)| == MAX_CLUSTER_SIZE + 1 && AllSimilar(t, a)
  {
    var w, cs := Links(PairMap(t, a), THRESHOLD), Candidates(t, a);
    OrderedCandidates(t, a);
    CandidatesLinkedIff(t, a);
    OversizedWhenLinked(AnchorCandidate(t, a), cs, w);
  }

  lemma OversizedWhenLinked(anchor: Candidate, cs: seq<Candidate>, w: Links)
    requires 0 < |cs| <= MAX_CLUSTER_SIZE + 1 && DistinctIds(cs) && multiset(Ordered(anchor, cs)) == multiset(cs[1..])
    ensures BuiltCluster(anchor, cs, w, MAX_CLUSTER_SIZE).oversized <==>
      |cs| == MAX_CLUSTER_SIZE + 1 && Linked(w, cs[1..])
  {
    var q := Ordered(anchor, cs);
    assert |q| == |multiset(q)| == |cs[1..]|;
    AllAdmittedIffLinked(w, q, |q|);
    assert q[..|q|] == q;
    LinkedInAnyOrder(w, cs[1..], q);
  }

  lemma SimilarIsSymmetric(w: Links, x: Candidate, y: Candidate)
    ensures Similar(w, x, y) <==> Similar(w, y, x)
  {
  }

  /** Whether candidates with distinct ids are pairwise similar does not depend on their order. */
  lemma LinkedInAnyOrder(w: Links, p: seq<Candidate>, q: seq<Candidate>)
    requires multiset(p) == multiset(q) && DistinctIds(p)
    ensures Linked(w, p) <==> Linked(w, q)
  {
    DistinctInAnyOrder(p, q);
    LinkedAsSet(w, p);
    LinkedAsSet(w, q);
    forall x ensures x in p <==> x in q {
      assert x in p <==> x in multiset(p);
      assert x in q <==> x in multiset(q);
    }
  }

  lemma LinkedAsSet(w: Links, p: seq<Candidate>)
    requires DistinctIds(p)
    ensures Linked(w, p) <==>
      && (forall x :: x in p ==> x.similarityToAnchor >= w.threshold)
      && (forall x, y :: x in p && y in p && x != y ==> Similar(w, x, y))
  {
    if Linked(w, p) {
      forall x, y | x in p && y in p && x != y ensures Similar(w, x, y) {
        var i :| 0 <= i < |p| && p[i] == x;
        var j :| 0 <= j < |p| && p[j] == y;
        SimilarIsSymmetric(w, x, y);
      }
    }
    if forall x, y :: x in p && y in p && x != y ==> Similar(w, x, y) {
      forall i, j | 0 <= i < j < |p| ensures Similar(w, p[i], p[j]) {
        assert p[i] in p && p[j] in p && p[i].key.id != p[j].key.id;
      }
    }
  }

  lemma {:induction false} DistinctInAnyOrder(p: seq<Candidate>, q: seq<Candidate>)
    requires multiset(p) == multiset(q) && DistinctIds(p)
    ensures DistinctIds(q)
  {
    forall i, j | 0 <= i < j < |q| ensures q[i].key.id != q[j].key.id {
      TwiceIn(q, i, j);
      if q[i] == q[j] {
        OnceIn(p, q[i]);
      } else {
        assert q[i] in multiset(q) && q[j] in multiset(q);
        var a :| 0 <= a < |p| && p[a] == q[i];
        var b :| 0 <= b < |p| && p[b] == q[j];
      }
    }
  }

  lemma TwiceIn(q: seq<Candidate>, i: nat, j: nat)
    requires i < j < |q|
    ensures q[i] == q[j] ==> multiset(q)[q[i]] >= 2
  {
    assert q == q[..j] + [q[j]] + q[j + 1..];
    assert q[i] == q[..j][i] && q[..j][i] in multiset(q[..j]);
  }

  lemma {:induction false} OnceIn(p: seq<Candidate>, c: Candidate)
    requires DistinctIds(p)
    ensures multiset(p)[c] <= 1
  {
    if |p| > 0 {
      var init, last := p[..|p| - 1], p[|p| - 1];
      OnceIn(init, c);
      assert p == init + [last];
      assert forall i :: 0 <= i < |init| ==> init[i].key.id != last.key.id;
    }
  }

  /** The neighbours after the anchor are pairwise similar. */
  ghost predicate AllSimilar(t: Table, a: Key) {
    forall i, j :: 1 <= i < j < |Neighbours(t, a)| ==> PairSimilar(t, Neighbours(t, a)[i].id, Neighbours(t, a)[j].id)
  }

  lemma CandidatesLinkedIff(t: Table, a: Key)
    requires Consistent(t) && |Candidates(t, a)| > 0
    ensures Linked(Links(PairMap(t, a), THRESHOLD), Candidates(t, a)[1..]) <==> AllSimilar(t, a)
  {
    var ks, cs, w := Neighbours(t, a), Candidates(t, a), Links(PairMap(t, a), THRESHOLD);
    CandidatesDistinct(t, a);
    forall i, j | 1 <= i < j < |ks| ensures Similar(w, cs[i], cs[j]) <==> PairSimilar(t, ks[i].id, ks[j].id) {
      SimilarIsPairSimilar(t, a, cs[i], cs[j]);
    }
    forall i | 0 <= i < |cs| ensures cs[i].similarityToAnchor >= w.threshold {
      NeighbourIs(t, a, ks[i]);
    }
    LinkedTail(w, cs);
  }

  lemma LinkedTail(w: Links, cs: seq<Candidate>)
    requires |cs| > 0 && forall i :: 0 <= i < |cs| ==> cs[i].similarityToAnchor >= w.threshold
    ensures Linked(w, cs[1..]) <==> forall i, j :: 1 <= i < j < |cs| ==> Similar(w, cs[i], cs[j])
  {
  }

  lemma {:induction false} AllAdmittedIffLinked(w: Links, q: seq<Candidate>, n: nat)
    requires n <= |q|
    ensures |Admitted(w, q, n)| == n <==> Linked(w, q[..n])
    ensures |Admitted(w, q, n)| == n ==> Admitted(w, q, n) == q[..n]
  {
    if n > 0 {
      AllAdmittedIffLinked(w, q, n - 1);
      assert q[..n] == q[..n - 1] + [q[n - 1]];
      if |Admitted(w, q, n)| == n {
        AdmittedIsLinked(w, q, n);
      }
      if Linked(w, q[..n]) {
        LinkedSplits(w, q[..n - 1], q[n - 1]);
      }
    }
  }

  lemma LinkedSplits(w: Links, p: seq<Candidate>, c: Candidate)
    requires Linked(w, p + [c])
    ensures Linked(w, p) && Joins(w, p, c)
  {
    var q := p + [c];
    assert forall i :: 0 <= i < |p| ==> q[i] == p[i];
    assert q[|p|] == c;
  }

  /** The rows come from SQL with the anchor first; what is clustered are the others, in text order. */
  lemma OrderedCandidates(t: Table, a: Key)
    requires Consistent(t) && a in t.rows
    ensures |Candidates(t, a)| > 0 && Candidates(t, a)[0].key == a && DistinctIds(Candidates(t, a))
    ensures multiset(Ordered(AnchorCandidate(t, a), Candidates(t, a))) == multiset(Candidates(t, a)[1..])
  {
    var cs := Candidates(t, a);
    AnchorIsNeighbour(t, a);
    CandidatesDistinct(t, a);
    WithoutFirst(AnchorCandidate(t, a), cs);
    SortIsPermutation(cs[1..]);
  }

  lemma {:induction false} WithoutFirst(anchor: Candidate, q: seq<Candidate>)
    requires |q| > 0 && q[0].key.id == anchor.key.id && forall i :: 0 < i < |q| ==> q[i].key.id != anchor.key.id
    ensures WithoutAnchor(anchor, q) == q[1..]
  {
    if |q| == 1 {
      assert WithoutAnchor(anchor, q[..0]) == [];
    } else {
      WithoutFirst(anchor, q[..|q| - 1]);
      assert q[..|q| - 1][1..] + [q[|q| - 1]] == q[1..];
    }
  }

  // ---------------------------------------------------------------- the cluster in the table

  /** The row is similar to every member but the anchor. */
  ghost predicate FitsMembers(t: Table, c: Cluster, k: Key) {
    forall i :: 1 <= i < |c.members| ==> PairSimilar(t, c.members[i].key.id, k.id)
  }

  lemma MembersAreCandidates(t: Table, a: Key, c: Candidate)
    requires Consistent(t) && a in t.rows && c in ClusterAt(t, a).members
    ensures c in Candidates(t, a)
  {
    var q, cs := Ordered(AnchorCandidate(t, a), Candidates(t, a)), Candidates(t, a);
    OrderedCandidates(t, a);
    AnchorIsNeighbour(t, a);
    assert cs[0] == AnchorCandidate(t, a);
    if c != cs[0] {
      var w := Links(PairMap(t, a), THRESHOLD);
      assert c in Admitted(w, q, |q|) && q[..|q|] == q;
      assert c in multiset(cs[1..]);
    }
  }

  /** Members are eligible rows near the anchor, and pairwise similar in the table. */
  lemma ClusterIsClique(t: Table, a: Key)
    requires Consistent(t) && a in t.rows
    ensures var ms := ClusterAt(t, a).members;
      && |ms| > 0 && ms[0].key == a && (forall i :: 0 <= i < |ms| ==> ms[i].key in Near(t, a))
      && (forall i, j :: 0 <= i < j < |ms| ==> ms[i].key.id != ms[j].key.id)
      && (forall i, j :: 1 <= i < j < |ms| ==> PairSimilar(t, ms[i].key.id, ms[j].key.id))
  {
    var w, ms := Links(PairMap(t, a), THRESHOLD), ClusterAt(t, a).members;
    ClusterIsCliqueAndMaximal(AnchorCandidate(t, a), Candidates(t, a), w, MAX_CLUSTER_SIZE);
    forall i | 0 <= i < |ms| ensures ms[i] in Candidates(t, a) && ms[i].key in Near(t, a) {
      MembersAreCandidates(t, a, ms[i]);
      CandidateIs(t, a, ms[i]);
      NeighbourIs(t, a, ms[i].key);
    }
    forall i, j | 0 <= i < j < |ms| ensures ms[i].key.id != ms[j].key.id {
      MembersDiffer(t, a, i, j);
    }
    forall i, j | 1 <= i < j < |ms| ensures PairSimilar(t, ms[i].key.id, ms[j].key.id) {
      SimilarIsPairSimilar(t, a, ms[i], ms[j]);
    }
  }

  lemma MembersDiffer(t: Table, a: Key, i: nat, j: nat)
    requires Consistent(t) && a in t.rows && i < j < |ClusterAt(t, a).members|
    ensures ClusterAt(t, a).members[i].key.id != ClusterAt(t, a).members[j].key.id
  {
    hide KeyLess, Near, Neighbours, Consistent, PairsOf, Joins;
    var w, q := Links(PairMap(t, a), THRESHOLD), Ordered(AnchorCandidate(t, a), Candidates(t, a));
    if i > 0 {
      OrderedCandidates(t, a);
      DistinctInAnyOrder(Candidates(t, a)[1..], q);
      AdmittedAreDistinct(w, q, |q|);
    } else {
      OrderedHasNoAnchor(AnchorCandidate(t, a), Candidates(t, a));
      assert ClusterAt(t, a).members[j] in q[..|q|];
    }
  }

  lemma {:induction false} AdmittedAreDistinct(w: Links, q: seq<Candidate>, n: nat)
    requires n <= |q| && DistinctIds(q)
    ensures DistinctIds(Admitted(w, q, n))
  {
    if n > 0 {
      AdmittedAreDistinct(w, q, n - 1);
      var before := Admitted(w, q, n - 1);
      forall i | 0 <= i < |before| ensures before[i].key.id != q[n - 1].key.id {
        assert before[i] in q[..n - 1];
      }
    }
  }

  /** When the cluster is not oversized, no neighbour left out fits it. */
  lemma NeighboursLeftOutMiss(t: Table, a: Key, k: Key)
    requires Consistent(t) && a in t.rows && !ClusterAt(t, a).oversized
    requires k in Neighbours(t, a) && !HasMember(ClusterAt(t, a), k)
    ensures !FitsMembers(t, ClusterAt(t, a), k)
  {
    var w, c := Links(PairMap(t, a), THRESHOLD), ClusterAt(t, a);
    var x := LeftOut(t, a, k);
    var m :| m in c.members[1..] && !Similar(w, m, x);
    var i :| 1 <= i < |c.members| && c.members[i] == m;
    hide BuiltCluster;
    MembersAreCandidates(t, a, m);
    CandidateIs(t, a, m);
    NeighbourIs(t, a, m.key);
    NeighbourIs(t, a, k);
    assert HasMember(c, m.key);
    SimilarIsPairSimilar(t, a, m, x);
  }

  lemma LeftOut(t: Table, a: Key, k: Key) returns (x: Candidate)
    requires Consistent(t) && a in t.rows && !ClusterAt(t, a).oversized
    requires k in Neighbours(t, a) && !HasMember(ClusterAt(t, a), k)
    ensures x in Candidates(t, a) && x.key == k
    ensures |ClusterAt(t, a).members| > 0
    ensures exists m :: m in ClusterAt(t, a).members[1..] && !Similar(Links(PairMap(t, a), THRESHOLD), m, x)
  {
    var w, c, cs := Links(PairMap(t, a), THRESHOLD), ClusterAt(t, a), Candidates(t, a);
    ClusterIsCliqueAndMaximal(AnchorCandidate(t, a), cs, w, MAX_CLUSTER_SIZE);
    ClusterIsClique(t, a);
    hide BuiltCluster;
    var ks := Neighbours(t, a);
    var i :| 0 <= i < |ks| && ks[i] == k;
    x := cs[i];
    assert x.key == k && x in cs;
    NeighbourIs(t, a, k);
    assert c.members[0] in c.members && HasMember(c, a);
    assert x !in c.members;
  }

  /** No row near the anchor that was left out fits its cluster. */
  ghost predicate Maximal(t: Table, a: Key)
    requires a in t.rows
  {
    forall k :: k in Near(t, a) && !HasMember(ClusterAt(t, a), k) ==> !FitsMembers(t, ClusterAt(t, a), k)
  }

  /** A cluster that is not oversized is maximal among all rows near its anchor exactly when none of
      those past the 21st fits it. */
  lemma MaximalIffNoneCutOffFits(t: Table, a: Key)
    requires Consistent(t) && a in t.rows && !ClusterAt(t, a).oversized
    ensures Maximal(t, a) <==>
      (forall k :: k in Near(t, a) && k !in Neighbours(t, a) ==> !FitsMembers(t, ClusterAt(t, a), k))
  {
    var c := ClusterAt(t, a);
    forall k | k in Near(t, a) && !HasMember(c, k) && k in Neighbours(t, a) ensures !FitsMembers(t, c, k) {
      NeighboursLeftOutMiss(t, a, k);
    }
    forall k | HasMember(c, k) ensures k in Neighbours(t, a) {
      MembersAreNeighbours(t, a, k);
    }
  }

  /** Whatever the table, a cluster around an anchor with that many rows near it is maximal unless it
      is oversized. */
  ghost predicate AlwaysMaximal(near: nat) {
    forall t, a :: Consistent(t) && a in t.rows && |Near(t, a)| == near && !ClusterAt(t, a).oversized ==> Maximal(t, a)
  }

  /** That is so exactly when the cut at 21 leaves nothing out. */
  lemma AlwaysMaximalIff(near: nat)
    ensures AlwaysMaximal(near) <==> near <= MAX_CLUSTER_SIZE + 1
  {
    hide ClusterAt, Near, Neighbours, Consistent, Maximal, FitsMembers;
    if near <= MAX_CLUSTER_SIZE + 1 {
      forall t, a | Consistent(t) && a in t.rows && |Near(t, a)| == near && !ClusterAt(t, a).oversized
        ensures Maximal(t, a)
      {
        MaximalIffNoneCutOffFits(t, a);
        AllNearAreNeighbours(t, a);
      }
    } else {
      var t, a, k := MaximalityCanFail(near);
      LeavesOutAFit(t, a, k);
    }
  }

  lemma LeavesOutAFit(t: Table, a: Key, k: Key)
    requires Consistent(t) && a in t.rows && k in Near(t, a) && k !in Neighbours(t, a)
    requires FitsMembers(t, ClusterAt(t, a), k)
    ensures !Maximal(t, a)
  {
    hide ClusterAt, Near, Neighbours, Consistent, FitsMembers, HasMember;
    if HasMember(ClusterAt(t, a), k) { MembersAreNeighbours(t, a, k); }
  }

  lemma AllNearAreNeighbours(t: Table, a: Key)
    requires |Near(t, a)| <= MAX_CLUSTER_SIZE + 1
    ensures forall k :: k in Near(t, a) ==> k in Neighbours(t, a)
  {
    var all := AscendingKeys(Near(t, a));
    assert Neighbours(t, a) == all;
  }

  lemma MembersAreNeighbours(t: Table, a: Key, k: Key)
    requires Consistent(t) && a in t.rows && HasMember(ClusterAt(t, a), k)
    ensures k in Neighbours(t, a)
  {
    var m :| m in ClusterAt(t, a).members && m.key == k;
    MembersAreCandidates(t, a, m);
    CandidateIs(t, a, m);
  }

  /** Beyond, it can fail: the first 20 rows after the anchor are similar to no other but the next is
      similar to all.  The cluster that is pushed leaves out that row, which fits. */
  lemma MaximalityCanFail(near: nat) returns (t: Table, a: Key, k: Key)
    requires near > MAX_CLUSTER_SIZE + 1
    ensures Consistent(t) && a in t.rows && |Near(t, a)| == near && Pushes(t, START, a) && !ClusterAt(t, a).oversized
    ensures k in Near(t, a) && k !in Neighbours(t, a) && FitsMembers(t, ClusterAt(t, a), k)
  {
    a, k := Key(0, 0), Key(21, 21);
    t := StarTable(near);
    StarNeighbours(t, near, a, k);
    ThinCluster(t, a, k);
  }

  /** Rows 0 to n - 1, one each instant. */
  ghost predicate IsStar(t: Table, n: nat) {
    t.sim == StarSimilarity && forall k :: k in t.rows <==> k.id < n && k == Key(k.id, k.id)
  }

  lemma StarTable(n: nat) returns (t: Table)
    ensures IsStar(t, n)
  {
    t := Table(map i: nat | i < n :: Key(i, i) := 0, StarSimilarity, (at: Instant) => at);
  }

  lemma StarNeighbours(t: Table, n: nat, a: Key, k: Key)
    requires IsStar(t, n) && n > 21 && a == Key(0, 0) && k == Key(21, 21)
    ensures Consistent(t) && a in t.rows && |Neighbours(t, a)| == 21 && |Near(t, a)| == n
    ensures k in Near(t, a) && k !in Neighbours(t, a)
    ensures forall x :: x in Neighbours(t, a) ==> x.id < 21
  {
    var q := StarKeys(n);
    assert forall x :: x in t.rows <==> x in q;
    hide StarKeys, IsStar;
    assert forall x :: x in q <==> x in Near(t, a);
    FirstNear(t, a, q);
    assert q[21] == k;
  }

  function StarKeys(n: nat): (q: seq<Key>)
    ensures |q| == n && SortedBy(KeyLess, q)
    ensures forall i :: 0 <= i < n ==> q[i] == Key(i, i)
    ensures forall x :: x in q <==> x.id < n && x == Key(x.id, x.id)
  {
    var q := seq(n, (i: nat) => Key(i, i));
    assert forall x: Key :: x.id < n && x == Key(x.id, x.id) ==> x == q[x.id];
    q
  }

  lemma FirstNear(t: Table, a: Key, q: seq<Key>)
    requires |q| > MAX_CLUSTER_SIZE && SortedBy(KeyLess, q) && forall k :: k in q <==> k in Near(t, a)
    ensures Neighbours(t, a) == q[..MAX_CLUSTER_SIZE + 1] && |Near(t, a)| == |q|
  {
    AscendingKeysUnique(Near(t, a), q);
  }

  /** No two neighbours other than the anchor are similar. */
  ghost predicate NoneSimilar(t: Table, a: Key) {
    var q := Neighbours(t, a);
    forall x, y :: x in q && y in q && x.id != y.id && a.id != x.id && a.id != y.id ==> !PairSimilar(t, x.id, y.id)
  }

  /** Neighbours of which no two are similar, and all are similar to `k`, make a cluster of two. */
  lemma ThinCluster(t: Table, a: Key, k: Key)
    requires Consistent(t) && a in t.rows
    requires NoneSimilar(t, a) && |Neighbours(t, a)| > 1
    requires forall x :: x in Neighbours(t, a) ==> PairSimilar(t, x.id, k.id)
    ensures Pushes(t, START, a) && !ClusterAt(t, a).oversized && FitsMembers(t, ClusterAt(t, a), k)
  {
    hide ClusterAt, Near, Neighbours, Consistent, NoneSimilar, PairSimilar;
    ThinMembers(t, a);
    NotAlone(t, a);
  }

  /** A cluster of one would leave out a neighbour that fits. */
  lemma NotAlone(t: Table, a: Key)
    requires Consistent(t) && a in t.rows && |Neighbours(t, a)| > 1 && !ClusterAt(t, a).oversized
    ensures |ClusterAt(t, a).members| > 1
  {
    hide ClusterAt, Near, Consistent, PairSimilar;
    var b := Neighbours(t, a)[1];
    ClusterIsClique(t, a);
    AnchorIsNeighbour(t, a);
    CandidatesDistinct(t, a);
    assert Candidates(t, a)[0].key == a && Candidates(t, a)[1].key == b && b in Neighbours(t, a);
    if |ClusterAt(t, a).members| == 1 { NeighboursLeftOutMiss(t, a, b); }
  }

  lemma ThinMembers(t: Table, a: Key)
    requires Consistent(t) && a in t.rows && NoneSimilar(t, a)
    ensures var c := ClusterAt(t, a);
      && !c.oversized && 1 <= |c.members| <= 2 && c.members[0].key == a
      && forall m :: m in c.members ==> m.key in Neighbours(t, a)
  {
    var c := ClusterAt(t, a);
    assert c.oversized ==> |c.members| == MAX_CLUSTER_SIZE + 1;
    hide BuiltCluster;
    ClusterIsClique(t, a);
    if |c.members| > 2 {
      var x, y := c.members[1], c.members[2];
      assert c.members[0].key.id != x.key.id && c.members[0].key.id != y.key.id && x in c.members && y in c.members;
      MembersAreCandidates(t, a, x);
      CandidateIs(t, a, x);
      MembersAreCandidates(t, a, y);
      CandidateIs(t, a, y);
    }
    forall m | m in c.members ensures m.key in Neighbours(t, a) {
      MembersAreNeighbours(t, a, m.key);
    }
  }

  function StarSimilarity(i: Id, j: Id): real {
    if i == j || i == 0 || j == 0 || i == 21 || j == 21 then 1.0 else 0.0
  }

  // ---------------------------------------------------------------- overlap

  lemma PairCluster(t: Table, a: Key, b: Key)
    requires Consistent(t) && a in t.rows && Neighbours(t, a) == [a, b]
    ensures var c := ClusterAt(t, a);
      |c.members| == 2 && c.members[0].key == a && c.members[1].key == b && !c.oversized
  {
    var w, q := Links(PairMap(t, a), THRESHOLD), Ordered(AnchorCandidate(t, a), Candidates(t, a));
    OrderedCandidates(t, a);
    NeighbourIs(t, a, b);
    assert |q| == |multiset(q)| && q[0] in multiset(q);
    assert Admitted(w, q, 0) == [];
    assert Admitted(w, q, 1) == [q[0]];
  }

  lemma NeighboursAre(t: Table, a: Key, q: seq<Key>)
    requires |q| <= MAX_CLUSTER_SIZE + 1 && SortedBy(KeyLess, q)
    requires forall k :: k in q <==> k in t.rows && !KeyLess(k, a) && t.sim(k.id, a.id) >= THRESHOLD
    ensures Neighbours(t, a) == q
  {
    AscendingKeysUnique(Near(t, a), q);
  }

  predicate HasMember(c: Cluster, k: Key) {
    exists m :: m in c.members && m.key == k
  }

  lemma ExaminePair(t: Table, p: Progress, a: Key, b: Key)
    requires Consistent(t) && a in t.rows && Neighbours(t, a) == [a, b] && a.id !in p.consumed
    ensures Examine(t, p, a) ==
            Progress(p.clusters + [ClusterAt(t, a)], p.consumed + {a.id, b.id}, p.examined + 1, Some(a))
  {
    PairCluster(t, a, b);
    var c := ClusterAt(t, a);
    assert c.members == [c.members[0], c.members[1]];
    assert (set m | m in c.members :: m.key.id) == {a.id, b.id};
  }

  /** Neighbours are not filtered by what earlier clusters consumed: there is a table where
      examining one anchor and then another that the first cluster did not consume pushes two
      clusters, neither oversized, that share a row. */
  lemma SelectionsMayOverlap() returns (t: Table, a: Key, b: Key, shared: Key)
    ensures Consistent(t) && a in t.rows && b in t.rows && KeyLess(a, b)
    ensures HasMember(ClusterAt(t, a), shared) && HasMember(ClusterAt(t, b), shared)
    ensures Pushes(t, START, a) && b.id !in Examine(t, START, a).consumed && Pushes(t, Examine(t, START, a), b)
  {
    t, a, b, shared := OverlapTable();
    PairHasMember(t, a, shared);
    PairHasMember(t, b, shared);
    BothPush(t, a, b, shared);
  }

  lemma OverlapTable() returns (t: Table, a: Key, b: Key, shared: Key)
    ensures Consistent(t) && a in t.rows && b in t.rows && KeyLess(a, b) && a.id != b.id && b.id != shared.id
    ensures Neighbours(t, a) == [a, shared] && Neighbours(t, b) == [b, shared]
  {
    a, b, shared := Key(1, 1), Key(2, 2), Key(3, 3);
    t := Table(map[a := 0, b := 0, shared := 0], (i: Id, j: Id) => if i != j && i < 3 && j < 3 then 0.0 else 1.0,
               (at: Instant) => at);
    NeighboursAre(t, a, [a, shared]);
    NeighboursAre(t, b, [b, shared]);
  }

  lemma BothPush(t: Table, a: Key, b: Key, shared: Key)
    requires Consistent(t) && a in t.rows && b in t.rows && a.id != b.id && b.id != shared.id
    requires Neighbours(t, a) == [a, shared] && Neighbours(t, b) == [b, shared]
    ensures Pushes(t, START, a) && b.id !in Examine(t, START, a).consumed && Pushes(t, Examine(t, START, a), b)
  {
    PairPushes(t, START, a, shared);
    PairPushes(t, Examine(t, START, a), b, shared);
  }

  /** Examining `a` adds its cluster, and the cluster is small enough to consume. */
  ghost predicate Pushes(t: Table, p: Progress, a: Key)
    requires a in t.rows
  {
    Examine(t, p, a).clusters == p.clusters + [ClusterAt(t, a)] && !ClusterAt(t, a).oversized
  }

  lemma PairPushes(t: Table, p: Progress, a: Key, b: Key)
    requires Consistent(t) && a in t.rows && Neighbours(t, a) == [a, b] && a.id !in p.consumed
    ensures Pushes(t, p, a) && Examine(t, p, a).consumed == p.consumed + {a.id, b.id}
  {
    ExaminePair(t, p, a, b);
    PairCluster(t, a, b);
  }

  lemma PairHasMember(t: Table, a: Key, b: Key)
    requires Consistent(t) && a in t.rows && Neighbours(t, a) == [a, b]
    ensures HasMember(ClusterAt(t, a), b)
  {
    PairCluster(t, a, b);
    assert ClusterAt(t, a).members[1] in ClusterAt(t, a).members;
  }

  // ---------------------------------------------------------------- one run

  /** One apply run over the rows eligible at selection time: how many clusters it decided before
      it ended, and whether it reached its closing transaction. */
  datatype Attempt = Attempt(t: Table, anchorLimit: nat, clusterLimit: nat, decided: nat, completed: bool)

  ghost predicate Possible(cursor: Option<Key>, e: Attempt) {
    && 1 <= e.anchorLimit && 1 <= e.clusterLimit
    && e.decided <= |Select(e.t, cursor, e.anchorLimit, e.clusterLimit).clusters|
    && (e.completed ==> e.decided == |Select(e.t, cursor, e.anchorLimit, e.clusterLimit).clusters|)
  }

  /** The durable checkpoint after the attempt. */
  ghost function Checkpoint(cursor: Option<Key>, e: Attempt): Option<Key>
    requires Possible(cursor, e)
  {
    var p := Select(e.t, cursor, e.anchorLimit, e.clusterLimit);
    if e.completed then p.last
    else if e.decided == 0 then cursor
    else Some(p.clusters[e.decided - 1].anchor.key)
  }

  ghost predicate Wrapped(cursor: Option<Key>, e: Attempt) {
    e.completed && Select(e.t, cursor, e.anchorLimit, e.clusterLimit).examined == 0
  }

  ghost function ExaminedBy(cursor: Option<Key>, e: Attempt): set<Key> {
    var anchors := Anchors(e.t, cursor, e.anchorLimit);
    var p := Select(e.t, cursor, e.anchorLimit, e.clusterLimit);
    set k | k in Limit(anchors, p.examined)
  }

  predicate AtOrBefore(k: Key, cursor: Option<Key>) {
    cursor.Some? && !KeyLess(cursor.value, k)
  }

  lemma SelectHasShape(cursor: Option<Key>, e: Attempt)
    ensures var anchors := Anchors(e.t, cursor, e.anchorLimit);
      ScanShape(Select(e.t, cursor, e.anchorLimit, e.clusterLimit), anchors, e.clusterLimit, |anchors|)
  {
    AnchorsEligible(e.t, cursor, e.anchorLimit);
    ScanHasShape(e.t, Anchors(e.t, cursor, e.anchorLimit), e.clusterLimit, |Anchors(e.t, cursor, e.anchorLimit)|);
  }

  /** The checkpoint never passes a cluster whose decision was not recorded. */
  lemma NoClusterPassedUndecided(cursor: Option<Key>, e: Attempt, i: nat)
    requires Possible(cursor, e) && !Wrapped(cursor, e)
    requires i < |Select(e.t, cursor, e.anchorLimit, e.clusterLimit).clusters|
    ensures var c := Select(e.t, cursor, e.anchorLimit, e.clusterLimit).clusters[i].anchor.key;
      AtOrBefore(c, Checkpoint(cursor, e)) <==> i < e.decided
  {
    SelectHasShape(cursor, e);
    AnchorsEligible(e.t, cursor, e.anchorLimit);
    ClusterAnchorPlaced(Select(e.t, cursor, e.anchorLimit, e.clusterLimit), Anchors(e.t, cursor, e.anchorLimit),
      e.clusterLimit, cursor, i);
  }

  lemma ClusterAnchorPlaced(p: Progress, anchors: seq<Key>, clusterLimit: nat, cursor: Option<Key>, i: nat)
    requires ScanShape(p, anchors, clusterLimit, |anchors|) && SortedBy(KeyLess, anchors) && i < |p.clusters|
    requires forall a :: a in anchors ==> After(a, cursor)
    ensures After(p.clusters[i].anchor.key, cursor) && AtOrBefore(p.clusters[i].anchor.key, p.last)
  {
  }

  /** A failed run keeps or advances the checkpoint; a completed run that examined an anchor
      advances it strictly; a completed run with no anchor left wraps it. */
  lemma CheckpointMoves(cursor: Option<Key>, e: Attempt)
    requires Possible(cursor, e)
    ensures var c := Checkpoint(cursor, e);
      if Wrapped(cursor, e) then c.None? && forall k :: k in e.t.rows ==> AtOrBefore(k, cursor)
      else (c == cursor && !e.completed) || (c.Some? && After(c.value, cursor))
  {
    var p := Select(e.t, cursor, e.anchorLimit, e.clusterLimit);
    var anchors := Anchors(e.t, cursor, e.anchorLimit);
    SelectHasShape(cursor, e);
    AnchorsEligible(e.t, cursor, e.anchorLimit);
    if Wrapped(cursor, e) {
      var all := AscendingKeys(Unseen(e.t, cursor));
      assert |anchors| == 0 && all == [];
      forall k | k in e.t.rows ensures AtOrBefore(k, cursor) {
        assert k !in all;
      }
    } else if e.completed {
      assert anchors[p.examined - 1] in anchors;
    } else if e.decided > 0 {
      var a := p.clusters[e.decided - 1].anchor.key;
      assert a in anchors[..p.examined] && a in anchors;
    }
  }

  /** Every row between the old checkpoint and the new one was examined. */
  lemma PassedWereExamined(cursor: Option<Key>, e: Attempt, k: Key)
    requires Possible(cursor, e) && k in e.t.rows && After(k, cursor) && AtOrBefore(k, Checkpoint(cursor, e))
    ensures k in ExaminedBy(cursor, e)
  {
    var p := Select(e.t, cursor, e.anchorLimit, e.clusterLimit);
    var all := AscendingKeys(Unseen(e.t, cursor));
    var anchors := Anchors(e.t, cursor, e.anchorLimit);
    SelectHasShape(cursor, e);
    AnchorsEligible(e.t, cursor, e.anchorLimit);
    var c := Checkpoint(cursor, e).value;
    var j: nat :| j < p.examined && anchors[j] == c by {
      if !e.completed {
        var i :| 0 <= i < p.examined && anchors[..p.examined][i] == c;
      }
    }
    assert k in all;
    var i :| 0 <= i < |all| && all[i] == k;
    assert anchors[..p.examined][i] == k;
  }

  // ---------------------------------------------------------------- any number of runs

  /** Attempts in order, each on the checkpoint the last one left; between them eligibility only
      shrinks (rows merged away). */
  ghost predicate Schedule(es: seq<Attempt>)
    decreases |es|, 0
  {
    es == [] ||
    (Schedule(es[..|es| - 1]) && Possible(Resume(es[..|es| - 1]), es[|es| - 1])
     && (|es| > 1 ==> es[|es| - 1].t.rows.Keys <= es[|es| - 2].t.rows.Keys))
  }

  ghost function Resume(es: seq<Attempt>): Option<Key>
    requires Schedule(es)
    decreases |es|, 1
  {
    if es == [] then None else Checkpoint(Resume(es[..|es| - 1]), es[|es| - 1])
  }

  /** The anchors examined since the last wrap. */
  ghost function ExaminedSinceWrap(es: seq<Attempt>): set<Key>
    requires Schedule(es)
    decreases |es|
  {
    if es == [] then {} else
      var init, e := es[..|es| - 1], es[|es| - 1];
      if Wrapped(Resume(init), e) then {} else ExaminedSinceWrap(init) + ExaminedBy(Resume(init), e)
  }

  /** Whatever fails, a row that is still eligible and lies behind the checkpoint was examined
      since the last wrap. */
  lemma {:induction false} BehindCheckpointWasExamined(es: seq<Attempt>, k: Key)
    requires Schedule(es) && es != [] && k in es[|es| - 1].t.rows && AtOrBefore(k, Resume(es))
    ensures k in ExaminedSinceWrap(es)
    decreases |es|
  {
    var init, e := es[..|es| - 1], es[|es| - 1];
    CheckpointMoves(Resume(init), e);
    if After(k, Resume(init)) {
      PassedWereExamined(Resume(init), e, k);
    } else {
      assert init[|init| - 1] == es[|es| - 2];
      BehindCheckpointWasExamined(init, k);
    }
  }

  /** So between two wraps every row eligible to the end is examined. */
  lemma WrapMeansAllExamined(es: seq<Attempt>, k: Key)
    requires Schedule(es) && |es| > 1 && Wrapped(Resume(es[..|es| - 1]), es[|es| - 1])
    requires k in es[|es| - 1].t.rows
    ensures k in ExaminedSinceWrap(es[..|es| - 1])
  {
    var init, e := es[..|es| - 1], es[|es| - 1];
    CheckpointMoves(Resume(init), e);
    assert init[|init| - 1] == es[|es| - 2];
    BehindCheckpointWasExamined(init, k);
  }

  // ---------------------------------------------------------------- the loops

  // ---------------------------------------------------------------- the selection, in the table

  /** The keyset order, and what lies past a cursor. */
  predicate KeyBefore(j: Key, k: Key) {
    if j.createdAt != k.createdAt then j.createdAt < k.createdAt else j.id < k.id
  }

  /** The first n eligible rows past the cursor by (created_at, id). */
  ghost predicate IsPage(t: Table, cursor: Option<Key>, n: nat, q: seq<Key>) {
    && |q| <= n && (forall i, j :: 0 <= i < j < |q| ==> KeyBefore(q[i], q[j]))
    && (forall k :: k in q ==> k in t.rows && (cursor != None ==> KeyBefore(cursor.value, k)))
    && (forall k :: k in t.rows && (cursor != None ==> KeyBefore(cursor.value, k)) ==>
          k in q || (|q| == n && forall x :: x in q ==> KeyBefore(x, k)))
  }

  /** The first 21 eligible rows, from the anchor on, whose similarity to it is at least 0.92. */
  ghost predicate IsNeighbourhood(t: Table, a: Key, q: seq<Key>) {
    && |q| <= 21 && (forall i, j :: 0 <= i < j < |q| ==> KeyBefore(q[i], q[j]))
    && (forall k :: k in q ==> k in t.rows && (k == a || KeyBefore(a, k)) && t.sim(k.id, a.id) >= 0.92)
    && (forall k :: k in t.rows && (k == a || KeyBefore(a, k)) && t.sim(k.id, a.id) >= 0.92 ==>
          k in q || (|q| == 21 && forall x :: x in q ==> KeyBefore(x, k)))
  }

  /** The similarity of a pair in the table, from the lesser id to the greater. */
  predicate Alike(t: Table, i: Id, j: Id) {
    if i < j then t.sim(i, j) >= 0.92 else t.sim(j, i) >= 0.92
  }

  predicate TextBefore(t: Table, j: Key, k: Key) {
    if t.text(j.createdAt) != t.text(k.createdAt) then t.text(j.createdAt) < t.text(k.createdAt) else j.id < k.id
  }

  /** The neighbours in the order of their texts, each taken exactly when it is alike to all taken
      before it; until there are 21 members, which is more than allowed. */
  ghost predicate GroupsAround(t: Table, ns: seq<Key>, c: Cluster) {
    var ms := c.members;
    && |ms| > 0 && ms[0].key == c.anchor.key && (c.oversized <==> |ms| == 21) && |ms| <= 21
    && (forall i :: 0 <= i < |ms| ==> ms[i].key in ns && ms[i].key in t.rows && ms[i].revision == t.rows[ms[i].key])
    && (forall i, j :: 1 <= i < j < |ms| ==> TextBefore(t, ms[i].key, ms[j].key))
    && forall k :: k in ns && k != c.anchor.key && (c.oversized ==> !TextBefore(t, ms[|ms| - 1].key, k)) ==>
         ((exists i :: 1 <= i < |ms| && ms[i].key == k) <==>
            forall i :: 1 <= i < |ms| && TextBefore(t, ms[i].key, k) ==> Alike(t, ms[i].key.id, k.id))
  }

  /** The row is a member of an earlier cluster that was small enough to be merged. */
  ghost predicate TakenBefore(p: Progress, a: Key) {
    exists i :: 0 <= i < |p.clusters| && KeyBefore(p.clusters[i].anchor.key, a) && !p.clusters[i].oversized
                && exists m :: m in p.clusters[i].members && m.key.id == a.id
  }

  ghost predicate HasClusterOf(p: Progress, a: Key) {
    exists i :: 0 <= i < |p.clusters| && p.clusters[i].anchor.key == a
  }

  /** They are examined in order until there are enough clusters. */
  ghost predicate Stops(anchors: seq<Key>, clusterLimit: nat, p: Progress) {
    && p.examined <= |anchors| && |p.clusters| <= clusterLimit
    && (|p.clusters| < clusterLimit ==> p.examined == |anchors|)
    && (|p.clusters| == clusterLimit && p.examined > 0 ==> HasClusterOf(p, anchors[p.examined - 1]))
    && p.last == (if p.examined == 0 then None else Some(anchors[p.examined - 1]))
  }

  /** Each cluster is the one of its anchor, in their order. */
  ghost predicate Rooted(t: Table, anchors: seq<Key>, p: Progress) {
    && (forall i, j :: 0 <= i < j < |p.clusters| ==> KeyBefore(p.clusters[i].anchor.key, p.clusters[j].anchor.key))
    && forall i :: 0 <= i < |p.clusters| ==>
         && p.clusters[i].anchor.key in anchors && p.clusters[i].anchor.key in t.rows
         && p.clusters[i] == ClusterAt(t, p.clusters[i].anchor.key)
  }

  /** An examined anchor has its cluster in the selection exactly when that has two members and no
      earlier cluster took the anchor. */
  ghost predicate Decides(t: Table, p: Progress, a: Key) {
    a in t.rows &&
    (HasClusterOf(p, a) <==>
       |Neighbours(t, a)| >= 2 && |ClusterAt(t, a).members| >= 2 && !TakenBefore(p, a))
  }

  /** The selection over a page of anchors. */
  ghost predicate IsSelection(t: Table, anchors: seq<Key>, clusterLimit: nat, p: Progress) {
    && Stops(anchors, clusterLimit, p) && Rooted(t, anchors[..p.examined], p)
    && forall k :: 0 <= k < p.examined ==> Decides(t, p, anchors[k])
  }

  /** The cluster, from the rows. */
  ghost predicate InTable(t: Table, c: Cluster) {
    exists ns :: IsNeighbourhood(t, c.anchor.key, ns) && GroupsAround(t, ns, c)
  }

  lemma AnchorsArePage(t: Table, cursor: Option<Key>, n: nat)
    ensures IsPage(t, cursor, n, Anchors(t, cursor, n))
  {
    FirstKeys(Unseen(t, cursor), n);
    hide AscendingKeys, Limit;
  }

  lemma NeighboursAreNeighbourhood(t: Table, a: Key)
    ensures IsNeighbourhood(t, a, Neighbours(t, a))
  {
    var near := Near(t, a);
    assert forall k ::
      k in near <==> k in t.rows && (k == a || KeyBefore(a, k)) && t.sim(k.id, a.id) >= 0.92;
    hide AscendingKeys, Limit, Near, KeyBefore;
    FirstKeys(near, MAX_CLUSTER_SIZE + 1);
  }

  lemma ScanIsSelection(t: Table, cursor: Option<Key>, anchorLimit: nat, clusterLimit: nat)
    ensures IsSelection(t, Anchors(t, cursor, anchorLimit), clusterLimit, Select(t, cursor, anchorLimit, clusterLimit))
  {
    var anchors := Anchors(t, cursor, anchorLimit);
    AnchorsEligible(t, cursor, anchorLimit);
    PrefixIsSelection(t, anchors, clusterLimit, |anchors|);
    assert anchors[..|anchors|] == anchors;
    hide Anchors, IsSelection, Scan;
  }

  /** The ids consumed are those of the members of clusters small enough to be merged. */
  ghost predicate Consumes(p: Progress) {
    forall id :: id in p.consumed <==>
      exists i :: 0 <= i < |p.clusters| && !p.clusters[i].oversized
                  && exists m :: m in p.clusters[i].members && m.key.id == id
  }

  lemma {:induction false} PrefixIsSelection(t: Table, anchors: seq<Key>, clusterLimit: nat, n: nat)
    requires n <= |anchors| && (forall a :: a in anchors ==> a in t.rows) && SortedBy(KeyLess, anchors)
    ensures var p := Scan(t, anchors, clusterLimit, n); IsSelection(t, anchors[..n], clusterLimit, p) && Consumes(p)
  {
    hide Examine, ClusterAt, Neighbours, IsSelection, Consumes;
    if n == 0 {
      NothingSelected(t, anchors[..0], clusterLimit);
    } else {
      PrefixIsSelection(t, anchors, clusterLimit, n - 1);
      var p := Scan(t, anchors, clusterLimit, n - 1);
      assert anchors[..n][..n - 1] == anchors[..n - 1];
      if |p.clusters| < clusterLimit {
        ExamineConsumes(t, p, anchors[n - 1]);
        SelectionGrows(t, anchors[..n], clusterLimit, p);
      } else {
        SelectionFull(t, anchors[..n], clusterLimit, p);
      }
    }
  }

  lemma NothingSelected(t: Table, anchors: seq<Key>, clusterLimit: nat)
    requires anchors == []
    ensures IsSelection(t, anchors, clusterLimit, START) && Consumes(START)
  {
  }

  lemma SelectionFull(t: Table, anchors: seq<Key>, clusterLimit: nat, p: Progress)
    requires |anchors| > 0 && IsSelection(t, anchors[..|anchors| - 1], clusterLimit, p)
    requires |p.clusters| >= clusterLimit
    ensures IsSelection(t, anchors, clusterLimit, p)
  {
    var q := anchors[..|anchors| - 1];
    assert forall k :: 0 <= k < |q| ==> anchors[k] == q[k];
    assert anchors[..p.examined] == q[..p.examined];
    hide ClusterAt, Neighbours, TakenBefore, HasClusterOf;
  }

  lemma ExamineConsumes(t: Table, p: Progress, a: Key)
    requires a in t.rows && Consumes(p)
    ensures Consumes(Examine(t, p, a))
  {
    hide ClusterAt;
    var e := Examine(t, p, a);
    if e.clusters != p.clusters {
      var c := ClusterAt(t, a);
      assert e.clusters == p.clusters + [c] && e.clusters[|p.clusters|] == c;
      assert forall i :: 0 <= i < |p.clusters| ==> e.clusters[i] == p.clusters[i];
    }
  }

  /** A consumed id is one that an earlier cluster took. */
  lemma ConsumedIsTaken(t: Table, anchors: seq<Key>, clusterLimit: nat, p: Progress, a: Key)
    requires IsSelection(t, anchors, clusterLimit, p) && Consumes(p)
    requires forall x :: x in anchors ==> KeyBefore(x, a)
    ensures a.id in p.consumed <==> TakenBefore(p, a)
  {
    forall i | 0 <= i < |p.clusters| ensures KeyBefore(p.clusters[i].anchor.key, a) {
      assert p.clusters[i].anchor.key in anchors[..p.examined];
    }
    hide IsSelection, ClusterAt, KeyBefore;
  }

  lemma SelectionGrows(t: Table, anchors: seq<Key>, clusterLimit: nat, p: Progress)
    requires |anchors| > 0 && (forall a :: a in anchors ==> a in t.rows) && SortedBy(KeyLess, anchors)
    requires IsSelection(t, anchors[..|anchors| - 1], clusterLimit, p) && Consumes(p)
    requires |p.clusters| < clusterLimit
    ensures IsSelection(t, anchors, clusterLimit, Examine(t, p, anchors[|anchors| - 1]))
  {
    hide Examine, Decides, Rooted, ClusterAt, Neighbours, TakenBefore, Consumes, KeyLess, KeyBefore;
    var q, a := anchors[..|anchors| - 1], anchors[|anchors| - 1];
    var e := Examine(t, p, a);
    forall x | x in q ensures KeyBefore(x, a) && x != a {
      var i :| 0 <= i < |q| && q[i] == x;
      assert KeyLess(anchors[i], a);
      LessIsBefore(anchors[i], a);
    }
    GrowsBy(t, p, e, a);
    assert p.examined == |q| && q[..p.examined] == q && anchors[..e.examined] == anchors;
    ConsumedIsTaken(t, q, clusterLimit, p, a);
    forall k | 0 <= k < |anchors| ensures Decides(t, e, anchors[k]) {
      if k < |q| {
        assert anchors[k] == q[k] && q[k] in q && Decides(t, p, q[k]);
        OthersStand(t, p, e, a, q[k]);
      } else {
        LastDecided(t, q, p, a);
      }
    }
    GrowsRooted(t, q, p, a);
    assert q + [a] == anchors;
    AnchorOfCluster(t, a);
    if |e.clusters| > |p.clusters| { assert e.clusters[|p.clusters|].anchor.key == a; }
  }

  lemma LessIsBefore(j: Key, k: Key)
    requires KeyLess(j, k)
    ensures KeyBefore(j, k) && j != k
  {
  }

  /** What one examination can do to the clusters. */
  ghost predicate GrownBy(t: Table, p: Progress, e: Progress, a: Key)
    requires a in t.rows
  {
    e.clusters == p.clusters || e.clusters == p.clusters + [ClusterAt(t, a)]
  }

  lemma GrowsBy(t: Table, p: Progress, e: Progress, a: Key)
    requires a in t.rows && e == Examine(t, p, a)
    ensures GrownBy(t, p, e, a) && e.examined == p.examined + 1 && e.last == Some(a)
    ensures e.clusters == p.clusters <==>
      a.id in p.consumed || |Neighbours(t, a)| < 2 || |ClusterAt(t, a).members| < 2
  {
    hide ClusterAt, Neighbours;
  }

  lemma OthersStand(t: Table, p: Progress, e: Progress, a: Key, x: Key)
    requires a in t.rows && GrownBy(t, p, e, a) && KeyBefore(x, a) && x != a && Decides(t, p, x)
    ensures Decides(t, e, x)
  {
    hide ClusterAt, Neighbours;
    var c := ClusterAt(t, a);
    assert e.clusters == p.clusters + [c] ==>
      e.clusters[|p.clusters|] == c && c.anchor.key == a by { AnchorOfCluster(t, a); }
    assert forall i :: 0 <= i < |p.clusters| ==> e.clusters[i] == p.clusters[i];
    assert HasClusterOf(e, x) <==> HasClusterOf(p, x);
    assert TakenBefore(e, x) <==> TakenBefore(p, x);
  }

  lemma AnchorOfCluster(t: Table, a: Key)
    requires a in t.rows
    ensures ClusterAt(t, a).anchor.key == a
  {
  }

  lemma LastDecided(t: Table, q: seq<Key>, p: Progress, a: Key)
    requires a in t.rows && Rooted(t, q, p) && (a.id in p.consumed <==> TakenBefore(p, a))
    requires forall x :: x in q ==> x != a
    ensures Decides(t, Examine(t, p, a), a)
  {
    hide ClusterAt, Neighbours;
    var e, c := Examine(t, p, a), ClusterAt(t, a);
    GrowsBy(t, p, e, a);
    AnchorOfCluster(t, a);
    assert !HasClusterOf(p, a);
    if e.clusters == p.clusters + [c] {
      assert e.clusters[|p.clusters|] == c;
      assert forall i :: 0 <= i < |p.clusters| ==> e.clusters[i] == p.clusters[i];
      assert TakenBefore(e, a) <==> TakenBefore(p, a);
    }
  }

  lemma GrowsRooted(t: Table, q: seq<Key>, p: Progress, a: Key)
    requires a in t.rows && Rooted(t, q, p) && forall x :: x in q ==> KeyBefore(x, a)
    ensures Rooted(t, q + [a], Examine(t, p, a))
  {
    hide ClusterAt, Neighbours;
    var e, c := Examine(t, p, a), ClusterAt(t, a);
    GrowsBy(t, p, e, a);
    AnchorOfCluster(t, a);
    assert forall i :: 0 <= i < |p.clusters| ==> e.clusters[i] == p.clusters[i];
  }

  lemma ClustersOfSelection(t: Table, anchors: seq<Key>, clusterLimit: nat, p: Progress, i: nat)
    requires IsSelection(t, anchors, clusterLimit, p) && i < |p.clusters|
    ensures p.clusters[i].anchor.key in t.rows && p.clusters[i] == ClusterAt(t, p.clusters[i].anchor.key)
  {
  }

  /** In a table a selected cluster is the greedy one of its neighbourhood. */
  lemma ClusterGroupsAround(t: Table, a: Key)
    requires Consistent(t) && a in t.rows
    ensures InTable(t, ClusterAt(t, a))
  {
    var cs, w, c := Candidates(t, a), Links(PairMap(t, a), THRESHOLD), ClusterAt(t, a);
    CandidatesDistinct(t, a);
    BuiltIsGreedy(AnchorCandidate(t, a), cs, w, MAX_CLUSTER_SIZE);
    hide BuiltCluster, IsGreedy;
    AnchorIsNeighbour(t, a);
    forall i | 0 <= i < |c.members| ensures c.members[i] in cs {
      MembersAreCandidates(t, a, c.members[i]);
    }
    GreedyGroupsAround(t, a, c);
    NeighboursAreNeighbourhood(t, a);
    hide IsNeighbourhood, GroupsAround;
  }

  lemma GreedyGroupsAround(t: Table, a: Key, c: Cluster)
    requires Consistent(t) && a in t.rows && AnchorCandidate(t, a) in Candidates(t, a)
    requires IsGreedy(AnchorCandidate(t, a), Candidates(t, a), Links(PairMap(t, a), THRESHOLD), c)
    requires forall i :: 0 <= i < |c.members| ==> c.members[i] in Candidates(t, a)
    requires (c.oversized <==> |c.members| == 21) && |c.members| <= 21
    ensures GroupsAround(t, Neighbours(t, a), c)
  {
    hide Neighbours, Candidates, PairMap, Consistent, AnchorCandidate;
    var ns, ms, w := Neighbours(t, a), c.members, Links(PairMap(t, a), THRESHOLD);
    AnchorCandidateKey(t, a);
    forall i | 0 <= i < |ms| ensures ms[i].key in ns && ms[i].key in t.rows && ms[i] == CandidateOf(t, a, ms[i].key) {
      CandidateIs(t, a, ms[i]);
    }
    forall i, j | 1 <= i < j < |ms| ensures TextBefore(t, ms[i].key, ms[j].key) {
      assert Precedes(ms[i], ms[j]);
    }
    forall k | k in ns && k != a && (c.oversized ==> !TextBefore(t, ms[|ms| - 1].key, k))
      ensures (exists i :: 1 <= i < |ms| && ms[i].key == k) <==>
        forall i :: 1 <= i < |ms| && TextBefore(t, ms[i].key, k) ==> Alike(t, ms[i].key.id, k.id)
    {
      TakenIff(t, a, c, k);
    }
  }

  lemma AnchorCandidateKey(t: Table, a: Key)
    requires a in t.rows
    ensures AnchorCandidate(t, a).key == a
  {
  }

  /** A neighbour's candidate, and its pairs with the others. */
  lemma NeighbourCandidate(t: Table, a: Key, k: Key)
    requires k in Neighbours(t, a)
    ensures k in t.rows && CandidateOf(t, a, k) in Candidates(t, a)
    ensures CandidateOf(t, a, k).similarityToAnchor >= THRESHOLD
  {
    NeighbourIs(t, a, k);
    var ns := Neighbours(t, a);
    var i :| 0 <= i < |ns| && ns[i] == k;
    assert Candidates(t, a)[i] == CandidateOf(t, a, k);
  }

  lemma MeetsIsAlike(t: Table, a: Key, x: Candidate, y: Candidate)
    requires x.key in Neighbours(t, a) && y.key in Neighbours(t, a) && x.key.id != y.key.id
    ensures Meets(Links(PairMap(t, a), THRESHOLD), x, y) <==> Alike(t, x.key.id, y.key.id)
  {
    hide Neighbours;
  }

  lemma TakenIff(t: Table, a: Key, c: Cluster, k: Key)
    requires Consistent(t) && a in t.rows && AnchorCandidate(t, a) in Candidates(t, a)
    requires IsGreedy(AnchorCandidate(t, a), Candidates(t, a), Links(PairMap(t, a), THRESHOLD), c)
    requires forall i :: 0 <= i < |c.members| ==> c.members[i] in Candidates(t, a)
    requires c.oversized ==> |c.members| > 1
    requires k in Neighbours(t, a) && k != a
    requires c.oversized ==> !TextBefore(t, c.members[|c.members| - 1].key, k)
    ensures (exists i :: 1 <= i < |c.members| && c.members[i].key == k) <==>
      forall i :: 1 <= i < |c.members| && TextBefore(t, c.members[i].key, k) ==> Alike(t, c.members[i].key.id, k.id)
  {
    hide Neighbours, Candidates, PairMap, AnchorCandidate, TextBefore, Alike, Meets, Precedes, AllBeforeMeet,
      CandidateOf;
    var ms, w := c.members, Links(PairMap(t, a), THRESHOLD);
    AnchorCandidateKey(t, a);
    NeighbourCandidate(t, a, k);
    var x := CandidateOf(t, a, k);
    CandidateKey(t, a, k);
    forall i | 0 <= i < |ms|
      ensures ms[i].key in Neighbours(t, a) && ms[i].key in t.rows && ms[i] == CandidateOf(t, a, ms[i].key)
      ensures TextBefore(t, ms[i].key, k) <==> Precedes(ms[i], x)
    {
      CandidateIs(t, a, ms[i]);
      TextIsOrder(t, a, ms[i].key, k);
    }
    assert k.id != a.id by { NeighbourIs(t, a, k); }
    MemberAt(ms, x);
    forall i | 1 <= i < |ms| && ms[i].key.id != k.id
      ensures Meets(w, ms[i], x) <==> Alike(t, ms[i].key.id, k.id)
    {
      MeetsIsAlike(t, a, ms[i], x);
    }
    BeforeAt(w, ms, x);
    forall i | 1 <= i < |ms| && Precedes(ms[i], x) ensures ms[i].key.id != k.id {
      NeighbourIs(t, a, ms[i].key);
      NeighbourIs(t, a, k);
      NotBeforeItself(x);
    }
  }

  lemma CandidateKey(t: Table, a: Key, k: Key)
    requires k in t.rows
    ensures CandidateOf(t, a, k).key == k
  {
  }

  lemma TextIsOrder(t: Table, a: Key, j: Key, k: Key)
    requires j in t.rows && k in t.rows
    ensures Precedes(CandidateOf(t, a, j), CandidateOf(t, a, k)) <==> TextBefore(t, j, k)
  {
  }

  lemma NotBeforeItself(x: Candidate)
    ensures !Precedes(x, x)
  {
  }

  lemma MemberAt(ms: seq<Candidate>, x: Candidate)
    requires |ms| > 0 && forall i :: 1 <= i < |ms| && ms[i].key == x.key ==> ms[i] == x
    ensures x in ms[1..] <==> exists i :: 1 <= i < |ms| && ms[i].key == x.key
  {
    if i :| 1 <= i < |ms| && ms[i].key == x.key { assert ms[1..][i - 1] == x; }
  }

  lemma BeforeAt(w: Links, ms: seq<Candidate>, x: Candidate)
    requires |ms| > 0
    ensures AllBeforeMeet(w, ms[1..], x) <==> forall i :: 1 <= i < |ms| && Precedes(ms[i], x) ==> Meets(w, ms[i], x)
  {
    hide Precedes, Meets;
    assert forall i :: 1 <= i < |ms| ==> ms[i] in ms[1..];
  }

  /** The checkpoint after the clusters before the failing one were decided: the last of their
      anchors; and with all decided and the run closed, the last anchor examined. */
  ghost predicate Leaves(
      before: Option<Key>, p: Progress, failAt: Option<nat>, closes: bool, after: Option<Key>)
  {
    if failAt.Some? && failAt.value < |p.clusters| then
      after == if failAt.value == 0 then before else Some(p.clusters[failAt.value - 1].anchor.key)
    else if closes then after == p.last
    else after == if |p.clusters| == 0 then before else Some(p.clusters[|p.clusters| - 1].anchor.key)
  }

  method QueryAnchors(t: Table, cursor: Option<Key>, n: nat) returns (q: seq<Key>)
    ensures q == Anchors(t, cursor, n) && IsPage(t, cursor, n, q)
  {
    AnchorsArePage(t, cursor, n);
    var rows := ListKeys(Unseen(t, cursor));
    q := Limit(rows, n);
  }

  method QueryCandidates(t: Table, a: Key) returns (candidates: seq<Candidate>, pairs: map<(Id, Id), real>)
    ensures candidates == Candidates(t, a) && pairs == PairMap(t, a)
    ensures exists ns :: IsNeighbourhood(t, a, ns) && Reads(t, a, ns, candidates, pairs)
  {
    hide IsNeighbourhood, Reads, PairsOf;
    NeighboursAreNeighbourhood(t, a);
    NeighboursAreRead(t, a);
    var rows := ListKeys(Near(t, a));
    var ks := Limit(rows, MAX_CLUSTER_SIZE + 1);
    pairs := PairsOf(t, ks);
    assert forall k :: k in ks ==> k in rows;
    candidates := ReadCandidates(t, a, ks);
  }

  /** The columns and similarities the two queries return. */
  ghost predicate Reads(t: Table, a: Key, ns: seq<Key>, candidates: seq<Candidate>, pairs: map<(Id, Id), real>) {
    && |candidates| == |ns|
    && (forall i :: 0 <= i < |ns| ==>
          && ns[i] in t.rows && candidates[i].key == ns[i] && candidates[i].revision == t.rows[ns[i]]
          && candidates[i].similarityToAnchor == t.sim(ns[i].id, a.id))
    && forall j, k :: j in ns && k in ns && j.id < k.id ==>
         (j.id, k.id) in pairs && pairs[(j.id, k.id)] == t.sim(j.id, k.id)
  }

  lemma NeighboursAreRead(t: Table, a: Key)
    ensures Reads(t, a, Neighbours(t, a), Candidates(t, a), PairMap(t, a))
  {
    hide Neighbours, Candidates, PairMap;
    var ns := Neighbours(t, a);
    forall i | 0 <= i < |ns|
      ensures ns[i] in t.rows && Candidates(t, a)[i] == CandidateOf(t, a, ns[i])
    {
      CandidateAt(t, a, i);
    }
    PairsAreRead(t, a);
  }

  lemma CandidateAt(t: Table, a: Key, i: nat)
    requires i < |Neighbours(t, a)|
    ensures Neighbours(t, a)[i] in t.rows && Candidates(t, a)[i] == CandidateOf(t, a, Neighbours(t, a)[i])
  {
    NeighbourIs(t, a, Neighbours(t, a)[i]);
    hide Neighbours;
  }

  lemma PairsAreRead(t: Table, a: Key)
    ensures forall j, k :: j in Neighbours(t, a) && k in Neighbours(t, a) && j.id < k.id ==>
      (j.id, k.id) in PairMap(t, a) && PairMap(t, a)[(j.id, k.id)] == t.sim(j.id, k.id)
  {
    hide Neighbours;
  }

  method ReadCandidates(t: Table, a: Key, ks: seq<Key>) returns (candidates: seq<Candidate>)
    requires forall k :: k in ks ==> k in t.rows
    ensures |candidates| == |ks|
    ensures forall i :: 0 <= i < |ks| ==> candidates[i] == CandidateOf(t, a, ks[i])
  {
    candidates := [];
    for n := 0 to |ks|
      invariant |candidates| == n
      invariant forall i :: 0 <= i < n ==> candidates[i] == CandidateOf(t, a, ks[i])
    {
      var k := ks[n];
      candidates := candidates + [CandidateOf(t, a, k)];
    }
  }

  method ExamineAnchor(t: Table, before: Progress, a: Key) returns (p: Progress)
    requires a in t.rows
    ensures p == Examine(t, before, a)
  {
    hide Candidates, PairMap, CandidateOf, IsNeighbourhood, Reads, BuiltCluster, IsGreedy, DistinctIds;
    p := before.(examined := before.examined + 1, last := Some(a));
    if a.id in p.consumed { return; }
    var candidates, pairs := QueryCandidates(t, a);
    if |candidates| < MIN_CLUSTER_SIZE { return; }
    FoundIsNeighbour(t, a);
    var found := exists c :: c in candidates && c.key == a;
    var anchor := if found then CandidateOf(t, a, a) else Candidate(a, t.text(a.createdAt), t.rows[a], 1.0);
    var cluster := BuildCompleteLinkCluster(anchor, candidates, Links(pairs, THRESHOLD), MAX_CLUSTER_SIZE);
    if |cluster.members| < MIN_CLUSTER_SIZE { return; }
    p := p.(clusters := p.clusters + [cluster]);
    if !cluster.oversized {
      p := p.(consumed := p.consumed + set m | m in cluster.members :: m.key.id);
    }
  }

  method SelectClusters(t: Table, cursor: Option<Key>, anchorLimit: nat, clusterLimit: nat) returns (p: Progress)
    ensures p == Select(t, cursor, anchorLimit, clusterLimit)
    ensures exists anchors :: IsPage(t, cursor, anchorLimit, anchors) && IsSelection(t, anchors, clusterLimit, p)
    ensures Consistent(t) ==> forall c :: c in p.clusters ==> InTable(t, c)
  {
    hide Examine, Anchors, IsPage, IsSelection, InTable, Consistent, ClusterAt;
    var anchors := QueryAnchors(t, cursor, anchorLimit);
    ScanIsSelection(t, cursor, anchorLimit, clusterLimit);
    AnchorsEligible(t, cursor, anchorLimit);
    p := START;
    var i := 0;
    while i < |anchors| && |p.clusters| < clusterLimit
      invariant 0 <= i <= |anchors| && p == Scan(t, anchors, clusterLimit, i)
    {
      p := ExamineAnchor(t, p, anchors[i]);
      i := i + 1;
    }
    ScanStops(t, anchors, clusterLimit, i);
    if Consistent(t) {
      forall c | c in p.clusters ensures InTable(t, c) {
        var i :| 0 <= i < |p.clusters| && p.clusters[i] == c;
        ClustersOfSelection(t, anchors, clusterLimit, p, i);
        ClusterGroupsAround(t, c.anchor.key);
      }
    }
  }

  lemma FoundIsNeighbour(t: Table, a: Key)
    ensures (exists c :: c in Candidates(t, a) && c.key == a) <==> a in Neighbours(t, a)
  {
    var ks := Neighbours(t, a);
    if a in ks {
      var i :| 0 <= i < |ks| && ks[i] == a;
      assert Candidates(t, a)[i].key == a;
    }
    if c :| c in Candidates(t, a) && c.key == a {
      CandidateIs(t, a, c);
    }
  }

  lemma {:induction false} ScanStops(t: Table, anchors: seq<Key>, clusterLimit: nat, i: nat)
    requires i <= |anchors| && (forall a :: a in anchors ==> a in t.rows)
    requires i < |anchors| ==> |Scan(t, anchors, clusterLimit, i).clusters| >= clusterLimit
    ensures Scan(t, anchors, clusterLimit, i) == Scan(t, anchors, clusterLimit, |anchors|)
    decreases |anchors| - i
  {
    hide Examine;
    if i < |anchors| {
      ScanStops(t, anchors, clusterLimit, i + 1);
    }
  }

  /** The durable checkpoint row, advanced with each decided cluster and by the closing
      transaction; `failAt` is the cluster whose processing throws, if any. */
  class ConsolidationJob {
    var checkpoint: Option<Key>

    constructor ()
      ensures checkpoint == None
    {
      checkpoint := None;
    }

    method Apply(t: Table, anchorLimit: nat, clusterLimit: nat, failAt: Option<nat>, closes: bool)
      returns (ghost attempt: Attempt)
      requires 1 <= anchorLimit && 1 <= clusterLimit
      modifies this
      ensures attempt.t == t && Possible(old(checkpoint), attempt)
      ensures checkpoint == Checkpoint(old(checkpoint), attempt)
      ensures attempt.completed <==>
        attempt.decided == |Select(t, old(checkpoint), anchorLimit, clusterLimit).clusters| && closes
      ensures exists anchors, p ::
        && IsPage(t, old(checkpoint), anchorLimit, anchors) && IsSelection(t, anchors, clusterLimit, p)
        && Leaves(old(checkpoint), p, failAt, closes, checkpoint)
    {
      hide IsPage, IsSelection, InTable, Consistent;
      var p := SelectClusters(t, checkpoint, anchorLimit, clusterLimit);
      ghost var anchors :| IsPage(t, checkpoint, anchorLimit, anchors) && IsSelection(t, anchors, clusterLimit, p);
      var i := 0;
      while i < |p.clusters| && failAt != Some(i)
        invariant 0 <= i <= |p.clusters| && (failAt.Some? && failAt.value < |p.clusters| ==> i <= failAt.value)
        invariant checkpoint == if i == 0 then old(checkpoint) else Some(p.clusters[i - 1].anchor.key)
      {
        checkpoint := Some(p.clusters[i].anchor.key);
        i := i + 1;
      }
      if i == |p.clusters| && closes {
        checkpoint := p.last;
      }
      attempt := Attempt(t, anchorLimit, clusterLimit, i, i == |p.clusters| && closes);
      assert Leaves(old(checkpoint), p, failAt, closes, checkpoint);
    }
  }
}
