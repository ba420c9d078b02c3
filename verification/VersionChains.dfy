/** What the finalizer's preflight buys: it only checks rows and single links, yet the supersession
    links of an accepted table form disjoint finite chains with one version per instant. */
module VersionChains {
  import opened Prelude
  import opened MemoryValidity

  predicate Supersedes(t: Table, later: Id, earlier: Id) {
    later in t && t[later].supersedesId == Some(earlier)
  }

  predicate IsRoot(t: Table, id: Id) {
    id in t && t[id].supersedesId.None?
  }

  predicate HasSuccessor(t: Table, id: Id) {
    exists later :: later in t && Supersedes(t, later, id)
  }

  /** A succession of versions, each superseding the one before it. */
  ghost predicate Chain(t: Table, p: seq<Id>) {
    && |p| > 0 && p[0] in t
    && forall i :: 0 < i < |p| ==> Supersedes(t, p[i], p[i - 1])
  }

  ghost predicate ChainFromRoot(t: Table, p: seq<Id>, id: Id) {
    Chain(t, p) && IsRoot(t, p[0]) && p[|p| - 1] == id
  }

  // ---------------------------------------------------------------- order along a chain

  /** A link leads from a row that exists and ends where the next begins, strictly later than its
      own start. */
  lemma LinkAdvances(t: Table, later: Id, earlier: Id)
    requires Accepted(t) && Supersedes(t, later, earlier)
    ensures earlier in t && t[earlier].validTo == t[later].validFrom
    ensures t[earlier].validFrom.value < t[later].validFrom.value
  {
  }

  lemma {:induction false} ChainAdvances(t: Table, p: seq<Id>, i: nat, j: nat)
    requires Accepted(t) && Chain(t, p) && i < j < |p|
    ensures p[i] in t && p[j] in t && t[p[i]].validTo.Some?
    ensures t[p[i]].validFrom.value < t[p[i]].validTo.value <= t[p[j]].validFrom.value
    decreases j - i
  {
    LinkAdvances(t, p[j], p[j - 1]);
    LinkAdvances(t, p[i + 1], p[i]);
    if i + 1 < j { ChainAdvances(t, p, i + 1, j); }
  }

  /** No version is reached twice: there is no cycle, and a chain is no longer than the table. */
  lemma {:induction false} ChainsAreFinite(t: Table, p: seq<Id>)
    requires Accepted(t) && Chain(t, p)
    ensures forall i, j :: 0 <= i < j < |p| ==> p[i] != p[j]
    ensures |p| <= |t|
  {
    forall i, j | 0 <= i < j < |p| ensures p[i] != p[j] {
      ChainAdvances(t, p, i, j);
    }
    forall i | 0 <= i < |p| ensures p[i] in t.Keys {
      assert i > 0 ==> Supersedes(t, p[i], p[i - 1]);
    }
    Distinct(p, t.Keys);
  }

  lemma {:induction false} Distinct(p: seq<Id>, s: set<Id>)
    requires forall i, j :: 0 <= i < j < |p| ==> p[i] != p[j]
    requires forall i :: 0 <= i < |p| ==> p[i] in s
    ensures |p| <= |s|
  {
    if |p| > 0 {
      Distinct(p[1..], s - {p[0]});
    }
  }

  // ---------------------------------------------------------------- the chain of a version

  function Starting(t: Table, before: Instant): set<Id> {
    set id | id in t && t[id].validFrom.Some? && t[id].validFrom.value < before
  }

  lemma StartingShrinks(t: Table, a: Id, b: Id)
    requires a in t && b in t && t[a].validFrom.Some? && t[b].validFrom.Some?
    requires t[a].validFrom.value < t[b].validFrom.value
    ensures |Starting(t, t[a].validFrom.value)| < |Starting(t, t[b].validFrom.value)|
  {
    var x, y := Starting(t, t[a].validFrom.value), Starting(t, t[b].validFrom.value);
    assert x <= y && a in y && a !in x;
    assert |y| == |x| + |y - x|;
  }

  /** The versions from the root to this one, found by following supersedes_id back; that this ends
      is the acyclicity. */
  ghost function History(t: Table, id: Id): (p: seq<Id>)
    requires Accepted(t) && id in t
    ensures ChainFromRoot(t, p, id)
    decreases |Starting(t, t[id].validFrom.value)|
  {
    if t[id].supersedesId.None? then [id]
    else
      var earlier := t[id].supersedesId.value;
      LinkAdvances(t, id, earlier);
      StartingShrinks(t, earlier, id);
      History(t, earlier) + [id]
  }

  ghost function Root(t: Table, id: Id): (r: Id)
    requires Accepted(t) && id in t
    ensures IsRoot(t, r)
  {
    History(t, id)[0]
  }

  /** Chains do not branch: two chains of one root are one the beginning of the other. */
  lemma {:induction false} ChainsDoNotBranch(t: Table, p: seq<Id>, q: seq<Id>)
    requires Accepted(t) && Chain(t, p) && Chain(t, q) && p[0] == q[0]
    ensures p <= q || q <= p
    decreases |p|
  {
    if |p| > 1 {
      var rest := p[..|p| - 1];
      ChainsDoNotBranch(t, rest, q);
      if |p| <= |q| {
        assert rest[|p| - 2] == p[|p| - 2] == q[|p| - 2];
        assert Supersedes(t, p[|p| - 1], p[|p| - 2]) && Supersedes(t, q[|p| - 1], p[|p| - 2]);
        assert p[|p| - 1] == q[|p| - 1];
        assert p == q[..|p|];
      }
    }
  }

  /** Nor do they merge: there is one way back to a root. */
  lemma {:induction false} HistoryIsUnique(t: Table, p: seq<Id>, id: Id)
    requires Accepted(t) && id in t && ChainFromRoot(t, p, id)
    ensures p == History(t, id)
    decreases |p|
  {
    if |p| == 1 {
      assert p == [id];
    } else {
      var rest := p[..|p| - 1];
      LinkAdvances(t, id, p[|p| - 2]);
      HistoryIsUnique(t, rest, p[|p| - 2]);
      assert p == rest + [id];
    }
  }

  lemma LastEndsChains(t: Table, p: seq<Id>, q: seq<Id>)
    requires Accepted(t) && Chain(t, p) && Chain(t, q) && p[0] == q[0] && !HasSuccessor(t, q[|q| - 1])
    ensures p <= q
  {
    ChainsDoNotBranch(t, p, q);
    assert |p| > |q| ==> Supersedes(t, p[|q|], p[|q| - 1]);
  }

  ghost predicate SameFamily(t: Table, a: Id, b: Id)
    requires Accepted(t)
  {
    a in t && b in t && Root(t, a) == Root(t, b)
  }

  /** The versions of a root are exactly the chain that leads to its last version. */
  lemma FamilyIsChain(t: Table, last: Id, id: Id)
    requires Accepted(t) && last in t && !HasSuccessor(t, last)
    ensures SameFamily(t, id, last) <==> id in History(t, last)
  {
    var q := History(t, last);
    if SameFamily(t, id, last) {
      var p := History(t, id);
      LastEndsChains(t, p, q);
      assert q[|p| - 1] == id;
    }
    if id in q {
      var i :| 0 <= i < |q| && q[i] == id;
      VersionOfChain(t, q, i);
    }
  }

  lemma VersionOfChain(t: Table, q: seq<Id>, i: nat)
    requires Accepted(t) && Chain(t, q) && IsRoot(t, q[0]) && i < |q|
    ensures q[i] in t && Root(t, q[i]) == q[0]
  {
    assert i > 0 ==> Supersedes(t, q[i], q[i - 1]);
    HistoryIsUnique(t, q[..i + 1], q[i]);
  }

  /** Every family has a last version. */
  lemma {:induction false} LastExists(t: Table, id: Id) returns (last: Id)
    requires Accepted(t) && id in t
    ensures SameFamily(t, id, last) && !HasSuccessor(t, last)
    decreases |t| - |History(t, id)|
  {
    last := id;
    ChainsAreFinite(t, History(t, id));
    if HasSuccessor(t, id) {
      var later :| later in t && Supersedes(t, later, id);
      LinkAdvances(t, later, id);
      HistoryIsUnique(t, History(t, id) + [later], later);
      ChainsAreFinite(t, History(t, later));
      last := LastExists(t, later);
    }
  }

  /** It is the only one. */
  lemma LastIsUnique(t: Table, a: Id, b: Id)
    requires Accepted(t) && SameFamily(t, a, b) && !HasSuccessor(t, a) && !HasSuccessor(t, b)
    ensures a == b
  {
    LastEndsChains(t, History(t, a), History(t, b));
    LastEndsChains(t, History(t, b), History(t, a));
  }

  // ---------------------------------------------------------------- one version per instant

  /** Versions of one root are never valid together. */
  lemma AtMostOneValid(t: Table, a: Id, b: Id, at: Instant)
    requires Accepted(t) && ValidAt(t, a, at) && ValidAt(t, b, at) && SameFamily(t, a, b)
    ensures a == b
  {
    var p, q := History(t, a), History(t, b);
    ChainsDoNotBranch(t, p, q);
    if |p| < |q| {
      assert q[|p| - 1] == a;
      ChainAdvances(t, q, |p| - 1, |q| - 1);
    } else if |q| < |p| {
      assert p[|q| - 1] == b;
      ChainAdvances(t, p, |q| - 1, |p| - 1);
    }
  }

  /** The instants at which a chain has begun and not ended. */
  ghost predicate Covers(t: Table, p: seq<Id>, at: Instant)
    requires Accepted(t) && Chain(t, p) && p[|p| - 1] in t
  {
    t[p[0]].validFrom.value <= at && (t[p[|p| - 1]].validTo.Some? ==> at < t[p[|p| - 1]].validTo.value)
  }

  lemma {:induction false} SomeVersionValid(t: Table, p: seq<Id>, at: Instant) returns (i: nat)
    requires Accepted(t) && Chain(t, p) && p[|p| - 1] in t && Covers(t, p, at)
    ensures i < |p| && ValidAt(t, p[i], at)
    decreases |p|
  {
    var n := |p| - 1;
    if n == 0 || t[p[n]].validFrom.value <= at {
      i := n;
    } else {
      LinkAdvances(t, p[n], p[n - 1]);
      i := SomeVersionValid(t, p[..n], at);
    }
  }

  /** Of the family of a last version, one version is valid from the root's start until the last
      one's end, without a gap, and none outside; with AtMostOneValid, exactly one. */
  lemma OneVersionPerInstant(t: Table, last: Id, at: Instant)
    requires Accepted(t) && last in t && !HasSuccessor(t, last)
    ensures (exists id :: SameFamily(t, id, last) && ValidAt(t, id, at)) <==> Covers(t, History(t, last), at)
  {
    var q := History(t, last);
    if Covers(t, q, at) {
      var i := SomeVersionValid(t, q, at);
      FamilyIsChain(t, last, q[i]);
      assert SameFamily(t, q[i], last);
    }
    forall id | SameFamily(t, id, last) && ValidAt(t, id, at) ensures Covers(t, q, at) {
      FamilyIsChain(t, last, id);
      var i :| 0 <= i < |q| && q[i] == id;
      ValidInsideChain(t, q, i, at);
    }
  }

  lemma ValidInsideChain(t: Table, q: seq<Id>, i: nat, at: Instant)
    requires Accepted(t) && Chain(t, q) && q[|q| - 1] in t && i < |q| && ValidAt(t, q[i], at)
    ensures Covers(t, q, at)
  {
    if i > 0 { ChainAdvances(t, q, 0, i); }
    if i < |q| - 1 {
      ChainAdvances(t, q, i, |q| - 1);
      assert !AtMost(t[q[|q| - 1]].validTo, t[q[|q| - 1]].validFrom);
    }
  }

  /** An open version is the last of its chain, so the guard against an existing successor never
      decides in an accepted table. */
  lemma OpenIsLast(t: Table, id: Id)
    requires Accepted(t) && id in t && t[id].validTo.None?
    ensures !HasSuccessor(t, id)
  {
  }
}
