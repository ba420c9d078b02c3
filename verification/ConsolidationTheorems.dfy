/** The promises of the consolidation contract, for every reachable state. */
module ConsolidationTheorems {
  import opened Prelude
  import opened Ordering
  import opened ConsolidationStore
  import opened ConsolidationSafety

  ghost predicate OnlyActive(s: State, id: Id, k: nat) {
    && Active(s, k) && s.memberships[k].member == id
    && forall j :: 0 <= j < |s.memberships| && Active(s, j) && s.memberships[j].member == id ==> j == k
  }

  lemma EmptyInv()
    ensures Inv(EMPTY)
  {
  }

  lemma LinkHasOnlyActive(s: State, id: Id)
    requires Inv(s) && id in s.rows && s.rows[id].link.Some?
    ensures exists k: nat :: OnlyActive(s, id, k) && LinksTo(s.rows[id], s.memberships[k].canonical)
  {
  }

  /** A memory is linked to `c` exactly when it has one active membership and that one names `c`;
      and links have depth one. */
  lemma LinkedIffOneActiveMembership(ts: seq<Step>, id: Id, c: Id)
    requires id in Run(EMPTY, ts).rows
    ensures var s := Run(EMPTY, ts);
      LinksTo(s.rows[id], c) <==> exists k: nat :: OnlyActive(s, id, k) && s.memberships[k].canonical == c
    ensures var s := Run(EMPTY, ts);
      LinksTo(s.rows[id], c) ==>
        c in s.rows && s.rows[c].link.None? && forall k :: 0 <= k < |s.memberships| ==> s.memberships[k].member != c
  {
    EmptyInv();
    RunKeeps(EMPTY, ts);
    var s := Run(EMPTY, ts);
    if LinksTo(s.rows[id], c) {
      LinkHasOnlyActive(s, id);
      LinkTargetIsCanonical(s, id);
    }
  }

  // ---------------------------------------------------------------- replay and double merges

  /** With every guard passed, the source key is new and no membership is in the way. */
  lemma FreshRequestsAreUnopposed(s: State, q: ClusterRequest)
    requires Inv(s) && RequestOk(s, q) && Fresh(s, q)
    ensures Conflicts(s, q) == {}
    ensures forall k :: 0 <= k < |s.memberships| && Active(s, k) ==> s.memberships[k].member !in q.loaded
  {
  }

  /** The replay branch is never taken: a request is stale, or aborted because a member expires
      before the linking statement, or merged under its fresh canonical. */
  lemma ReplayNeverRebinds(ts: seq<Step>, q: ClusterRequest)
    requires RequestOk(Run(EMPTY, ts), q)
    ensures var s := Run(EMPTY, ts);
      ApplyCluster(s, q).0 ==
        if !Fresh(s, q) then Stale
        else if forall id :: id in q.loaded ==> Unexpired(s.rows[id], q.linkedAt) then Merged(q.canonicalId)
        else Aborted
  {
    EmptyInv();
    RunKeeps(EMPTY, ts);
    var s := Run(EMPTY, ts);
    if Fresh(s, q) {
      FreshRequestsAreUnopposed(s, q);
    }
  }

  lemma {:induction false} RunEvolves(s: State, ts: seq<Step>)
    ensures RowsEvolve(s, Run(s, ts)) && LogEvolves(s, Run(s, ts))
  {
    if ts != [] {
      var u := Run(s, ts[..|ts| - 1]);
      RunEvolves(s, ts[..|ts| - 1]);
      StepEvolves(u, ts[|ts| - 1]);
      EvolutionComposes(s, u, Run(s, ts));
    }
  }

  lemma EvolutionComposes(s: State, u: State, t: State)
    requires RowsEvolve(s, u) && LogEvolves(s, u) && RowsEvolve(u, t) && LogEvolves(u, t)
    ensures RowsEvolve(s, t) && LogEvolves(s, t)
  {
  }

  lemma LinkEvolves(s: State, q: ClusterRequest)
    requires RequestOk(s, q)
    ensures RowsEvolve(s, AfterLink(s, q)) && LogEvolves(s, AfterLink(s, q))
  {
  }

  /** A cluster request changes the tables only by linking. */
  lemma ApplyClusterCases(s: State, q: ClusterRequest)
    ensures if ApplyCluster(s, q).0.Merged? then Fresh(s, q) && CanLink(s, q) && ApplyCluster(s, q).1 == AfterLink(s, q)
            else ApplyCluster(s, q).1 == s
  {
  }

  lemma StepEvolves(s: State, t: Step)
    ensures RowsEvolve(s, Next(s, t)) && LogEvolves(s, Next(s, t))
  {
    if Enabled(s, t) {
      match t
      case Insert(id, row) =>
        assert Next(s, t) == s.(rows := s.rows[id := row]);
      case Consolidate(q) =>
        ApplyClusterCases(s, q);
        LinkEvolves(s, q);
      case ForgetRows(q) =>
        ForgetEvolves(s, q);
      case Deconsolidate(auth, m, at) =>
        EntriesEvolve(s, auth, m.namespace, m.canonicals, at);
    }
  }

  lemma {:induction false} EntriesEvolve(
      s: State, auth: Caller, namespace: string, es: seq<CanonicalEntry>, at: Instant)
    requires ApplyEntries(s, auth, namespace, es, at).Some?
    ensures var t := ApplyEntries(s, auth, namespace, es, at).value;
      RowsEvolve(s, t) && LogEvolves(s, t) && s.rows.Keys == t.rows.Keys && |s.memberships| == |t.memberships|
    decreases |es|
  {
    if es != [] {
      var u := ReleaseCanonical(s, auth, es[0], at);
      ReleaseMemberships(s, auth, es[0], at);
      ReleaseRows(s, auth, es[0], at);
      EntriesEvolve(u, auth, namespace, es[1..], at);
      EvolutionComposes(s, u, ApplyEntries(u, auth, namespace, es[1..], at).value);
    }
  }

  /** A request that carries a version its row has moved past is stale. */
  lemma SpentVersionIsStale(s: State, r: ClusterRequest, f: Fingerprint)
    requires f in r.loaded.Values && (forall id :: id in r.loaded ==> r.loaded[id].id == id)
    requires f.id in s.rows && f.revision < s.rows[f.id].revision
    ensures ApplyCluster(s, r) == (Stale, s)
  {
  }

  lemma MergeSpendsVersions(s: State, q: ClusterRequest, f: Fingerprint)
    requires RequestOk(s, q) && Fresh(s, q) && f in q.loaded.Values
    ensures f.id in AfterLink(s, q).rows && f.revision < AfterLink(s, q).rows[f.id].revision
  {
  }

  /** Once a cluster is merged, any request loaded from one of the same member versions (a retry,
      or a cluster of the same selection that overlaps it) is stale in every later state. */
  lemma MergedVersionsAreSpent(s: State, q: ClusterRequest, later: seq<Step>, r: ClusterRequest, f: Fingerprint)
    requires RequestOk(s, q) && ApplyCluster(s, q).0.Merged?
    requires f in q.loaded.Values && f in r.loaded.Values
    requires forall id :: id in r.loaded ==> r.loaded[id].id == id
    ensures ApplyCluster(Run(ApplyCluster(s, q).1, later), r) == (Stale, Run(ApplyCluster(s, q).1, later))
  {
    ApplyClusterCases(s, q);
    var s1 := AfterLink(s, q);
    MergeSpendsVersions(s, q, f);
    RunEvolves(s1, later);
    assert Evolves(s1.rows[f.id], Run(s1, later).rows[f.id]);
    SpentVersionIsStale(Run(s1, later), r, f);
  }

  // ---------------------------------------------------------------- active memberships only shrink

  lemma ActiveShrinks(s: State, u: State, c: Id)
    requires LogEvolves(s, u) && |s.memberships| == |u.memberships|
    ensures ActiveOf(u, c) <= ActiveOf(s, c)
  {
    forall k | k in ActiveOf(u, c) ensures k in ActiveOf(s, c) {
      assert SameEntry(s.memberships[k], u.memberships[k]);
    }
  }

  lemma SameLog(s: State, u: State, c: Id)
    requires u.memberships == s.memberships
    ensures ActiveOf(u, c) == ActiveOf(s, c)
  {
  }

  lemma LinkLeavesOthers(s: State, q: ClusterRequest, c: Id)
    requires RequestOk(s, q) && c in s.rows
    ensures ActiveOf(AfterLink(s, q), c) <= ActiveOf(s, c)
  {
    LinkMemberships(s, q);
    hide NewMemberships, MemberOrder;
  }

  lemma StepNeverGrows(s: State, t: Step, c: Id)
    requires c in s.rows
    ensures ActiveOf(Next(s, t), c) <= ActiveOf(s, c)
  {
    hide ActiveOf, ApplyCluster, AfterLink, Forget, ApplyEntries, Ordinary;
    if Enabled(s, t) {
      match t
      case Insert(id, row) =>
        SameLog(s, Next(s, t), c);
      case Consolidate(q) =>
        ApplyClusterCases(s, q);
        LinkLeavesOthers(s, q, c);
      case ForgetRows(q) =>
        ForgetEvolves(s, q);
        SameLog(s, Forget(s, q).1, c);
      case Deconsolidate(auth, m, at) =>
        EntriesEvolve(s, auth, m.namespace, m.canonicals, at);
        ActiveShrinks(s, ApplyManifest(s, auth, m, at).value, c);
    }
  }

  lemma {:induction false} ActiveNeverGrows(s: State, ts: seq<Step>, c: Id)
    requires c in s.rows
    ensures ActiveOf(Run(s, ts), c) <= ActiveOf(s, c)
  {
    if ts != [] {
      var p := ts[..|ts| - 1];
      ActiveNeverGrows(s, p, c);
      RunEvolves(s, p);
      StepNeverGrows(Run(s, p), ts[|ts| - 1], c);
    }
  }

  lemma ActiveIsLinked(s: State, c: Id, k: nat)
    requires Inv(s) && k in ActiveOf(s, c)
    ensures k < |s.memberships| && s.memberships[k].member in LinkedTo(s, c)
  {
    assert Active(s, k);
  }

  lemma OneActivePerMember(s: State, c: Id, j: nat, k: nat)
    requires Inv(s) && j in ActiveOf(s, c) && Active(s, k) && s.memberships[j].member == s.memberships[k].member
    ensures j == k
  {
    assert Active(s, j);
  }

  lemma LinkIsLinkedTo(s: State, c: Id, id: Id)
    requires id in s.rows && LinksTo(s.rows[id], c)
    ensures id in LinkedTo(s, c)
  {
  }

  lemma LinkedMembership(p: State, c: Id, id: Id) returns (k: nat)
    requires Inv(p) && id in LinkedTo(p, c)
    ensures k in ActiveOf(p, c) && Active(p, k) && p.memberships[k].canonical == c && p.memberships[k].member == id
  {
    LinkHasOnlyActive(p, id);
    k :| OnlyActive(p, id, k) && LinksTo(p.rows[id], p.memberships[k].canonical);
  }
}
