/** What every run of inserts, consolidations, forgets and deconsolidations keeps. */
module ConsolidationSafety {
  import opened Prelude
  import opened Ordering
  import opened ConsolidationStore

  // ---------------------------------------------------------------- runs

  datatype Step =
    | Insert(id: Id, row: Memory)
    | Consolidate(cluster: ClusterRequest)
    | ForgetRows(selector: ForgetRequest)
    | Deconsolidate(auth: Caller, manifest: Manifest, at: Instant)

  /** An ordinary writer adds an unlinked row under an unused id; only applyCluster writes
      consolidation rows and their source keys. */
  predicate Ordinary(s: State, id: Id, m: Memory) {
    && id !in s.rows && m.base.kind != Consolidation && m.link.None?
    && (m.base.sourceKey.Some? ==> m.base.sourceKey.value.ForeignKey?)
  }

  ghost predicate Enabled(s: State, t: Step) {
    match t
    case Insert(id, row) => Ordinary(s, id, row)
    case Consolidate(q) => RequestOk(s, q)
    case ForgetRows(q) => true
    case Deconsolidate(auth, m, at) => ApplyManifest(s, auth, m, at).Some?
  }

  /** A request that is not enabled leaves the tables alone. */
  ghost function Next(s: State, t: Step): State {
    if !Enabled(s, t) then s else
      match t
      case Insert(id, row) => s.(rows := s.rows[id := row])
      case Consolidate(q) => ApplyCluster(s, q).1
      case ForgetRows(q) => Forget(s, q).1
      case Deconsolidate(auth, m, at) => ApplyManifest(s, auth, m, at).value
  }

  ghost function Run(s: State, ts: seq<Step>): State {
    if ts == [] then s else Next(Run(s, ts[..|ts| - 1]), ts[|ts| - 1])
  }

  const EMPTY := State(map[], [])

  // ---------------------------------------------------------------- invariant

  /** Every membership, closed or not, joins an original to a canonical of the same owner and
      namespace. */
  ghost predicate Typed(s: State) {
    forall k :: 0 <= k < |s.memberships| ==>
      && var e := s.memberships[k];
      && e.member in s.rows && s.rows[e.member].base.kind == Semantic
      && e.canonical in s.rows && s.rows[e.canonical].base.kind == Consolidation
      && e.owner == s.rows[e.canonical].base.owner && e.namespace == s.rows[e.canonical].base.namespace
  }

  ghost predicate ActiveNamesLink(s: State) {
    forall k :: 0 <= k < |s.memberships| && Active(s, k) ==>
      s.memberships[k].member in s.rows && LinksTo(s.rows[s.memberships[k].member], s.memberships[k].canonical)
  }

  ghost predicate OneActive(s: State) {
    forall j, k :: 0 <= j < k < |s.memberships| && Active(s, j) && Active(s, k) ==>
      s.memberships[j].member != s.memberships[k].member
  }

  ghost predicate HasActive(s: State, id: Id) {
    exists k :: 0 <= k < |s.memberships| && Active(s, k) && s.memberships[k].member == id
  }

  ghost predicate LinksHaveActive(s: State) {
    forall id :: id in s.rows && s.rows[id].link.Some? ==> HasActive(s, id)
  }

  /** Between link and unlink a member is one revision past the one its membership recorded. */
  ghost predicate RevisionsRecorded(s: State) {
    forall k :: 0 <= k < |s.memberships| && Active(s, k) && s.memberships[k].member in s.rows ==>
      s.rows[s.memberships[k].member].revision == s.memberships[k].memberRevision + 1
  }

  predicate KeyNames(m: Memory, f: Fingerprint) {
    m.base.sourceKey.Some? && m.base.sourceKey.value.CanonicalKey? && f in m.base.sourceKey.value.members
  }

  /** A consolidation source key only names revisions its members have since moved past. */
  ghost predicate KeysSpent(s: State) {
    forall id, f :: id in s.rows && KeyNames(s.rows[id], f) ==> f.id in s.rows && f.revision < s.rows[f.id].revision
  }

  predicate IsForgotten(s: State, id: Id) {
    id in s.rows && Deleted(s.rows[id])
  }

  /** A forgotten member's canonical is forgotten. */
  ghost predicate ForgottenTogether(s: State) {
    forall k :: 0 <= k < |s.memberships| && Active(s, k) && IsForgotten(s, s.memberships[k].member) ==>
      IsForgotten(s, s.memberships[k].canonical)
  }

  /** Canonicals are never linked, so no trigger advances them. */
  ghost predicate CanonicalsAreRoots(s: State) {
    forall id :: id in s.rows && s.rows[id].base.kind == Consolidation ==>
      s.rows[id].link.None? && s.rows[id].base.expiresAt.None? && s.rows[id].revision == 0
  }

  ghost predicate Inv(s: State) {
    && Typed(s) && ActiveNamesLink(s) && OneActive(s) && LinksHaveActive(s) && RevisionsRecorded(s)
    && KeysSpent(s) && ForgottenTogether(s) && CanonicalsAreRoots(s)
  }

  // ---------------------------------------------------------------- how rows evolve

  /** What no step changes in a row, what only grows, and that a tombstone is final. */
  predicate Evolves(m: Memory, n: Memory) {
    && n.base == m.base && m.revision <= n.revision && (Deleted(m) ==> n.tombstone.at == m.tombstone.at)
  }

  ghost predicate RowsEvolve(s: State, t: State) {
    forall id :: id in s.rows ==> id in t.rows && Evolves(s.rows[id], t.rows[id])
  }

  /** The membership log only grows, and only `deconsolidatedAt` of an open entry changes. */
  predicate SameEntry(a: Membership, b: Membership) {
    b == a || (a.deconsolidatedAt.None? && b == a.(deconsolidatedAt := b.deconsolidatedAt))
  }

  ghost predicate LogEvolves(s: State, t: State) {
    && |s.memberships| <= |t.memberships|
    && forall k :: 0 <= k < |s.memberships| ==> SameEntry(s.memberships[k], t.memberships[k])
  }

  lemma EvolutionKeeps(s: State, t: State)
    requires Typed(s) && KeysSpent(s)
    requires s.rows.Keys == t.rows.Keys && |s.memberships| == |t.memberships|
    requires RowsEvolve(s, t) && LogEvolves(s, t)
    ensures Typed(t) && KeysSpent(t)
  {
  }

  // ---------------------------------------------------------------- preservation, step by step

  lemma InsertKeeps(s: State, id: Id, row: Memory)
    requires Inv(s) && Ordinary(s, id, row)
    ensures Inv(s.(rows := s.rows[id := row]))
  {
  }

  lemma LinkMembershipAt(s: State, q: ClusterRequest, id: Id)
    requires id in q.loaded
    ensures HasActive(AfterLink(s, q), id)
  {
    var ids := MemberOrder(q);
    var i :| 0 <= i < |ids| && ids[i] == id;
    assert AfterLink(s, q).memberships[|s.memberships| + i] == NewMembership(q, id);
    assert Active(AfterLink(s, q), |s.memberships| + i);
  }

  lemma LinkKeepsOneActive(s: State, q: ClusterRequest)
    requires OneActive(s) && CanLink(s, q)
    ensures OneActive(AfterLink(s, q))
  {
  }

  /** Old positions are untouched; new ones hold the loaded members in order. */
  lemma LinkMemberships(s: State, q: ClusterRequest)
    ensures var t, n := AfterLink(s, q), |s.memberships|;
      && (forall k :: 0 <= k < n ==> t.memberships[k] == s.memberships[k] && Active(t, k) == Active(s, k))
      && (forall k :: n <= k < |t.memberships| ==>
            t.memberships[k].member in q.loaded && t.memberships[k] == NewMembership(q, t.memberships[k].member))
  {
  }

  lemma LinkKeepsTyped(s: State, q: ClusterRequest)
    requires Typed(s) && RequestOk(s, q) && Fresh(s, q)
    ensures Typed(AfterLink(s, q))
  {
    LinkMemberships(s, q);
    hide NewMemberships, MemberOrder, KeyOf, Unexpired;
  }

  lemma LinkKeepsActiveNamesLink(s: State, q: ClusterRequest)
    requires Typed(s) && ActiveNamesLink(s) && RequestOk(s, q) && Fresh(s, q) && CanLink(s, q)
    ensures ActiveNamesLink(AfterLink(s, q))
  {
    LinkMemberships(s, q);
  }

  lemma LinkKeepsRevisions(s: State, q: ClusterRequest)
    requires Typed(s) && RevisionsRecorded(s) && RequestOk(s, q) && Fresh(s, q) && CanLink(s, q)
    ensures RevisionsRecorded(AfterLink(s, q))
  {
    LinkMemberships(s, q);
    hide NewMemberships, MemberOrder, Lockable, CanonicalRow;
  }

  lemma LinkKeepsLinksHaveActive(s: State, q: ClusterRequest)
    requires LinksHaveActive(s)
    ensures LinksHaveActive(AfterLink(s, q))
  {
    var t := AfterLink(s, q);
    LinkMemberships(s, q);
    forall id | id in t.rows && t.rows[id].link.Some? ensures HasActive(t, id) {
      if id in q.loaded {
        LinkMembershipAt(s, q, id);
      } else {
        assert HasActive(s, id);
        var k :| 0 <= k < |s.memberships| && Active(s, k) && s.memberships[k].member == id;
        assert Active(t, k);
      }
    }
  }

  lemma LinkKeepsForgotten(s: State, q: ClusterRequest)
    requires Typed(s) && ForgottenTogether(s) && RequestOk(s, q) && Fresh(s, q) && CanLink(s, q)
    ensures ForgottenTogether(AfterLink(s, q))
  {
  }

  lemma LinkKeepsRoots(s: State, q: ClusterRequest)
    requires CanonicalsAreRoots(s) && RequestOk(s, q) && Fresh(s, q)
    ensures CanonicalsAreRoots(AfterLink(s, q))
  {
    hide NewMemberships, MemberOrder;
  }

  lemma LinkKeeps(s: State, q: ClusterRequest)
    requires Inv(s) && RequestOk(s, q) && Fresh(s, q) && CanLink(s, q)
    ensures Inv(AfterLink(s, q))
  {
    hide AfterLink, RequestOk, Fresh, CanLink, Typed, ActiveNamesLink, OneActive, LinksHaveActive, RevisionsRecorded;
    hide KeysSpent, ForgottenTogether, CanonicalsAreRoots;
    LinkKeepsRoots(s, q);
    LinkKeepsTyped(s, q);
    LinkKeepsActiveNamesLink(s, q);
    LinkKeepsRevisions(s, q);
    LinkKeepsOneActive(s, q);
    LinkKeepsLinksHaveActive(s, q);
    LinkKeepsKeysSpent(s, q);
    LinkKeepsForgotten(s, q);
  }

  lemma LinkKeepsKeysSpent(s: State, q: ClusterRequest)
    requires KeysSpent(s) && RequestOk(s, q) && Fresh(s, q)
    ensures KeysSpent(AfterLink(s, q))
  {
    hide NewMemberships, MemberOrder, Lockable;
    var t := AfterLink(s, q);
    forall id, f | id in t.rows && KeyNames(t.rows[id], f)
      ensures f.id in t.rows && f.revision < t.rows[f.id].revision
    {
      if id == q.canonicalId {
        var x :| x in q.loaded && q.loaded[x] == f;
        assert f == FingerprintOf(x, s.rows[x]);
      } else {
        assert KeyNames(s.rows[id], f);
      }
    }
  }

  lemma ForgetKeeps(s: State, q: ForgetRequest)
    requires Inv(s)
    ensures Inv(Forget(s, q).1)
  {
    var t := Forget(s, q).1;
    if t != s {
      ForgetKeepsColumns(s, q);
      ForgetKeepsLinks(s, q);
      forall k | 0 <= k < |t.memberships| && Active(t, k) && IsForgotten(t, t.memberships[k].member)
        ensures IsForgotten(t, t.memberships[k].canonical)
      {
        ForgetReachesCanonical(s, q, k);
      }
    }
  }

  lemma ForgetEvolves(s: State, q: ForgetRequest)
    ensures var t := Forget(s, q).1; s.rows.Keys == t.rows.Keys && t.memberships == s.memberships && RowsEvolve(s, t)
    ensures var t := Forget(s, q).1;
      forall id :: id in s.rows ==>
        t.rows[id].link == s.rows[id].link && t.rows[id].revision == s.rows[id].revision
  {
  }

  lemma ForgetKeepsColumns(s: State, q: ForgetRequest)
    requires CanonicalsAreRoots(s)
    ensures CanonicalsAreRoots(Forget(s, q).1)
  {
  }

  lemma ForgetKeepsLinks(s: State, q: ForgetRequest)
    requires Inv(s)
    ensures var t := Forget(s, q).1;
      Typed(t) && ActiveNamesLink(t) && OneActive(t) && LinksHaveActive(t) && RevisionsRecorded(t) && KeysSpent(t)
  {
    hide Forget;
    ForgetEvolves(s, q);
    EvolutionKeeps(s, Forget(s, q).1);
    SameLogKeepsLinks(s, Forget(s, q).1);
  }

  lemma SameLogKeepsLinks(s: State, t: State)
    requires Inv(s) && s.rows.Keys == t.rows.Keys && t.memberships == s.memberships
    requires forall id :: id in s.rows ==>
      t.rows[id].link == s.rows[id].link && t.rows[id].revision == s.rows[id].revision
    ensures ActiveNamesLink(t) && OneActive(t) && LinksHaveActive(t) && RevisionsRecorded(t)
  {
    assert forall k :: 0 <= k < |s.memberships| ==> Active(s, k) == Active(t, k);
    hide KeysSpent, ForgottenTogether, Typed, CanonicalsAreRoots;
    forall id | id in t.rows && t.rows[id].link.Some? ensures HasActive(t, id) {
      assert HasActive(s, id);
      var k :| 0 <= k < |s.memberships| && Active(s, k) && s.memberships[k].member == id;
      assert Active(t, k);
    }
  }

  lemma LinkTargetIsCanonical(s: State, id: Id)
    requires Inv(s) && id in s.rows && s.rows[id].link.Some?
    ensures s.rows[id].base.kind == Semantic
    ensures s.rows[id].link.value.into in s.rows && s.rows[s.rows[id].link.value.into].base.kind == Consolidation
  {
  }

  lemma ForgetReachesCanonical(s: State, q: ForgetRequest, k: nat)
    requires Inv(s) && Active(s, k)
    requires var id := s.memberships[k].member; IsForgotten(s, id) || id in Hit(s, q)
    ensures var c := s.memberships[k].canonical; IsForgotten(s, c) || c in Hit(s, q)
  {
  }

  /** What acceptance of an entry says of each membership it closes. */
  lemma EntryMembership(s: State, auth: Caller, namespace: string, e: CanonicalEntry, at: Instant, k: nat)
    requires Inv(s) && CanonicalAccepted(s, auth, namespace, e, at) && k in MembershipIds(e)
    ensures k < |s.memberships| && Active(s, k) && s.memberships[k].canonical == e.canonicalId
    ensures s.memberships[k].member in MemberIds(e)
  {
  }

  /** The active membership of a listed member is among those the entry closes. */
  lemma EntryMember(s: State, auth: Caller, namespace: string, e: CanonicalEntry, at: Instant, k: nat)
    requires Inv(s) && CanonicalAccepted(s, auth, namespace, e, at)
    requires k < |s.memberships| && Active(s, k) && s.memberships[k].member in MemberIds(e)
    ensures k in MembershipIds(e)
  {
  }

  lemma ReleaseMemberships(s: State, auth: Caller, e: CanonicalEntry, at: Instant)
    ensures var t := ReleaseCanonical(s, auth, e, at);
      && |t.memberships| == |s.memberships| && LogEvolves(s, t)
      && forall k :: 0 <= k < |s.memberships| ==>
           && (Active(t, k) <==> Active(s, k) && k !in MembershipIds(e))
           && (Active(t, k) ==> t.memberships[k] == s.memberships[k])
  {
  }

  lemma ReleaseRows(s: State, auth: Caller, e: CanonicalEntry, at: Instant)
    ensures var t := ReleaseCanonical(s, auth, e, at); s.rows.Keys == t.rows.Keys && RowsEvolve(s, t)
    ensures var t := ReleaseCanonical(s, auth, e, at);
      forall id :: id in s.rows && t.rows[id].link.Some? ==> t.rows[id].link == s.rows[id].link
  {
  }

  lemma ReleaseKeepsActiveNamesLink(s: State, auth: Caller, namespace: string, e: CanonicalEntry, at: Instant)
    requires Inv(s) && CanonicalAccepted(s, auth, namespace, e, at)
    ensures ActiveNamesLink(ReleaseCanonical(s, auth, e, at))
  {
    var t := ReleaseCanonical(s, auth, e, at);
    ReleaseMemberships(s, auth, e, at);
    forall k | 0 <= k < |t.memberships| && Active(t, k)
      ensures s.memberships[k].member !in MemberIds(e) && t.memberships[k] == s.memberships[k] && Active(s, k)
    {
      if s.memberships[k].member in MemberIds(e) { EntryMember(s, auth, namespace, e, at, k); }
    }
    hide CanonicalAccepted, MemberIds;
  }

  lemma ReleaseKeepsLinksHaveActive(s: State, auth: Caller, namespace: string, e: CanonicalEntry, at: Instant)
    requires Inv(s) && CanonicalAccepted(s, auth, namespace, e, at)
    ensures LinksHaveActive(ReleaseCanonical(s, auth, e, at))
  {
    var t := ReleaseCanonical(s, auth, e, at);
    ReleaseMemberships(s, auth, e, at);
    forall id | id in t.rows && t.rows[id].link.Some? ensures HasActive(t, id) {
      assert HasActive(s, id);
      var k :| 0 <= k < |s.memberships| && Active(s, k) && s.memberships[k].member == id;
      if k in MembershipIds(e) { EntryMembership(s, auth, namespace, e, at, k); }
      assert Active(t, k);
    }
  }

  lemma ReleaseKeepsOneActive(s: State, auth: Caller, e: CanonicalEntry, at: Instant)
    requires OneActive(s)
    ensures OneActive(ReleaseCanonical(s, auth, e, at))
  {
    ReleaseMemberships(s, auth, e, at);
    hide ReleaseCanonical;
  }

  lemma ReleaseKeepsRevisions(s: State, auth: Caller, namespace: string, e: CanonicalEntry, at: Instant)
    requires Inv(s) && CanonicalAccepted(s, auth, namespace, e, at)
    ensures RevisionsRecorded(ReleaseCanonical(s, auth, e, at))
  {
    var t := ReleaseCanonical(s, auth, e, at);
    ReleaseMemberships(s, auth, e, at);
    forall k | 0 <= k < |t.memberships| && Active(t, k)
      ensures t.memberships[k] == s.memberships[k] && s.memberships[k].member !in MemberIds(e)
    {
      if s.memberships[k].member in MemberIds(e) { EntryMember(s, auth, namespace, e, at, k); }
    }
    hide CanonicalAccepted, MemberIds;
  }

  lemma ReleaseKeepsForgotten(s: State, auth: Caller, namespace: string, e: CanonicalEntry, at: Instant)
    requires Inv(s) && CanonicalAccepted(s, auth, namespace, e, at)
    ensures ForgottenTogether(ReleaseCanonical(s, auth, e, at))
  {
  }

  lemma ReleaseKeepsRows(s: State, auth: Caller, namespace: string, e: CanonicalEntry, at: Instant)
    requires Inv(s) && CanonicalAccepted(s, auth, namespace, e, at)
    ensures var t := ReleaseCanonical(s, auth, e, at); Typed(t) && KeysSpent(t) && CanonicalsAreRoots(t)
  {
    ReleaseMemberships(s, auth, e, at);
    ReleaseRows(s, auth, e, at);
    EvolutionKeeps(s, ReleaseCanonical(s, auth, e, at));
  }

  lemma ReleaseKeeps(s: State, auth: Caller, namespace: string, e: CanonicalEntry, at: Instant)
    requires Inv(s) && CanonicalAccepted(s, auth, namespace, e, at)
    ensures Inv(ReleaseCanonical(s, auth, e, at))
  {
    ReleaseKeepsActiveNamesLink(s, auth, namespace, e, at);
    ReleaseKeepsLinksHaveActive(s, auth, namespace, e, at);
    ReleaseKeepsOneActive(s, auth, e, at);
    ReleaseKeepsRows(s, auth, namespace, e, at);
    ReleaseKeepsRevisions(s, auth, namespace, e, at);
    ReleaseKeepsForgotten(s, auth, namespace, e, at);
  }

  lemma {:induction false} ApplyEntriesKeeps(
      s: State, auth: Caller, namespace: string, es: seq<CanonicalEntry>, at: Instant)
    requires Inv(s)
    ensures ApplyEntries(s, auth, namespace, es, at).Some? ==> Inv(ApplyEntries(s, auth, namespace, es, at).value)
    decreases |es|
  {
    if es != [] && CanonicalAccepted(s, auth, namespace, es[0], at) {
      ReleaseKeeps(s, auth, namespace, es[0], at);
      ApplyEntriesKeeps(ReleaseCanonical(s, auth, es[0], at), auth, namespace, es[1..], at);
    }
  }

  lemma StepKeeps(s: State, t: Step)
    requires Inv(s)
    ensures Inv(Next(s, t))
  {
    if Enabled(s, t) {
      match t
      case Insert(id, row) => InsertKeeps(s, id, row);
      case Consolidate(q) => if Fresh(s, q) && CanLink(s, q) { LinkKeeps(s, q); }
      case ForgetRows(q) => ForgetKeeps(s, q);
      case Deconsolidate(auth, m, at) => ApplyEntriesKeeps(s, auth, m.namespace, m.canonicals, at);
    }
  }

  lemma {:induction false} RunKeeps(s: State, ts: seq<Step>)
    requires Inv(s)
    ensures Inv(Run(s, ts))
  {
    if ts != [] {
      RunKeeps(s, ts[..|ts| - 1]);
      StepKeeps(Run(s, ts[..|ts| - 1]), ts[|ts| - 1]);
    }
  }
}
