/** A previewed manifest that is applied later: when it is still accepted, and what it restores. */
module ConsolidationRoundTrip {
  import opened Prelude
  import opened Ordering
  import opened ConsolidationStore
  import opened ConsolidationSafety
  import opened ConsolidationTheorems
  import opened ConsolidationRestore

  // ---------------------------------------------------------------- entries one by one

  ghost predicate Disjoint(es: seq<CanonicalEntry>) {
    forall i, j :: 0 <= i < j < |es| ==>
      es[i].canonicalId != es[j].canonicalId && MemberIds(es[i]) !! MemberIds(es[j])
      && MembershipIds(es[i]) !! MembershipIds(es[j])
  }

  /** Releasing one canonical does not decide about another. */
  lemma ReleaseKeepsAcceptance(
      s: State, auth: Caller, namespace: string, e: CanonicalEntry, other: CanonicalEntry, at: Instant)
    requires Inv(s) && CanonicalAccepted(s, auth, namespace, e, at) && e.canonicalId != other.canonicalId
    requires MemberIds(e) !! MemberIds(other) && MembershipIds(e) !! MembershipIds(other)
    ensures CanonicalAccepted(ReleaseCanonical(s, auth, e, at), auth, namespace, other, at) <==>
      CanonicalAccepted(s, auth, namespace, other, at)
  {
    var t := ReleaseCanonical(s, auth, e, at);
    forall i | 0 <= i < |other.members|
      ensures MemberAccepted(t, auth, other.canonicalId, other.members[i], at) <==>
        MemberAccepted(s, auth, other.canonicalId, other.members[i], at)
    {
      ReleaseKeepsMember(s, auth, e, at, other, i);
    }
    hide MemberAccepted;
    var c := other.canonicalId;
    assert c in s.rows && s.rows[c].base.kind == Consolidation ==> s.rows[c].link.None?;
  }

  lemma ReleaseKeepsMember(s: State, auth: Caller, e: CanonicalEntry, at: Instant, other: CanonicalEntry, i: nat)
    requires MemberIds(e) !! MemberIds(other) && MembershipIds(e) !! MembershipIds(other) && i < |other.members|
    ensures MemberAccepted(ReleaseCanonical(s, auth, e, at), auth, other.canonicalId, other.members[i], at) <==>
      MemberAccepted(s, auth, other.canonicalId, other.members[i], at)
  {
    assert other.members[i].memberId in MemberIds(other) && other.members[i].membershipId in MembershipIds(other);
  }

  /** Disjoint entries are accepted one after the other exactly when each is accepted at first. */
  lemma {:induction false} EntriesAcceptedIff(
      s: State, auth: Caller, namespace: string, es: seq<CanonicalEntry>, at: Instant)
    requires Inv(s) && Disjoint(es)
    ensures ApplyEntries(s, auth, namespace, es, at).Some? <==>
      forall i :: 0 <= i < |es| ==> CanonicalAccepted(s, auth, namespace, es[i], at)
    decreases |es|
  {
    if es != [] && CanonicalAccepted(s, auth, namespace, es[0], at) {
      var u, rest := ReleaseCanonical(s, auth, es[0], at), es[1..];
      ReleaseKeeps(s, auth, namespace, es[0], at);
      EntriesAcceptedIff(u, auth, namespace, rest, at);
      forall i | 1 <= i < |es|
        ensures CanonicalAccepted(u, auth, namespace, es[i], at) <==> CanonicalAccepted(s, auth, namespace, es[i], at)
      {
        ReleaseKeepsAcceptance(s, auth, namespace, es[0], es[i], at);
      }
      hide CanonicalAccepted, ReleaseCanonical;
      assert forall i :: 1 <= i < |es| ==> es[i] == rest[i - 1];
    }
  }

  lemma {:induction false} EntriesSpare(
      s: State, auth: Caller, namespace: string, es: seq<CanonicalEntry>, at: Instant, id: Id)
    requires ApplyEntries(s, auth, namespace, es, at).Some? && id in s.rows && s.rows[id].base.kind == Semantic
    requires forall i :: 0 <= i < |es| ==> id !in MemberIds(es[i])
    ensures var t := ApplyEntries(s, auth, namespace, es, at).value; id in t.rows && t.rows[id] == s.rows[id]
    decreases |es|
  {
    if es != [] {
      EntriesSpare(ReleaseCanonical(s, auth, es[0], at), auth, namespace, es[1..], at, id);
    }
  }

  /** A listed member is unlinked, and nothing else of its row changes. */
  lemma {:induction false} EntriesUnlink(
      s: State, auth: Caller, namespace: string, es: seq<CanonicalEntry>, at: Instant, i: nat, id: Id)
    requires ApplyEntries(s, auth, namespace, es, at).Some? && id in s.rows && s.rows[id].base.kind == Semantic
    requires Disjoint(es) && i < |es| && id in MemberIds(es[i]) && LinksTo(s.rows[id], es[i].canonicalId)
    ensures var t := ApplyEntries(s, auth, namespace, es, at).value;
      id in t.rows && t.rows[id] == Unlinked(s.rows[id], at)
    decreases |es|
  {
    var u := ReleaseCanonical(s, auth, es[0], at);
    if i == 0 {
      EntriesSpare(u, auth, namespace, es[1..], at, id);
    } else {
      EntriesUnlink(u, auth, namespace, es[1..], at, i - 1, id);
    }
  }

  // ---------------------------------------------------------------- what a preview lists

  ghost function EntryOf(s: State, auth: Caller, namespace: string, ids: set<Id>, i: nat): CanonicalEntry
    requires Preview(s, auth, namespace, ids).Some? && i < |ids|
  {
    Preview(s, auth, namespace, ids).value.canonicals[i]
  }

  /** The i-th entry is for the i-th id, and its j-th member is that of the j-th active membership. */
  lemma EntryLists(s: State, auth: Caller, namespace: string, ids: set<Id>, i: nat)
    requires Inv(s) && Preview(s, auth, namespace, ids).Some? && i < |ids|
    ensures |Preview(s, auth, namespace, ids).value.canonicals| == |ids|
    ensures var c, e := AscendingIds(ids)[i], EntryOf(s, auth, namespace, ids, i);
      var ks := AscendingIds(ActiveOf(s, c));
      && c in ids && c in s.rows && ActiveOf(s, c) != {}
      && e.canonicalId == c && e.canonicalRevision == s.rows[c].revision
      && e.canonicalContent == s.rows[c].base.payload.content && s.rows[c].base.namespace == namespace
      && s.rows[c].base.kind == Consolidation
      && |e.members| == |ks| == |ActiveOf(s, c)|
      && forall j :: 0 <= j < |ks| ==>
           && ks[j] < |s.memberships| && ks[j] in ActiveOf(s, c) && s.memberships[ks[j]].owner == auth.key
           && s.memberships[ks[j]].member in s.rows && e.members[j] == PreviewMember(s, ks[j])
  {
    var cs := AscendingIds(ids);
    var c := cs[i];
    assert c in cs && c in ids;
    PreviewSeesAllActive(s, auth, namespace, c);
    var ks := AscendingIds(ActiveOf(s, c));
    forall j | 0 <= j < |ks| ensures ks[j] in ActiveOf(s, c) {
      assert ks[j] in ks;
    }
    assert ks[0] in ActiveOf(s, c);
  }

  /** Anything is previewed exactly for a caller with all four permissions on the namespace, not cleared
      for more than ordinary rows, and one to a hundred canonicals that each have an open membership of
      the client there. */
  lemma PreviewIff(s: State, auth: Caller, namespace: string, ids: set<Id>)
    requires Inv(s)
    ensures Preview(s, auth, namespace, ids).Some? <==>
      && "consolidate" in auth.permissions && "read" in auth.permissions && "write" in auth.permissions
      && "delete" in auth.permissions && namespace in auth.namespaces && auth.maxAccessLevel == 0
      && 1 <= |ids| <= 100
      && forall c :: c in ids ==>
           exists k :: 0 <= k < |s.memberships| && OpenFor(s.memberships[k], c, namespace, auth.key)
  {
    forall c ensures PreviewRows(s, auth, namespace, c) != {} <==>
      exists k :: 0 <= k < |s.memberships| && OpenFor(s.memberships[k], c, namespace, auth.key)
    {
      if k :| 0 <= k < |s.memberships| && OpenFor(s.memberships[k], c, namespace, auth.key) {
        assert Active(s, k) && k in PreviewRows(s, auth, namespace, c);
      }
      if PreviewRows(s, auth, namespace, c) != {} {
        var k: nat :| k in PreviewRows(s, auth, namespace, c);
        assert OpenFor(s.memberships[k], c, namespace, auth.key);
      }
    }
    hide Inv, PreviewRows, OpenFor;
  }

  predicate OpenFor(e: Membership, c: Id, namespace: string, owner: nat) {
    e.deconsolidatedAt == None && e.canonical == c && e.namespace == namespace && e.owner == owner
  }

  // ---------------------------------------------------------------- when a preview is still accepted

  /** Two to twenty active memberships, all still open, none made after the application. */
  ghost predicate StillOpen(s: State, u: State, c: Id, at: Instant) {
    && 2 <= |ActiveOf(s, c)| <= MAX_CLUSTER_SIZE
    && forall k :: k in ActiveOf(s, c) ==> Active(u, k) && s.memberships[k].consolidatedAt <= at
  }

  /** One listed member is accepted later exactly while its membership is open: revision and content
      cannot have changed since, and the link follows the membership. */
  lemma MemberAcceptedIff(s: State, u: State, applier: Caller, c: Id, k: nat, at: Instant)
    requires Inv(s) && Inv(u) && RowsEvolve(s, u) && LogEvolves(s, u)
    requires k in ActiveOf(s, c) && s.memberships[k].member in s.rows
    ensures MemberAccepted(u, applier, c, PreviewMember(s, k), at) <==>
      Active(u, k) && s.memberships[k].owner == applier.key && s.memberships[k].consolidatedAt <= at
  {
    assert Active(s, k) && SameEntry(s.memberships[k], u.memberships[k]);
    var id := s.memberships[k].member;
    assert Evolves(s.rows[id], u.rows[id]);
    if Active(u, k) { assert u.memberships[k] == s.memberships[k]; }
  }

  lemma CanonicalsKeep(s: State, u: State, c: Id)
    requires Inv(s) && Inv(u) && RowsEvolve(s, u) && c in s.rows && s.rows[c].base.kind == Consolidation
    ensures u.rows[c].revision == s.rows[c].revision && u.rows[c].base == s.rows[c].base
  {
    assert Evolves(s.rows[c], u.rows[c]);
  }

  lemma EntryAcceptedIff(
      s: State, u: State, auth: Caller, namespace: string, ids: set<Id>, applier: Caller, at: Instant, i: nat)
    requires Inv(s) && Inv(u) && RowsEvolve(s, u) && LogEvolves(s, u)
    requires Preview(s, auth, namespace, ids).Some? && i < |ids| && applier.key == auth.key
    ensures var c, e := AscendingIds(ids)[i], EntryOf(s, auth, namespace, ids, i);
      SizeFits(e) && CanonicalAccepted(u, applier, namespace, e, at) <==> StillOpen(s, u, c, at)
  {
    hide MemberAccepted, Preview, ActiveOf, Inv, LogEvolves, EntryOf;
    EntryLists(s, auth, namespace, ids, i);
    var c, e := AscendingIds(ids)[i], EntryOf(s, auth, namespace, ids, i);
    var ks := AscendingIds(ActiveOf(s, c));
    forall j | 0 <= j < |ks|
      ensures MemberAccepted(u, applier, c, e.members[j], at) <==>
        Active(u, ks[j]) && s.memberships[ks[j]].consolidatedAt <= at
    {
      MemberAcceptedIff(s, u, applier, c, ks[j], at);
    }
    assert forall k :: k in ActiveOf(s, c) <==> k in ks;
    CanonicalsKeep(s, u, c);
  }

  lemma PreviewShape(s: State, auth: Caller, namespace: string, ids: set<Id>)
    requires Preview(s, auth, namespace, ids).Some?
    ensures var m := Preview(s, auth, namespace, ids).value;
      && 1 <= |m.canonicals| == |ids| <= MAX_MANIFEST_CANONICALS
      && m.namespace == namespace && m.owner == auth.key && m.hashMatches
  {
  }

  /** The entries of a preview share no canonical, member or membership. */
  lemma PreviewIsDisjoint(s: State, auth: Caller, namespace: string, ids: set<Id>)
    requires Inv(s) && Preview(s, auth, namespace, ids).Some?
    ensures var es := Preview(s, auth, namespace, ids).value.canonicals;
      |es| == |ids| && Disjoint(es) && forall i :: 0 <= i < |es| ==> NoRepeats(es[i])
  {
    PreviewShape(s, auth, namespace, ids);
    hide Preview, Inv;
    var es := Preview(s, auth, namespace, ids).value.canonicals;
    forall i | 0 <= i < |es| ensures NoRepeats(es[i]) {
      assert es[i] == EntryOf(s, auth, namespace, ids, i);
      MembersDiffer(s, auth, namespace, ids, i, i);
    }
    forall i, j | 0 <= i < j < |es|
      ensures MemberIds(es[i]) !! MemberIds(es[j]) && MembershipIds(es[i]) !! MembershipIds(es[j])
      ensures es[i].canonicalId != es[j].canonicalId
    {
      assert es[i] == EntryOf(s, auth, namespace, ids, i) && es[j] == EntryOf(s, auth, namespace, ids, j);
      assert IdLess(AscendingIds(ids)[i], AscendingIds(ids)[j]);
      MembersDiffer(s, auth, namespace, ids, i, j);
      EntryLists(s, auth, namespace, ids, i);
      EntryLists(s, auth, namespace, ids, j);
    }
  }

  lemma MembersDiffer(s: State, auth: Caller, namespace: string, ids: set<Id>, i: nat, j: nat)
    requires Inv(s) && Preview(s, auth, namespace, ids).Some? && i < |ids| && j < |ids|
    requires i == j || AscendingIds(ids)[i] != AscendingIds(ids)[j]
    ensures var d, e := EntryOf(s, auth, namespace, ids, i), EntryOf(s, auth, namespace, ids, j);
      forall a, b :: 0 <= a < |d.members| && 0 <= b < |e.members| && (i != j || a != b) ==>
        d.members[a].memberId != e.members[b].memberId && d.members[a].membershipId != e.members[b].membershipId
  {
    hide Preview, Inv, ActiveOf, EntryOf;
    EntryLists(s, auth, namespace, ids, i);
    EntryLists(s, auth, namespace, ids, j);
    var c, d := AscendingIds(ids)[i], AscendingIds(ids)[j];
    var ks, ls := AscendingIds(ActiveOf(s, c)), AscendingIds(ActiveOf(s, d));
    forall a, b | 0 <= a < |ks| && 0 <= b < |ls| && (i != j || a != b)
      ensures ks[a] != ls[b] && s.memberships[ks[a]].member != s.memberships[ls[b]].member
    {
      if i == j { assert a < b ==> IdLess(ks[a], ks[b]); assert b < a ==> IdLess(ks[b], ks[a]); }
      ActiveDiffer(s, c, d, ks[a], ls[b]);
    }
  }

  lemma ActiveDiffer(s: State, c: Id, d: Id, k: nat, l: nat)
    requires Inv(s) && k in ActiveOf(s, c) && l in ActiveOf(s, d) && (c != d || k != l)
    ensures k != l && s.memberships[k].member != s.memberships[l].member
  {
    assert Active(s, k) && Active(s, l);
  }

  /** A previewed manifest is accepted later, whatever ran in between, exactly for a permitted caller
      of the same client, and while every membership it lists is still open: a forget does not matter. */
  lemma PreviewAcceptedIff(
      s: State, auth: Caller, namespace: string, ids: set<Id>, later: seq<Step>, applier: Caller, at: Instant)
    requires Inv(s) && Preview(s, auth, namespace, ids).Some?
    ensures var u, m := Run(s, later), Preview(s, auth, namespace, ids).value;
      ApplyManifest(u, applier, m, at).Some? <==>
        && MayDeconsolidate(applier, namespace) && applier.key == auth.key
        && forall c :: c in ids ==> StillOpen(s, u, c, at)
  {
    hide Preview, StillOpen, CanonicalAccepted, Inv, RowsEvolve, LogEvolves, Run, ApplyManifest, Disjoint, NoRepeats;
    var u, m := Run(s, later), Preview(s, auth, namespace, ids).value;
    RunKeeps(s, later);
    RunEvolves(s, later);
    PreviewShape(s, auth, namespace, ids);
    PreviewIsDisjoint(s, auth, namespace, ids);
    AppliesIff(u, applier, m, at);
    var cs := AscendingIds(ids);
    if applier.key == auth.key {
      forall i | 0 <= i < |ids|
        ensures AcceptedAt(u, applier, m, at, i) <==> StillOpen(s, u, cs[i], at)
      {
        EntryAcceptedIff(s, u, auth, namespace, ids, applier, at, i);
      }
      assert forall c :: c in ids <==> c in cs;
    }
  }

  lemma AppliesIff(u: State, applier: Caller, m: Manifest, at: Instant)
    requires Inv(u) && Disjoint(m.canonicals) && 1 <= |m.canonicals| <= MAX_MANIFEST_CANONICALS && m.hashMatches
    requires forall i :: 0 <= i < |m.canonicals| ==> NoRepeats(m.canonicals[i])
    ensures ApplyManifest(u, applier, m, at).Some? <==>
      && MayDeconsolidate(applier, m.namespace) && applier.key == m.owner
      && forall i :: 0 <= i < |m.canonicals| ==> AcceptedAt(u, applier, m, at, i)
  {
    hide CanonicalAccepted, NoRepeats, ApplyEntries, Inv, MayDeconsolidate, WellFormed, Disjoint;
    EntriesAcceptedIff(u, applier, m.namespace, m.canonicals, at);
    WellFormedIff(m);
    forall i | 0 <= i < |m.canonicals|
      ensures AcceptedAt(u, applier, m, at, i) <==>
        SizeFits(m.canonicals[i]) && CanonicalAccepted(u, applier, m.namespace, m.canonicals[i], at)
    {
    }
  }

  predicate SizeFits(e: CanonicalEntry) {
    2 <= |e.members| <= MAX_CLUSTER_SIZE
  }

  lemma WellFormedIff(m: Manifest)
    requires Disjoint(m.canonicals) && 1 <= |m.canonicals| <= MAX_MANIFEST_CANONICALS
    requires forall i :: 0 <= i < |m.canonicals| ==> NoRepeats(m.canonicals[i])
    ensures WellFormed(m) <==> forall i :: 0 <= i < |m.canonicals| ==> SizeFits(m.canonicals[i])
  {
    hide MemberIds, MembershipIds, NoRepeats;
  }

  predicate AcceptedAt(u: State, applier: Caller, m: Manifest, at: Instant, i: nat) {
    i < |m.canonicals| && SizeFits(m.canonicals[i])
    && CanonicalAccepted(u, applier, m.namespace, m.canonicals[i], at)
  }

  // ---------------------------------------------------------------- what it restores

  /** Whatever ran before the preview, and between it and an application that is accepted, each member
      listed is unlinked two revisions above the one its membership recorded; the columns no step
      writes are as ever, and its tombstone is what the steps between made it. */
  lemma ListedMembersAreRestored(
      s: State, auth: Caller, namespace: string, ids: set<Id>, later: seq<Step>, applier: Caller, at: Instant, k: nat)
    requires Inv(s) && Preview(s, auth, namespace, ids).Some?
    requires Active(s, k) && s.memberships[k].canonical in ids
    requires ApplyManifest(Run(s, later), applier, Preview(s, auth, namespace, ids).value, at).Some?
    ensures var u, e, id := Run(s, later), s.memberships[k], s.memberships[k].member;
      var t := ApplyManifest(u, applier, Preview(s, auth, namespace, ids).value, at).value;
      && id in s.rows && id in u.rows && id in t.rows
      && t.rows[id] ==
         Memory(s.rows[id].base, e.memberRevision + 2, at, u.rows[id].tombstone, None)
  {
    hide Preview, Run, Disjoint, MemberIds, CanonicalAccepted, ApplyEntries, Inv, StillOpen;
    var u, m := Run(s, later), Preview(s, auth, namespace, ids).value;
    PreviewAcceptedIff(s, auth, namespace, ids, later, applier, at);
    RunKeeps(s, later);
    RunEvolves(s, later);
    OpenMember(s, u, k, at);
    PreviewShape(s, auth, namespace, ids);
    PreviewIsDisjoint(s, auth, namespace, ids);
    var i := EntryListing(s, auth, namespace, ids, k);
    EntriesUnlink(u, applier, namespace, m.canonicals, at, i, s.memberships[k].member);
  }

  /** The member of a membership that stays open keeps its link, revision and base columns. */
  lemma OpenMember(s: State, u: State, k: nat, at: Instant)
    requires Inv(s) && Inv(u) && RowsEvolve(s, u) && LogEvolves(s, u)
    requires Active(s, k) && StillOpen(s, u, s.memberships[k].canonical, at)
    ensures var e, id := s.memberships[k], s.memberships[k].member;
      && id in s.rows && id in u.rows && u.rows[id].base == s.rows[id].base && u.rows[id].base.kind == Semantic
      && LinksTo(u.rows[id], e.canonical) && u.rows[id].revision == e.memberRevision + 1
  {
    var e := s.memberships[k];
    assert k in ActiveOf(s, e.canonical) && SameEntry(e, u.memberships[k]) && Active(u, k);
    assert Evolves(s.rows[e.member], u.rows[e.member]);
  }

  lemma EntryListing(s: State, auth: Caller, namespace: string, ids: set<Id>, k: nat) returns (i: nat)
    requires Inv(s) && Preview(s, auth, namespace, ids).Some?
    requires Active(s, k) && s.memberships[k].canonical in ids
    ensures i < |ids| == |Preview(s, auth, namespace, ids).value.canonicals|
    ensures var e := Preview(s, auth, namespace, ids).value.canonicals[i];
      e.canonicalId == s.memberships[k].canonical && s.memberships[k].member in MemberIds(e)
  {
    var cs, c := AscendingIds(ids), s.memberships[k].canonical;
    assert c in cs;
    i :| 0 <= i < |cs| && cs[i] == c;
    EntryLists(s, auth, namespace, ids, i);
    var ks := AscendingIds(ActiveOf(s, c));
    assert k in ActiveOf(s, c) && k in ks;
    var j :| 0 <= j < |ks| && ks[j] == k;
    assert EntryOf(s, auth, namespace, ids, i).members[j].memberId == s.memberships[k].member;
  }

  /** Consolidate, run anything, preview, run anything, apply: when the application is accepted, each
      member of the merge that was still linked at the preview is its old self two revisions later,
      forgotten if a step between forgot it. */
  lemma RestoredWheneverAccepted(
      s: State, q: ClusterRequest, mid: seq<Step>, auth: Caller, ids: set<Id>, later: seq<Step>, applier: Caller,
      at: Instant, id: Id)
    requires Inv(s) && RequestOk(s, q) && ApplyCluster(s, q).0.Merged? && id in q.loaded && q.canonicalId in ids
    requires var p := Run(ApplyCluster(s, q).1, mid);
      && Preview(p, auth, q.namespace, ids).Some? && id in LinkedTo(p, q.canonicalId)
      && ApplyManifest(Run(p, later), applier, Preview(p, auth, q.namespace, ids).value, at).Some?
    ensures var p := Run(ApplyCluster(s, q).1, mid); var u := Run(p, later);
      var t := ApplyManifest(u, applier, Preview(p, auth, q.namespace, ids).value, at).value;
      && id in s.rows && id in u.rows && id in t.rows
      && t.rows[id] ==
         s.rows[id].(revision := s.rows[id].revision + 2, updatedAt := at, tombstone := u.rows[id].tombstone)
  {
    ApplyClusterCases(s, q);
    var s1 := AfterLink(s, q);
    var p := Run(s1, mid);
    LinkKeeps(s, q);
    RunKeeps(s1, mid);
    var k := MergedMembership(s, q, mid, id);
    ListedMembersAreRestored(p, auth, q.namespace, ids, later, applier, at, k);
    LinkEvolves(s, q);
    RunEvolves(s1, mid);
    assert Evolves(s.rows[id], s1.rows[id]) && Evolves(s1.rows[id], p.rows[id]);
  }

  /** A member still linked holds the membership of the merge, with the revision it had before. */
  lemma MergedMembership(s: State, q: ClusterRequest, mid: seq<Step>, id: Id) returns (k: nat)
    requires Inv(s) && RequestOk(s, q) && Fresh(s, q) && CanLink(s, q) && id in q.loaded
    requires id in LinkedTo(Run(AfterLink(s, q), mid), q.canonicalId)
    ensures id in s.rows && s.rows[id].link.None?
    ensures var p := Run(AfterLink(s, q), mid);
      && Active(p, k) && p.memberships[k].canonical == q.canonicalId && p.memberships[k].member == id
      && p.memberships[k].memberRevision == s.rows[id].revision
  {
    hide AfterLink, Run, Inv, CanLink, RequestOk, ActiveOf, Active, LinkedTo, RowsEvolve, Lockable;
    var s1 := AfterLink(s, q);
    var p := Run(s1, mid);
    LinkKeeps(s, q);
    RunKeeps(s1, mid);
    MergeAppends(s, q);
    MergeRows(s, q);
    RunEvolves(s1, mid);
    assert ActiveOf(p, q.canonicalId) <= ActiveOf(s1, q.canonicalId) by { ActiveNeverGrows(s1, mid, q.canonicalId); }
    k := LinkedMembership(p, q.canonicalId, id);
    assert SameEntry(s1.memberships[k], p.memberships[k]);
  }
}
