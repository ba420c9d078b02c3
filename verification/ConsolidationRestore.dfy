/** Deconsolidation undoes consolidation: what a manifest releases, and the round trip. */
module ConsolidationRestore {
  import opened Prelude
  import opened Ordering
  import opened ConsolidationStore
  import opened ConsolidationSafety
  import opened ConsolidationTheorems

  // ---------------------------------------------------------------- what an accepted manifest does

  ghost predicate Listed(es: seq<CanonicalEntry>, c: Id, id: Id) {
    exists i :: 0 <= i < |es| && es[i].canonicalId == c && id in MemberIds(es[i])
  }

  /** Releasing one canonical clears exactly the listed links to it. */
  lemma ReleaseLinks(s: State, auth: Caller, e: CanonicalEntry, at: Instant, c: Id)
    ensures LinkedTo(ReleaseCanonical(s, auth, e, at), c) ==
            if e.canonicalId == c then LinkedTo(s, c) - MemberIds(e) else LinkedTo(s, c)
  {
  }

  lemma ListedCons(es: seq<CanonicalEntry>, c: Id, id: Id)
    requires es != []
    ensures Listed(es, c, id) <==> (es[0].canonicalId == c && id in MemberIds(es[0])) || Listed(es[1..], c, id)
  {
  }

  lemma {:induction false} EntriesRelease(
      s: State, auth: Caller, namespace: string, es: seq<CanonicalEntry>, at: Instant, c: Id, id: Id)
    requires ApplyEntries(s, auth, namespace, es, at).Some?
    ensures var t := ApplyEntries(s, auth, namespace, es, at).value;
      id in LinkedTo(t, c) <==> id in LinkedTo(s, c) && !Listed(es, c, id)
    decreases |es|
  {
    if es != [] {
      ReleaseLinks(s, auth, es[0], at, c);
      ListedCons(es, c, id);
      EntriesRelease(ReleaseCanonical(s, auth, es[0], at), auth, namespace, es[1..], at, c, id);
    }
  }

  lemma {:induction false} EntriesRetire(
      s: State, auth: Caller, namespace: string, es: seq<CanonicalEntry>, at: Instant, i: nat)
    requires ApplyEntries(s, auth, namespace, es, at).Some? && i < |es|
    ensures var t := ApplyEntries(s, auth, namespace, es, at).value;
      es[i].canonicalId in t.rows && Deleted(t.rows[es[i].canonicalId])
    decreases |es|
  {
    var u := ReleaseCanonical(s, auth, es[0], at);
    if i == 0 {
      EntriesEvolve(u, auth, namespace, es[1..], at);
      assert Evolves(u.rows[es[0].canonicalId],
        ApplyEntries(u, auth, namespace, es[1..], at).value.rows[es[0].canonicalId]);
    } else {
      EntriesRetire(u, auth, namespace, es[1..], at, i - 1);
    }
  }

  /** The code never asks whether a manifest is complete.  An accepted manifest leaves nothing
      linked to a canonical exactly when it lists every memory that was linked to it. */
  lemma NothingLeftIffComplete(s: State, auth: Caller, m: Manifest, at: Instant, i: nat)
    requires ApplyManifest(s, auth, m, at).Some? && i < |m.canonicals|
    ensures var t, e := ApplyManifest(s, auth, m, at).value, m.canonicals[i];
      && e.canonicalId in t.rows && Deleted(t.rows[e.canonicalId])
      && (LinkedTo(t, e.canonicalId) == {} <==> LinkedTo(s, e.canonicalId) <= MemberIds(e))
  {
    var t, e := ApplyManifest(s, auth, m, at).value, m.canonicals[i];
    var c := e.canonicalId;
    EntriesRetire(s, auth, m.namespace, m.canonicals, at, i);
    forall id ensures id in LinkedTo(t, c) <==> id in LinkedTo(s, c) && id !in MemberIds(e) {
      EntriesRelease(s, auth, m.namespace, m.canonicals, at, c, id);
      assert Listed(m.canonicals, c, id) <==> id in MemberIds(e);
    }
  }

  // ---------------------------------------------------------------- previewed manifests are complete

  lemma PreviewSeesAllActive(s: State, auth: Caller, namespace: string, c: Id)
    requires Inv(s) && PreviewRows(s, auth, namespace, c) != {}
    ensures PreviewRows(s, auth, namespace, c) == ActiveOf(s, c)
  {
  }

  lemma PreviewMembersAt(s: State, auth: Caller, namespace: string, c: Id, id: Id)
    requires PreviewRows(s, auth, namespace, c) != {}
    ensures id in MemberIds(PreviewCanonical(s, auth, namespace, c)) <==>
            exists k :: k in PreviewRows(s, auth, namespace, c) && s.memberships[k].member == id
  {
    var ks := AscendingIds(PreviewRows(s, auth, namespace, c));
    var e := PreviewCanonical(s, auth, namespace, c);
    if id in MemberIds(e) {
      var i :| 0 <= i < |e.members| && e.members[i].memberId == id;
      assert ks[i] in ks;
    }
    if k :| k in PreviewRows(s, auth, namespace, c) && s.memberships[k].member == id {
      var i :| 0 <= i < |ks| && ks[i] == k;
      assert e.members[i].memberId == id;
    }
  }

  /** What a preview lists covers whatever is linked to the canonical at any later time. */
  lemma PreviewCoversLater(s: State, auth: Caller, namespace: string, c: Id, later: seq<Step>)
    requires Inv(s) && PreviewRows(s, auth, namespace, c) != {}
    ensures LinkedTo(Run(s, later), c) <= MemberIds(PreviewCanonical(s, auth, namespace, c))
  {
    hide Inv, Run, LinkedTo, ActiveOf, RowsEvolve, PreviewCanonical;
    var u := Run(s, later);
    RunKeeps(s, later);
    PreviewSeesAllActive(s, auth, namespace, c);
    var first: nat :| first in PreviewRows(s, auth, namespace, c);
    ActiveNeverGrows(s, later, c);
    RunEvolves(s, later);
    forall id | id in LinkedTo(u, c) ensures id in MemberIds(PreviewCanonical(s, auth, namespace, c)) {
      var k := LinkedMembership(u, c, id);
      assert SameEntry(s.memberships[k], u.memberships[k]);
      PreviewMembersAt(s, auth, namespace, c, id);
    }
  }

  lemma PreviewEntryFor(s: State, auth: Caller, namespace: string, ids: set<Id>, c: Id) returns (i: nat)
    requires Preview(s, auth, namespace, ids).Some? && c in ids
    ensures PreviewRows(s, auth, namespace, c) != {}
    ensures var m := Preview(s, auth, namespace, ids).value;
      i < |m.canonicals| && m.canonicals[i] == PreviewCanonical(s, auth, namespace, c)
  {
    var cs := AscendingIds(ids);
    assert c in cs;
    i :| 0 <= i < |cs| && cs[i] == c;
  }

  /** A previewed manifest, whenever it is accepted and whatever ran in between, retires its
      canonicals and leaves no memory linked to them: active memberships never grow. */
  lemma PreviewedManifestLeavesNothingLinked(
    ts: seq<Step>, auth: Caller, namespace: string, ids: set<Id>, later: seq<Step>, applier: Caller, at: Instant, c: Id)
    requires var s := Run(EMPTY, ts); Preview(s, auth, namespace, ids).Some? && c in ids
    requires var s := Run(EMPTY, ts);
      ApplyManifest(Run(s, later), applier, Preview(s, auth, namespace, ids).value, at).Some?
    ensures var s := Run(EMPTY, ts);
      var t := ApplyManifest(Run(s, later), applier, Preview(s, auth, namespace, ids).value, at).value;
      c in t.rows && Deleted(t.rows[c]) && LinkedTo(t, c) == {}
  {
    var s := Run(EMPTY, ts);
    EmptyInv();
    RunKeeps(EMPTY, ts);
    var i := PreviewEntryFor(s, auth, namespace, ids, c);
    PreviewCoversLater(s, auth, namespace, c, later);
    NothingLeftIffComplete(Run(s, later), applier, Preview(s, auth, namespace, ids).value, at, i);
  }

  // ---------------------------------------------------------------- visibility

  /** Reads return what is not forgotten, superseded, ended, merged into a canonical or expired. */
  lemma VisibleIff(s: State, now: Instant, id: Id)
    requires id in s.rows
    ensures id in VisibleIds(s, now) <==>
      && s.rows[id].tombstone.at == None && s.rows[id].base.supersededAt == None && s.rows[id].base.validTo == None
      && s.rows[id].link == None && (s.rows[id].base.expiresAt == None || s.rows[id].base.expiresAt.value > now)
  {
  }

  /** Consolidation swaps the members for the canonical in the visible set. */
  lemma ConsolidationSwapsVisible(s: State, q: ClusterRequest, now: Instant)
    requires RequestOk(s, q) && Fresh(s, q)
    ensures VisibleIds(AfterLink(s, q), now) == VisibleIds(s, now) - q.loaded.Keys + {q.canonicalId}
  {
    hide NewMemberships, MemberOrder, Lockable;
  }

  // ---------------------------------------------------------------- the round trip

  /** The log of `u` holds, from position `n`, the memberships the merge of `q` appended, and they
      are all the active ones of its canonical. */
  ghost predicate LogHolds(q: ClusterRequest, n: nat, u: State) {
    && |u.memberships| >= n + |q.loaded|
    && (forall k :: n <= k < n + |q.loaded| ==>
          u.memberships[k].member in q.loaded && u.memberships[k] == NewMembership(q, u.memberships[k].member))
    && (forall k :: k in ActiveOf(u, q.canonicalId) ==> n <= k < n + |q.loaded|)
  }

  /** The members' rows and the canonical's are as the merge left them. */
  ghost predicate RowsHold(s: State, q: ClusterRequest, u: State) {
    && (forall id :: id in q.loaded ==> id in s.rows && s.rows[id].link.None?)
    && (forall id :: id in q.loaded ==> id in u.rows && u.rows[id] == Linked(s.rows[id], q.canonicalId, q.timestamp))
    && q.canonicalId !in q.loaded && q.canonicalId in u.rows && u.rows[q.canonicalId] == CanonicalRow(q)
  }

  lemma MergeHolds(s: State, q: ClusterRequest, later: seq<Step>)
    requires Inv(s) && RequestOk(s, q) && Fresh(s, q) && CanLink(s, q)
    requires RowsHold(s, q, Run(AfterLink(s, q), later))
    ensures var u := Run(AfterLink(s, q), later); Inv(u) && LogHolds(q, |s.memberships|, u)
  {
    var s1 := AfterLink(s, q);
    var u := Run(s1, later);
    LinkKeeps(s, q);
    MergeAppends(s, q);
    RunKeeps(s1, later);
    RunEvolves(s1, later);
    assert ActiveOf(u, q.canonicalId) <= ActiveOf(s1, q.canonicalId) by { ActiveNeverGrows(s1, later, q.canonicalId); }
    LogStillHolds(q, |s.memberships|, s1, u);
  }

  lemma MergeRows(s: State, q: ClusterRequest)
    requires RequestOk(s, q) && Fresh(s, q)
    ensures RowsHold(s, q, AfterLink(s, q))
  {
  }

  lemma MergeAppends(s: State, q: ClusterRequest)
    requires Inv(s) && RequestOk(s, q)
    ensures LogHolds(q, |s.memberships|, AfterLink(s, q))
    ensures |AfterLink(s, q).memberships| == |s.memberships| + |q.loaded|
  {
  }

  /** A member still linked to the canonical keeps the membership the merge gave it. */
  lemma LogStillHolds(q: ClusterRequest, n: nat, s1: State, u: State)
    requires Inv(s1) && Inv(u) && LogEvolves(s1, u) && LogHolds(q, n, s1)
    requires ActiveOf(u, q.canonicalId) <= ActiveOf(s1, q.canonicalId)
    requires forall id :: id in q.loaded ==> id in u.rows && LinksTo(u.rows[id], q.canonicalId)
    ensures LogHolds(q, n, u)
  {
    hide Inv, LinkedTo, ActiveOf;
    forall k | n <= k < n + |q.loaded| ensures u.memberships[k] == s1.memberships[k] {
      var id := s1.memberships[k].member;
      LinkIsLinkedTo(u, q.canonicalId, id);
      var j := LinkedMembership(u, q.canonicalId, id);
      assert SameEntry(s1.memberships[j], u.memberships[j]);
      OneActivePerMember(s1, q.canonicalId, j, k);
    }
  }

  lemma HeldPositions(q: ClusterRequest, n: nat, u: State)
    requires LogHolds(q, n, u)
    ensures |ActiveOf(u, q.canonicalId)| == |q.loaded|
  {
    var r: seq<Id> := seq(|q.loaded|, i requires 0 <= i < |q.loaded| => n + i);
    forall k: Id ensures k in r <==> k in ActiveOf(u, q.canonicalId) {
      if n <= k < n + |q.loaded| {
        assert r[k - n] == k;
        assert Active(u, k);
      }
    }
    AscendingIdsUnique(ActiveOf(u, q.canonicalId), r);
  }

  lemma HeldPreviewRows(s: State, q: ClusterRequest, n: nat, u: State, auth: Caller)
    requires LogHolds(q, n, u) && RowsHold(s, q, u) && auth.key == q.owner && |q.loaded| > 0
    ensures PreviewRows(u, auth, q.namespace, q.canonicalId) == ActiveOf(u, q.canonicalId)
    ensures ActiveOf(u, q.canonicalId) != {}
    ensures forall k :: k in ActiveOf(u, q.canonicalId) ==> u.memberships[k].consolidatedAt == q.timestamp
  {
    assert Active(u, n);
    assert n in ActiveOf(u, q.canonicalId);
  }

  lemma HeldLinks(s: State, q: ClusterRequest, n: nat, u: State)
    requires Inv(u) && LogHolds(q, n, u) && RowsHold(s, q, u)
    ensures LinkedTo(u, q.canonicalId) == q.loaded.Keys
  {
    forall id | id in LinkedTo(u, q.canonicalId) ensures id in q.loaded {
      LinkHasOnlyActive(u, id);
      var k: nat :| OnlyActive(u, id, k) && u.memberships[k].canonical == q.canonicalId;
      assert k in ActiveOf(u, q.canonicalId);
    }
  }

  lemma PreviewOfOne(u: State, auth: Caller, namespace: string, c: Id)
    requires PreviewRows(u, auth, namespace, c) != {} && MayDeconsolidate(auth, namespace)
    ensures Preview(u, auth, namespace, {c}).Some?
    ensures var m := Preview(u, auth, namespace, {c}).value;
      m == Manifest(namespace, auth.key, true, [PreviewCanonical(u, auth, namespace, c)])
  {
  }

  /** In a consistent state the entry previewed for a canonical lists its active memberships and
      their members once each, and every one would be accepted. */
  lemma PreviewEntry(u: State, auth: Caller, namespace: string, c: Id, at: Instant)
    requires Inv(u) && PreviewRows(u, auth, namespace, c) != {}
    requires forall k :: k in ActiveOf(u, c) ==> u.memberships[k].consolidatedAt <= at
    ensures var e := PreviewCanonical(u, auth, namespace, c);
      && |e.members| == |ActiveOf(u, c)| && NoRepeats(e)
      && MembershipIds(e) == ActiveOf(u, c) && MemberIds(e) == LinkedTo(u, c)
      && CanonicalAccepted(u, auth, namespace, e, at)
  {
    var e := PreviewCanonical(u, auth, namespace, c);
    PreviewSeesAllActive(u, auth, namespace, c);
    var ks := AscendingIds(ActiveOf(u, c));
    forall i | 0 <= i < |e.members|
      ensures e.members[i].membershipId == ks[i] && ks[i] in ActiveOf(u, c)
      ensures MemberAccepted(u, auth, c, e.members[i], at)
    {
      assert ks[i] in ks;
      assert e.members[i] == PreviewMember(u, ks[i]);
    }
    forall k | k in ActiveOf(u, c) ensures k in MembershipIds(e) {
      var i :| 0 <= i < |ks| && ks[i] == k;
      assert e.members[i].membershipId == k;
    }
    forall id | id in LinkedTo(u, c) ensures id in MemberIds(e) {
      LinkHasOnlyActive(u, id);
      var k: nat :| OnlyActive(u, id, k) && u.memberships[k].canonical == c;
      assert k in ActiveOf(u, c);
      PreviewMembersAt(u, auth, namespace, c, id);
    }
    forall a, b | 0 <= a < b < |e.members|
      ensures e.members[a].memberId != e.members[b].memberId && e.members[a].membershipId != e.members[b].membershipId
    {
      assert IdLess(ks[a], ks[b]);
      assert Active(u, ks[a]) && Active(u, ks[b]);
    }
  }

  /** A canonical with 2 to 20 linked members is released by the manifest just previewed. */
  lemma PreviewThenApply(u: State, auth: Caller, namespace: string, c: Id, at: Instant)
    requires Inv(u) && PreviewRows(u, auth, namespace, c) != {} && MayDeconsolidate(auth, namespace)
    requires forall k :: k in ActiveOf(u, c) ==> u.memberships[k].consolidatedAt <= at
    requires 2 <= |ActiveOf(u, c)| <= MAX_CLUSTER_SIZE
    ensures Preview(u, auth, namespace, {c}).Some?
    ensures ApplyManifest(u, auth, Preview(u, auth, namespace, {c}).value, at) ==
            Some(ReleaseCanonical(u, auth, PreviewCanonical(u, auth, namespace, c), at))
  {
    var e := PreviewCanonical(u, auth, namespace, c);
    PreviewOfOne(u, auth, namespace, c);
    PreviewEntry(u, auth, namespace, c, at);
    SingleEntryApplies(u, auth, Manifest(namespace, auth.key, true, [e]), at);
  }

  lemma SingleEntryApplies(u: State, auth: Caller, m: Manifest, at: Instant)
    requires |m.canonicals| == 1 && WellFormed(m) && MayDeconsolidate(auth, m.namespace) && m.owner == auth.key
    requires m.hashMatches
    requires CanonicalAccepted(u, auth, m.namespace, m.canonicals[0], at)
    ensures ApplyManifest(u, auth, m, at) == Some(ReleaseCanonical(u, auth, m.canonicals[0], at))
  {
    var t := ReleaseCanonical(u, auth, m.canonicals[0], at);
    assert m.canonicals[1..] == [];
    assert ApplyEntries(t, auth, m.namespace, m.canonicals[1..], at) == Some(t);
    assert ApplyEntries(u, auth, m.namespace, m.canonicals, at) == Some(t);
  }

  /** What restoring leaves of a member: its own row, two revisions later. */
  predicate Restored(before: Memory, after: Memory, at: Instant) {
    after == before.(revision := before.revision + 2, updatedAt := at)
  }

  /** The tables after restoring the members of `q` from `u`. */
  ghost predicate Restoration(s: State, q: ClusterRequest, u: State, auth: Caller, at: Instant, t: State) {
    && LinkedTo(t, q.canonicalId) == {} && t.rows.Keys == u.rows.Keys
    && (forall id :: id in q.loaded ==> id in s.rows && id in t.rows && Restored(s.rows[id], t.rows[id], at))
    && q.canonicalId in t.rows
    && t.rows[q.canonicalId] ==
         CanonicalRow(q).(tombstone := Tombstone(Some(at), Some(auth.key), Some("deconsolidated canonical")))
    && (forall id :: id in u.rows && id !in q.loaded && id != q.canonicalId ==> t.rows[id] == u.rows[id])
  }

  lemma ReleaseRestores(s: State, q: ClusterRequest, u: State, auth: Caller, e: CanonicalEntry, at: Instant)
    requires RowsHold(s, q, u) && e.canonicalId == q.canonicalId
    requires MemberIds(e) == q.loaded.Keys == LinkedTo(u, q.canonicalId)
    ensures Restoration(s, q, u, auth, at, ReleaseCanonical(u, auth, e, at))
  {
  }

  /** `u`, with the manifest just previewed for `c` applied. */
  ghost predicate PreviewedAndApplied(u: State, auth: Caller, namespace: string, c: Id, at: Instant, t: State) {
    && Preview(u, auth, namespace, {c}).Some?
    && ApplyManifest(u, auth, Preview(u, auth, namespace, {c}).value, at) == Some(t)
  }

  /** Consolidate, let anything happen that leaves the cluster's rows alone, preview, apply.  The
      manifest is accepted; every member is its old self (content, tags, embedding, lifecycle) two
      revisions later; the canonical is tombstoned with nothing linked to it; no other row changes. */
  lemma RoundTrip(s: State, q: ClusterRequest, later: seq<Step>, auth: Caller, at: Instant) returns (t: State)
    requires Inv(s) && RequestOk(s, q) && ApplyCluster(s, q).0.Merged?
    requires RowsHold(s, q, Run(ApplyCluster(s, q).1, later))
    requires auth.key == q.owner && MayDeconsolidate(auth, q.namespace) && q.timestamp <= at
    ensures PreviewedAndApplied(Run(ApplyCluster(s, q).1, later), auth, q.namespace, q.canonicalId, at, t)
    ensures Restoration(s, q, Run(ApplyCluster(s, q).1, later), auth, at, t)
  {
    ApplyClusterCases(s, q);
    var u := Run(AfterLink(s, q), later);
    MergeHolds(s, q, later);
    t := HeldRoundTrip(s, q, |s.memberships|, u, auth, at);
  }

  lemma HeldRoundTrip(s: State, q: ClusterRequest, n: nat, u: State, auth: Caller, at: Instant) returns (t: State)
    requires Inv(u) && LogHolds(q, n, u) && RowsHold(s, q, u) && 2 <= |q.loaded| <= MAX_CLUSTER_SIZE
    requires auth.key == q.owner && MayDeconsolidate(auth, q.namespace) && q.timestamp <= at
    ensures PreviewedAndApplied(u, auth, q.namespace, q.canonicalId, at, t) && Restoration(s, q, u, auth, at, t)
  {
    HeldPositions(q, n, u);
    HeldPreviewRows(s, q, n, u, auth);
    HeldLinks(s, q, n, u);
    PreviewThenApply(u, auth, q.namespace, q.canonicalId, at);
    PreviewEntry(u, auth, q.namespace, q.canonicalId, at);
    var e := PreviewCanonical(u, auth, q.namespace, q.canonicalId);
    ReleaseRestores(s, q, u, auth, e, at);
    t := ReleaseCanonical(u, auth, e, at);
  }

  /** With nothing in between, the visible set is back to what it was. */
  lemma RoundTripRestoresVisible(
      s: State, q: ClusterRequest, auth: Caller, at: Instant, now: Instant) returns (t: State)
    requires Inv(s) && RequestOk(s, q) && ApplyCluster(s, q).0.Merged?
    requires auth.key == q.owner && MayDeconsolidate(auth, q.namespace) && q.timestamp <= at
    ensures PreviewedAndApplied(ApplyCluster(s, q).1, auth, q.namespace, q.canonicalId, at, t)
    ensures VisibleIds(t, now) == VisibleIds(s, now)
  {
    ApplyClusterCases(s, q);
    LinkKeeps(s, q);
    MergeAppends(s, q);
    MergeRows(s, q);
    t := HeldRoundTrip(s, q, |s.memberships|, AfterLink(s, q), auth, at);
    RestorationRestoresVisible(s, q, auth, at, t, now);
  }

  lemma RestorationRestoresVisible(s: State, q: ClusterRequest, auth: Caller, at: Instant, t: State, now: Instant)
    requires RequestOk(s, q) && Restoration(s, q, AfterLink(s, q), auth, at, t)
    ensures VisibleIds(t, now) == VisibleIds(s, now)
  {
  }

  // ---------------------------------------------------------------- incomplete manifests

  /** The entry of a hand-made manifest that lists some of the canonical's active memberships. */
  function PartialEntry(u: State, c: Id, ks: seq<nat>): CanonicalEntry
    requires c in u.rows
    requires forall i :: 0 <= i < |ks| ==> ks[i] < |u.memberships| && u.memberships[ks[i]].member in u.rows
  {
    CanonicalEntry(c, u.rows[c].revision, u.rows[c].base.payload.content,
                   seq(|ks|, i requires 0 <= i < |ks| => PreviewMember(u, ks[i])))
  }

  /** The caller owns the memberships at those positions, which are distinct, active and the
      canonical's, 2 to 20 of them. */
  predicate Listable(u: State, auth: Caller, c: Id, ks: seq<nat>, at: Instant) {
    && c in u.rows && 2 <= |ks| <= MAX_CLUSTER_SIZE
    && (forall i, j :: 0 <= i < j < |ks| ==> ks[i] != ks[j])
    && (forall i :: 0 <= i < |ks| ==>
          ks[i] in ActiveOf(u, c) && u.memberships[ks[i]].owner == auth.key &&
            u.memberships[ks[i]].consolidatedAt <= at)
  }

  lemma ActiveMembersExist(u: State, c: Id, k: nat)
    requires Inv(u) && k in ActiveOf(u, c)
    ensures k < |u.memberships| && u.memberships[k].member in u.rows && LinksTo(u.rows[u.memberships[k].member], c)
  {
  }

  /** Any two or more active memberships make a manifest that is accepted, however many it leaves
      out; what it leaves out stays linked. */
  lemma PartialManifestIsAccepted(u: State, auth: Caller, c: Id, ks: seq<nat>, at: Instant)
    requires Inv(u) && Listable(u, auth, c, ks, at) && MayDeconsolidate(auth, u.rows[c].base.namespace)
    ensures forall i :: 0 <= i < |ks| ==> ks[i] < |u.memberships| && u.memberships[ks[i]].member in u.rows
    ensures var m := Manifest(u.rows[c].base.namespace, auth.key, true, [PartialEntry(u, c, ks)]);
      && ApplyManifest(u, auth, m, at) == Some(ReleaseCanonical(u, auth, PartialEntry(u, c, ks), at))
      && LinkedTo(ApplyManifest(u, auth, m, at).value, c) ==
         LinkedTo(u, c) - MembersAt(u, ks)
  {
    forall i | 0 <= i < |ks| ensures ks[i] < |u.memberships| && u.memberships[ks[i]].member in u.rows {
      ActiveMembersExist(u, c, ks[i]);
    }
    var e := PartialEntry(u, c, ks);
    var m := Manifest(u.rows[c].base.namespace, auth.key, true, [e]);
    PartialEntryIsSound(u, auth, c, ks, at);
    SingleEntryApplies(u, auth, m, at);
    ReleaseLinks(u, auth, e, at, c);
    PartialMembers(u, c, ks);
  }

  /** The members of those memberships. */
  function MembersAt(u: State, ks: seq<nat>): set<Id>
    requires forall i :: 0 <= i < |ks| ==> ks[i] < |u.memberships|
  {
    set i | 0 <= i < |ks| :: u.memberships[ks[i]].member
  }

  lemma PartialMembers(u: State, c: Id, ks: seq<nat>)
    requires c in u.rows
    requires forall i :: 0 <= i < |ks| ==> ks[i] < |u.memberships| && u.memberships[ks[i]].member in u.rows
    ensures MemberIds(PartialEntry(u, c, ks)) == MembersAt(u, ks)
  {
    var e := PartialEntry(u, c, ks);
    forall id ensures id in MemberIds(e) <==> id in MembersAt(u, ks) {
      if id in MemberIds(e) {
        var i :| 0 <= i < |e.members| && e.members[i].memberId == id;
        assert u.memberships[ks[i]].member == id;
      }
      if id in MembersAt(u, ks) {
        var i :| 0 <= i < |ks| && u.memberships[ks[i]].member == id;
        assert e.members[i].memberId == id;
      }
    }
  }

  lemma PartialEntryIsSound(u: State, auth: Caller, c: Id, ks: seq<nat>, at: Instant)
    requires Inv(u) && Listable(u, auth, c, ks, at)
    ensures forall i :: 0 <= i < |ks| ==> ks[i] < |u.memberships| && u.memberships[ks[i]].member in u.rows
    ensures var e := PartialEntry(u, c, ks);
      NoRepeats(e) && CanonicalAccepted(u, auth, u.rows[c].base.namespace, e, at)
  {
    forall i | 0 <= i < |ks|
      ensures ks[i] < |u.memberships| && u.memberships[ks[i]].member in u.rows
      ensures LinksTo(u.rows[u.memberships[ks[i]].member], c)
    {
      ActiveMembersExist(u, c, ks[i]);
    }
    assert u.rows[c].base.kind == Consolidation by { assert ks[0] in ActiveOf(u, c); }
    var e := PartialEntry(u, c, ks);
    forall a, b | 0 <= a < b < |ks| ensures e.members[a].memberId != e.members[b].memberId {
      assert Active(u, ks[a]) && Active(u, ks[b]);
    }
  }

  // ---------------------------------------------------------------- a run that strands a member

  /** Three alike memories, merged, and a manifest for two of them. */
  function Plain(): Memory {
    Memory(Base(Semantic, "n", 0, 0, Payload("x", {}, 0), true, 0, None, None, None, false, None), 0, 0, ALIVE, None)
  }

  function ThreeMemories(): State {
    State(map[0 := Plain(), 1 := Plain(), 2 := Plain()], [])
  }

  function MergeOfThree(): ClusterRequest {
    ClusterRequest(0, "n", 0,
                   map[0 := FingerprintOf(0, Plain()), 1 := FingerprintOf(1, Plain()), 2 := FingerprintOf(2, Plain())],
                   3, Payload("y", {}, 0), true, 0, 0, 0)
  }

  lemma ThreeInserted()
    ensures Run(EMPTY, [Insert(0, Plain()), Insert(1, Plain()), Insert(2, Plain())]) == ThreeMemories()
  {
    var ts := [Insert(0, Plain()), Insert(1, Plain()), Insert(2, Plain())];
    assert ts[..2] == [Insert(0, Plain()), Insert(1, Plain())];
    assert ts[..2][..1] == [Insert(0, Plain())] && ts[..2][..1][..0] == [];
    assert Run(EMPTY, ts[..2][..1]) == State(map[0 := Plain()], []);
    assert Run(EMPTY, ts[..2]) == State(map[0 := Plain(), 1 := Plain()], []);
  }

  lemma ThreeAreMerged()
    ensures RequestOk(ThreeMemories(), MergeOfThree()) && Fresh(ThreeMemories(), MergeOfThree())
    ensures ApplyCluster(ThreeMemories(), MergeOfThree()) == (Merged(3), AfterLink(ThreeMemories(), MergeOfThree()))
  {
    ThreeMayBeMerged();
    ThreeAreUntouched();
    hide RequestOk, FingerprintOf, AfterLink, Fresh, Conflicts;
  }

  lemma ThreeAreUntouched()
    ensures Fresh(ThreeMemories(), MergeOfThree())
    ensures Conflicts(ThreeMemories(), MergeOfThree()) == {}
  {
    hide FingerprintOf;
  }

  lemma ThreeMayBeMerged()
    ensures RequestOk(ThreeMemories(), MergeOfThree())
  {
    hide FingerprintOf, Plain;
    var q := MergeOfThree();
    assert q.loaded.Keys == {0, 1, 2};
    assert |q.loaded| == |q.loaded.Keys|;
  }

  lemma ThreeAreLinked()
    ensures LinkedTo(AfterLink(ThreeMemories(), MergeOfThree()), 3) == {0, 1, 2}
  {
    hide AfterLink, FingerprintOf;
    assert MergeOfThree().loaded.Keys == {0, 1, 2};
    assert LinkedTo(ThreeMemories(), 3) == {};
    MergeLinks(ThreeMemories(), MergeOfThree());
  }

  lemma MergeLinks(s: State, q: ClusterRequest)
    requires q.loaded.Keys <= s.rows.Keys && q.canonicalId !in q.loaded && LinkedTo(s, q.canonicalId) == {}
    ensures LinkedTo(AfterLink(s, q), q.canonicalId) == q.loaded.Keys
  {
    hide NewMemberships, MemberOrder;
    forall id | id in s.rows ensures !LinksTo(s.rows[id], q.canonicalId) {
      assert id !in LinkedTo(s, q.canonicalId);
    }
  }

  lemma CanonicalIsUnlinked(q: ClusterRequest)
    ensures CanonicalRow(q).link.None? && CanonicalRow(q).base.kind == Consolidation
    ensures CanonicalRow(q).base.namespace == q.namespace
  {
  }

  lemma ThreeAreLogged()
    ensures AfterLink(ThreeMemories(), MergeOfThree()).memberships ==
      [NewMembership(MergeOfThree(), 0), NewMembership(MergeOfThree(), 1), NewMembership(MergeOfThree(), 2)]
  {
    hide FingerprintOf, LinkedRows, Plain;
    var q := MergeOfThree();
    assert q.loaded.Keys == {0, 1, 2};
    AscendingIdsUnique(q.loaded.Keys, [0, 1, 2]);
    assert MemberOrder(q) == [0, 1, 2];
    var log := NewMemberships(q, [0, 1, 2]);
    assert log[0] == NewMembership(q, [0, 1, 2][0]) && log[1] == NewMembership(q, [0, 1, 2][1]);
    assert log[2] == NewMembership(q, [0, 1, 2][2]);
  }

  /** The operator of that namespace. */
  function Operator(): Caller {
    Caller(0, {"consolidate", "read", "write", "delete"}, {"n"}, 0)
  }

  /** From the empty tables, an accepted manifest can leave a single memory linked to its canonical,
      which by LoneMemberIsStranded no manifest releases again. */
  lemma AMemberCanBeStranded() returns (ts: seq<Step>, c: Id)
    ensures var s := Run(EMPTY, ts);
      Inv(s) && c in s.rows && s.rows[c].base.kind == Consolidation && Deleted(s.rows[c]) && |LinkedTo(s, c)| == 1
  {
    hide Next, Inv, AfterLink, ThreeMemories, MergeOfThree, ApplyManifest, LinkedTo, Plain, Operator;
    var inserts := [Insert(0, Plain()), Insert(1, Plain()), Insert(2, Plain())];
    ThreeInserted();
    MergeIsAStep();
    RunOneMore(inserts, Consolidate(MergeOfThree()));
    var merged := inserts + [Consolidate(MergeOfThree())];
    EmptyInv();
    RunKeeps(EMPTY, merged);
    var u := Run(EMPTY, merged);
    var m, t := TwoOfThree(u);
    ManifestIsAStep(u, Operator(), m, 0);
    RunOneMore(merged, Deconsolidate(Operator(), m, 0));
    ts, c := merged + [Deconsolidate(Operator(), m, 0)], 3;
    RunKeeps(EMPTY, ts);
  }

  lemma MergeIsAStep()
    ensures Next(ThreeMemories(), Consolidate(MergeOfThree())) == AfterLink(ThreeMemories(), MergeOfThree())
  {
    hide ThreeMemories, MergeOfThree, AfterLink, Fresh;
    ThreeAreMerged();
  }

  lemma ManifestIsAStep(u: State, auth: Caller, m: Manifest, at: Instant)
    requires ApplyManifest(u, auth, m, at).Some?
    ensures Next(u, Deconsolidate(auth, m, at)) == ApplyManifest(u, auth, m, at).value
  {
  }

  lemma RunOneMore(ts: seq<Step>, t: Step)
    ensures Run(EMPTY, ts + [t]) == Next(Run(EMPTY, ts), t)
  {
    assert (ts + [t])[..|ts|] == ts;
  }

  lemma TwoOfThree(u: State) returns (m: Manifest, t: State)
    requires u == AfterLink(ThreeMemories(), MergeOfThree()) && Inv(u)
    ensures ApplyManifest(u, Operator(), m, 0) == Some(t)
    ensures 3 in t.rows && t.rows[3].base.kind == Consolidation && Deleted(t.rows[3]) && |LinkedTo(t, 3)| == 1
  {
    hide AfterLink, Inv, ApplyManifest, LinkedTo, ThreeMemories, MergeOfThree, CanonicalRow;
    ThreeAreLinked();
    TwoAreListable(u);
    PartialManifestIsAccepted(u, Operator(), 3, [0, 1], 0);
    var e := PartialEntry(u, 3, [0, 1]);
    m, t := Manifest("n", 0, true, [e]), ReleaseCanonical(u, Operator(), e, 0);
    assert LinkedTo(t, 3) == {2};
    hide ReleaseCanonical;
    NothingLeftIffComplete(u, Operator(), m, 0, 0);
    ManifestKeepsKind(u, Operator(), m, 0, 3);
  }

  lemma ManifestKeepsKind(u: State, auth: Caller, m: Manifest, at: Instant, id: Id)
    requires ApplyManifest(u, auth, m, at).Some? && id in u.rows
    ensures var t := ApplyManifest(u, auth, m, at).value; id in t.rows && t.rows[id].base == u.rows[id].base
  {
    EntriesEvolve(u, auth, m.namespace, m.canonicals, at);
    hide ApplyEntries;
  }

  lemma TwoAreListable(u: State)
    requires u == AfterLink(ThreeMemories(), MergeOfThree())
    ensures Listable(u, Operator(), 3, [0, 1], 0) && MayDeconsolidate(Operator(), "n") && MembersAt(u, [0, 1]) == {0, 1}
    ensures u.rows[3].base.kind == Consolidation && u.rows[3].base.namespace == "n"
  {
    ThreeAreLogged();
    MergedCanonical();
    hide AfterLink, ThreeMemories, FingerprintOf;
    assert u.memberships[[0, 1][0]] == NewMembership(MergeOfThree(), 0);
    assert u.memberships[[0, 1][1]] == NewMembership(MergeOfThree(), 1);
  }

  lemma MergedCanonical()
    ensures var u := AfterLink(ThreeMemories(), MergeOfThree());
      3 in u.rows && u.rows[3].base.kind == Consolidation && u.rows[3].base.namespace == "n"
  {
    CanonicalIsUnlinked(MergeOfThree());
    hide NewMemberships, MemberOrder, FingerprintOf, CanonicalRow, ThreeMemories;
  }

  // ---------------------------------------------------------------- a member left alone

  /** A canonical down to one linked member can never be released again: the manifest schema asks
      for two members, and links to an existing canonical only disappear. */
  lemma LoneMemberIsStranded(s: State, c: Id, later: seq<Step>, auth: Caller, m: Manifest, at: Instant, i: nat)
    requires Inv(s) && c in s.rows && s.rows[c].base.kind == Consolidation && |LinkedTo(s, c)| <= 1
    requires i < |m.canonicals| && m.canonicals[i].canonicalId == c
    ensures ApplyManifest(Run(s, later), auth, m, at) == None
  {
    var u := Run(s, later);
    LinksOnlyDisappear(s, c, later);
    if WellFormed(m) {
      SubsetSize(LinkedTo(u, c), LinkedTo(s, c));
      EntryNeedsTwo(u, auth, m.namespace, m.canonicals, at, i);
    }
  }

  lemma LinksOnlyDisappear(s: State, c: Id, later: seq<Step>)
    requires Inv(s) && c in s.rows
    ensures LinkedTo(Run(s, later), c) <= LinkedTo(s, c)
  {
    hide Inv, Run, LinkedTo, ActiveOf, RowsEvolve;
    var u := Run(s, later);
    RunKeeps(s, later);
    RunEvolves(s, later);
    ActiveNeverGrows(s, later, c);
    forall id | id in LinkedTo(u, c) ensures id in LinkedTo(s, c) {
      var k := LinkedMembership(u, c, id);
      ActiveIsLinked(s, c, k);
      assert SameEntry(s.memberships[k], u.memberships[k]);
    }
  }

  lemma AcceptedEntryHasTwo(s: State, auth: Caller, namespace: string, e: CanonicalEntry, at: Instant)
    requires CanonicalAccepted(s, auth, namespace, e, at) && |e.members| >= 2 && NoRepeats(e)
    ensures |LinkedTo(s, e.canonicalId)| >= 2
  {
    assert MemberAccepted(s, auth, e.canonicalId, e.members[0], at);
    assert MemberAccepted(s, auth, e.canonicalId, e.members[1], at);
    SubsetSize({e.members[0].memberId, e.members[1].memberId}, LinkedTo(s, e.canonicalId));
  }

  lemma {:induction false} EntryNeedsTwo(
      s: State, auth: Caller, namespace: string, es: seq<CanonicalEntry>, at: Instant, i: nat)
    requires i < |es| && |es[i].members| >= 2 && NoRepeats(es[i])
    requires |LinkedTo(s, es[i].canonicalId)| <= 1
    ensures ApplyEntries(s, auth, namespace, es, at) == None
    decreases |es|
  {
    hide CanonicalAccepted, ReleaseCanonical, LinkedTo, NoRepeats;
    if CanonicalAccepted(s, auth, namespace, es[0], at) {
      var u := ReleaseCanonical(s, auth, es[0], at);
      if i == 0 {
        AcceptedEntryHasTwo(s, auth, namespace, es[0], at);
      } else {
        ReleaseLinks(s, auth, es[0], at, es[i].canonicalId);
        SubsetSize(LinkedTo(u, es[i].canonicalId), LinkedTo(s, es[i].canonicalId));
        EntryNeedsTwo(u, auth, namespace, es[1..], at, i - 1);
      }
    }
  }

  // ---------------------------------------------------------------- forgetting

  /** A forget step tombstones at most 100 rows, returns in id order exactly the selected ids it
      tombstoned, and changes no other column or row. */
  lemma ForgetIsExact(s: State, q: ForgetRequest, id: Id)
    requires Forget(s, q).0.Forgotten?
    ensures var ids, t := Forget(s, q).0.ids, Forget(s, q).1;
      && |set x | x in s.rows && t.rows[x] != s.rows[x]| <= MAX_FORGET_ROWS
      && SortedBy(IdLess, ids)
      && (id in ids <==> id in Selected(s, q) && !Deleted(s.rows[id]) && t.rows[id].tombstone.at == Some(q.updatedAt))
      && (id in s.rows ==>
            t.rows[id] == s.rows[id] || (!Deleted(s.rows[id]) && t.rows[id] == Tombstoned(s.rows[id], q)))
      && t.memberships == s.memberships && t.rows.Keys == s.rows.Keys
  {
    var t := Forget(s, q).1;
    var changed := set x | x in s.rows && t.rows[x] != s.rows[x];
    assert changed <= Doomed(s, q);
    SubsetSize(changed, Doomed(s, q));
    assert changed == set x | x in s.rows && t.rows[x] != s.rows[x];
  }

  /** In every reachable state a forgotten memory's canonical is forgotten, and stays so. */
  lemma ForgottenWithCanonical(ts: seq<Step>, id: Id)
    requires id in Run(EMPTY, ts).rows && Deleted(Run(EMPTY, ts).rows[id]) && Run(EMPTY, ts).rows[id].link.Some?
    ensures var s := Run(EMPTY, ts); var c := s.rows[id].link.value.into;
      c in s.rows && Deleted(s.rows[c])
  {
    EmptyInv();
    RunKeeps(EMPTY, ts);
    LinkHasOnlyActive(Run(EMPTY, ts), id);
  }
}
