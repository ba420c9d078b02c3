/** The transactions themselves, on the mutable tables: each method leaves the tables as its
    specification in ConsolidationStore says, or, where the code throws, as they were. */
module ConsolidationTables {
  import opened Prelude
  import opened Ordering
  import opened ConsolidationStore
  import opened ConsolidationSafety
  import opened ConsolidationTheorems
  import opened ConsolidationRoundTrip

  // ---------------------------------------------------------------- consolidation, in the columns

  /** The loaded version of the memory is the locked one, and the memory may still be merged. */
  predicate Unchanged(rows: map<Id, Memory>, q: ClusterRequest, id: Id)
    requires id in q.loaded
  {
    id in rows &&
    var m := rows[id];
    && q.loaded[id].id == id && q.loaded[id].content == m.base.payload.content
    && q.loaded[id].namespace == m.base.namespace == q.namespace
    && q.loaded[id].revision == m.revision && q.loaded[id].createdAt == m.base.createdAt
    && q.loaded[id].embedding == m.base.payload.embedding && q.loaded[id].updatedAt == m.updatedAt
    && m.base.accessLevel == 0 && m.base.kind == Semantic && m.tombstone.at == None
    && (m.base.expiresAt == None || m.base.expiresAt.value > q.lockedAt)
    && m.base.supersededAt == None && m.base.validTo == None && m.link == None
    && !m.base.inDocument && m.base.sourceKey == None && m.base.currentEmbedding
  }

  /** A row of the client has the cluster's source key, the digest of the policy and its members. */
  predicate HasKey(rows: map<Id, Memory>, q: ClusterRequest, c: Id) {
    && c in rows && rows[c].base.owner == q.owner
    && rows[c].base.sourceKey == Some(CanonicalKey(q.policyHash, set id | id in q.loaded :: q.loaded[id]))
  }

  /** No membership of a member is open, and none expires before it is linked. */
  predicate Linkable(s: State, q: ClusterRequest) {
    && (forall k :: 0 <= k < |s.memberships| && s.memberships[k].member in q.loaded ==>
          s.memberships[k].deconsolidatedAt != None)
    && forall id :: id in q.loaded && id in s.rows ==>
         s.rows[id].base.expiresAt == None || s.rows[id].base.expiresAt.value > q.linkedAt
  }

  /** One canonical more, the members linked to it one revision up, and every other row as it was. */
  predicate MergesRows(before: map<Id, Memory>, after: map<Id, Memory>, q: ClusterRequest) {
    && after.Keys == before.Keys + {q.canonicalId}
    && after[q.canonicalId] ==
         Memory(Base(Consolidation, q.namespace, q.owner, 0, q.canonical, true, q.timestamp, None, None, None, false,
                     Some(CanonicalKey(q.policyHash, set id | id in q.loaded :: q.loaded[id]))),
                0, q.timestamp, Tombstone(None, None, None), None)
    && (forall id :: id in before && id != q.canonicalId ==>
          after[id] ==
            if id in q.loaded then Memory(before[id].base, before[id].revision + 1, q.timestamp, before[id].tombstone,
                                          Some(Link(q.canonicalId, q.timestamp)))
            else before[id])
  }

  /** One open membership more for each member, in id order. */
  predicate MergesLog(before: seq<Membership>, after: seq<Membership>, q: ClusterRequest) {
    && before <= after && |after| == |before| + |q.loaded|
    && (forall k :: |before| <= k < |after| ==>
          && after[k].member in q.loaded && after[k].owner == q.owner && after[k].namespace == q.namespace
          && after[k].canonical == q.canonicalId && after[k].memberRevision == q.loaded[after[k].member].revision
          && after[k].fingerprint == q.loaded[after[k].member] && after[k].consolidatedAt == q.timestamp
          && after[k].deconsolidatedAt == None)
    && forall j, k :: |before| <= j < k < |after| ==> after[j].member < after[k].member
  }

  lemma StaleIff(s: State, q: ClusterRequest)
    ensures Fresh(s, q) <==> q.stillSimilar && forall id :: id in q.loaded ==> Unchanged(s.rows, q, id)
  {
  }

  lemma ConflictIff(s: State, q: ClusterRequest)
    ensures Conflicts(s, q) == {} <==> forall c :: c in s.rows ==> !HasKey(s.rows, q, c)
  {
    KeyMembers(q);
    if forall c :: c in s.rows ==> !HasKey(s.rows, q, c) {
      forall c ensures c !in Conflicts(s, q) {
      }
    }
    forall c | HasKey(s.rows, q, c) ensures c in Conflicts(s, q) {
    }
  }

  lemma KeyMembers(q: ClusterRequest)
    ensures (set id | id in q.loaded :: q.loaded[id]) == q.loaded.Values
  {
  }

  /** The only row with the key is a canonical of the namespace, and as many open memberships name it
      as members were loaded, each with its fingerprint. */
  ghost predicate Replays(s: State, q: ClusterRequest, c: Id) {
    && (forall d :: d in s.rows && HasKey(s.rows, q, d) <==> d == c)
    && c in s.rows && s.rows[c].base.namespace == q.namespace && s.rows[c].base.kind == Consolidation
    && |OpenOf(s, c)| == |q.loaded|
    && forall k :: 0 <= k < |s.memberships| && k in OpenOf(s, c) ==>
         s.memberships[k].member in q.loaded && q.loaded[s.memberships[k].member] == s.memberships[k].fingerprint
  }

  lemma ReplayIs(s: State, q: ClusterRequest)
    ensures var r := ReplayOutcome(s, q);
      (r.Aborted? || r.Replayed?) && (r.Replayed? ==> Replays(s, q, r.existing))
  {
    forall d ensures d in Conflicts(s, q) <==> d in s.rows && HasKey(s.rows, q, d) {
      KeyMembers(q);
    }
    hide Conflicts, HasKey, KeyOf;
    forall c | c in s.rows ensures ActiveOf(s, c) == OpenOf(s, c) {
    }
    hide ActiveOf, OpenOf;
  }

  function OpenOf(s: State, c: Id): set<int> {
    set k | 0 <= k < |s.memberships| && s.memberships[k].deconsolidatedAt == None && s.memberships[k].canonical == c
  }

  lemma LinkableIff(s: State, q: ClusterRequest)
    ensures CanLink(s, q) <==> Linkable(s, q)
  {
    assert forall k :: 0 <= k < |s.memberships| ==> (Active(s, k) <==> s.memberships[k].deconsolidatedAt == None);
  }

  lemma LinkMergesRows(rows: map<Id, Memory>, q: ClusterRequest)
    requires q.canonicalId !in q.loaded
    ensures MergesRows(rows, LinkedRows(rows, q), q)
  {
    KeyMembers(q);
  }

  lemma LinkMergesLog(log: seq<Membership>, q: ClusterRequest)
    ensures MergesLog(log, log + NewMemberships(q, MemberOrder(q)), q)
  {
    var ids := MemberOrder(q);
    hide MemberOrder;
    forall j, k | 0 <= j < k < |ids| ensures ids[j] < ids[k] {
      assert IdLess(ids[j], ids[k]);
    }
    assert forall i :: 0 <= i < |ids| ==> ids[i] in ids;
    NewLog(log, q, ids);
  }

  lemma NewLog(log: seq<Membership>, q: ClusterRequest, ids: seq<Id>)
    requires (forall id :: id in ids ==> id in q.loaded) && |ids| == |q.loaded|
    requires forall j, k :: 0 <= j < k < |ids| ==> ids[j] < ids[k]
    ensures MergesLog(log, log + NewMemberships(q, ids), q)
  {
    var after := log + NewMemberships(q, ids);
    forall k | |log| <= k < |after| ensures after[k] == NewMembership(q, ids[k - |log|]) {
    }
    hide NewMemberships;
  }

  // ---------------------------------------------------------------- forgetting, in the columns

  /** The filters of a forget, those that are given. */
  predicate Wanted(rows: map<Id, Memory>, q: ForgetRequest, id: Id) {
    id in rows &&
    var m := rows[id];
    && m.tombstone.at == None && (m.base.expiresAt == None || m.base.expiresAt.value > q.selectedAt)
    && m.base.namespace in q.namespaces && m.base.accessLevel <= q.maxAccessLevel
    && (q.ids == None || id in q.ids.value)
    && (q.namespace == None || m.base.namespace == q.namespace.value)
    && (q.before == None || m.base.createdAt < q.before.value)
    && (q.tags == None || forall tag :: tag in q.tags.value ==> tag in m.base.payload.tags)
  }

  function WantedIds(rows: map<Id, Memory>, q: ForgetRequest): set<Id> {
    set id | id in rows && Wanted(rows, q, id)
  }

  /** The canonicals they were merged into. */
  function CanonicalIds(rows: map<Id, Memory>, q: ForgetRequest): set<Id> {
    set id | id in rows && Wanted(rows, q, id) && rows[id].link != None :: rows[id].link.value.into
  }

  /** What the UPDATE reaches, still alive and unexpired by its own clock. */
  predicate Reached(rows: map<Id, Memory>, q: ForgetRequest, id: Id) {
    && id in rows && (id in WantedIds(rows, q) || id in CanonicalIds(rows, q))
    && rows[id].tombstone.at == None && (rows[id].base.expiresAt == None || rows[id].base.expiresAt.value > q.updatedAt)
  }

  predicate Forgets(before: map<Id, Memory>, after: map<Id, Memory>, q: ForgetRequest) {
    && after.Keys == before.Keys
    && forall id :: id in before ==>
         var m := before[id];
         after[id] ==
           if Reached(before, q, id)
           then Memory(m.base, m.revision, m.updatedAt, Tombstone(Some(q.updatedAt), Some(q.caller), q.reason), m.link)
           else m
  }

  lemma SelectedIs(s: State, q: ForgetRequest)
    ensures Selected(s, q) == WantedIds(s.rows, q)
    ensures Doomed(s, q) == WantedIds(s.rows, q) + CanonicalIds(s.rows, q)
    ensures forall id :: id in Hit(s, q) <==> Reached(s.rows, q, id)
  {
    forall id | id in s.rows ensures ForgetMatches(q, id, s.rows[id]) <==> Wanted(s.rows, q, id) {
    }
    hide ForgetMatches, Wanted;
  }

  lemma ForgetIs(s: State, q: ForgetRequest)
    ensures Forgets(s.rows, TombstoneRows(s.rows, Hit(s, q), q), q)
  {
    SelectedIs(s, q);
    hide Hit, Reached;
  }

  // ---------------------------------------------------------------- deconsolidation, in the columns

  predicate IsMember(m: Manifest, i: int, a: int) {
    0 <= i < |m.canonicals| && 0 <= a < |m.canonicals[i].members|
  }

  /** One to a hundred canonicals with two to twenty members each, and no id twice. */
  ghost predicate Shaped(m: Manifest) {
    && 1 <= |m.canonicals| <= 100
    && (forall i :: 0 <= i < |m.canonicals| ==> 2 <= |m.canonicals[i].members| <= 20)
    && (forall i, j :: 0 <= i < j < |m.canonicals| ==> m.canonicals[i].canonicalId != m.canonicals[j].canonicalId)
    && forall i, j, a, b :: IsMember(m, i, a) && IsMember(m, j, b) && (i != j || a != b) ==>
         && m.canonicals[i].members[a].memberId != m.canonicals[j].members[b].memberId
         && m.canonicals[i].members[a].membershipId != m.canonicals[j].members[b].membershipId
  }

  /** The caller holds all four permissions on the namespace, is not cleared for more than ordinary
      rows, and the manifest is its own and unaltered. */
  predicate Permitted(auth: Caller, m: Manifest) {
    && "consolidate" in auth.permissions && "read" in auth.permissions && "write" in auth.permissions
    && "delete" in auth.permissions && m.namespace in auth.namespaces && auth.maxAccessLevel == 0
    && m.owner == auth.key && m.hashMatches
  }

  /** The canonical is as previewed; each member is, is linked to it, and its membership is open. */
  predicate AsPreviewed(s: State, auth: Caller, namespace: string, e: CanonicalEntry, at: Instant) {
    && e.canonicalId in s.rows
    && s.rows[e.canonicalId].base.namespace == namespace && s.rows[e.canonicalId].base.kind == Consolidation
    && s.rows[e.canonicalId].revision == e.canonicalRevision
    && s.rows[e.canonicalId].base.payload.content == e.canonicalContent
    && forall a :: 0 <= a < |e.members| ==>
         var x := e.members[a];
         && x.memberId in s.rows && x.membershipId < |s.memberships|
         && s.rows[x.memberId].link != None && s.rows[x.memberId].link.value.into == e.canonicalId
         && s.rows[x.memberId].revision == x.memberRevision
         && s.rows[x.memberId].base.payload.content == x.memberContent
         && s.memberships[x.membershipId].member == x.memberId
         && s.memberships[x.membershipId].deconsolidatedAt == None
         && s.memberships[x.membershipId].owner == auth.key && s.memberships[x.membershipId].consolidatedAt <= at
  }

  ghost predicate ListsMember(m: Manifest, id: Id) {
    exists i, a :: IsMember(m, i, a) && m.canonicals[i].members[a].memberId == id
  }

  ghost predicate ListsMembership(m: Manifest, k: nat) {
    exists i, a :: IsMember(m, i, a) && m.canonicals[i].members[a].membershipId == k
  }

  predicate ListsCanonical(m: Manifest, id: Id) {
    exists i :: 0 <= i < |m.canonicals| && m.canonicals[i].canonicalId == id
  }

  /** A member loses its link and moves one revision up; a canonical is tombstoned unless it was. */
  function RowAfter(r: Memory, member: bool, canonical: bool, auth: Caller, at: Instant): Memory {
    if member then Memory(r.base, r.revision + 1, at, r.tombstone, None)
    else if canonical then
      Memory(r.base, r.revision, r.updatedAt,
             Tombstone(if r.tombstone.at == None then Some(at) else r.tombstone.at,
                       if r.tombstone.caller == None then Some(auth.key) else r.tombstone.caller,
                       if r.tombstone.reason == None then Some("deconsolidated canonical") else r.tombstone.reason),
             r.link)
    else r
  }

  /** That happens to what the manifest lists, its memberships are closed, and nothing else changes. */
  ghost predicate Releases(s: State, t: State, auth: Caller, m: Manifest, at: Instant) {
    && t.rows.Keys == s.rows.Keys && |t.memberships| == |s.memberships|
    && (forall id :: id in s.rows ==>
          t.rows[id] == RowAfter(s.rows[id], ListsMember(m, id), ListsCanonical(m, id), auth, at))
    && forall k :: 0 <= k < |s.memberships| ==>
         t.memberships[k] ==
           if ListsMembership(m, k) then s.memberships[k].(deconsolidatedAt := Some(at)) else s.memberships[k]
  }

  lemma ShapedIff(m: Manifest)
    ensures Shaped(m) <==> WellFormed(m)
  {
    if WellFormed(m) {
      forall i, j, a, b | IsMember(m, i, a) && IsMember(m, j, b) && (i != j || a != b)
        ensures m.canonicals[i].members[a].memberId != m.canonicals[j].members[b].memberId
        ensures m.canonicals[i].members[a].membershipId != m.canonicals[j].members[b].membershipId
      {
        MembersApart(m, i, j, a, b);
      }
    }
    if Shaped(m) {
      forall i | 0 <= i < |m.canonicals| ensures NoRepeats(m.canonicals[i]) {
        assert forall a :: 0 <= a < |m.canonicals[i].members| ==> IsMember(m, i, a);
      }
      forall i, j | 0 <= i < j < |m.canonicals|
        ensures MemberIds(m.canonicals[i]) !! MemberIds(m.canonicals[j])
        ensures MembershipIds(m.canonicals[i]) !! MembershipIds(m.canonicals[j])
      {
        assert forall a :: 0 <= a < |m.canonicals[i].members| ==> IsMember(m, i, a);
        assert forall b :: 0 <= b < |m.canonicals[j].members| ==> IsMember(m, j, b);
      }
    }
  }

  lemma MembersApart(m: Manifest, i: nat, j: nat, a: nat, b: nat)
    requires WellFormed(m) && IsMember(m, i, a) && IsMember(m, j, b) && (i != j || a != b)
    ensures m.canonicals[i].members[a].memberId != m.canonicals[j].members[b].memberId
    ensures m.canonicals[i].members[a].membershipId != m.canonicals[j].members[b].membershipId
  {
    var d, e := m.canonicals[i], m.canonicals[j];
    assert d.members[a].memberId in MemberIds(d) && e.members[b].memberId in MemberIds(e);
    assert d.members[a].membershipId in MembershipIds(d) && e.members[b].membershipId in MembershipIds(e);
    assert NoRepeats(d);
  }

  lemma AsPreviewedIff(s: State, auth: Caller, namespace: string, e: CanonicalEntry, at: Instant)
    ensures AsPreviewed(s, auth, namespace, e, at) <==> CanonicalAccepted(s, auth, namespace, e, at)
  {
  }

  lemma AcceptedIff(s: State, auth: Caller, m: Manifest, at: Instant)
    requires Inv(s)
    ensures ApplyManifest(s, auth, m, at).Some? <==>
      && Shaped(m) && Permitted(auth, m)
      && forall i :: 0 <= i < |m.canonicals| ==> AsPreviewed(s, auth, m.namespace, m.canonicals[i], at)
  {
    ShapedIff(m);
    hide Shaped, AsPreviewed, CanonicalAccepted, ApplyEntries, Inv;
    if WellFormed(m) { EntriesAcceptedIff(s, auth, m.namespace, m.canonicals, at); }
    forall i | 0 <= i < |m.canonicals|
      ensures AsPreviewed(s, auth, m.namespace, m.canonicals[i], at) <==>
        CanonicalAccepted(s, auth, m.namespace, m.canonicals[i], at)
    {
      AsPreviewedIff(s, auth, m.namespace, m.canonicals[i], at);
    }
    hide WellFormed;
  }

  ghost predicate InEntries(es: seq<CanonicalEntry>, id: Id) {
    exists i :: 0 <= i < |es| && id in MemberIds(es[i])
  }

  ghost predicate ClosedBy(es: seq<CanonicalEntry>, k: nat) {
    exists i :: 0 <= i < |es| && k in MembershipIds(es[i])
  }

  ghost predicate IsCanonical(es: seq<CanonicalEntry>, id: Id) {
    exists i :: 0 <= i < |es| && es[i].canonicalId == id
  }

  /** What a row becomes. */
  ghost function Freed(m: Memory, auth: Caller, es: seq<CanonicalEntry>, at: Instant, id: Id): Memory {
    if InEntries(es, id) then Unlinked(m, at) else if IsCanonical(es, id) then Retired(m, auth, at) else m
  }

  lemma InEntriesCons(es: seq<CanonicalEntry>, id: Id, k: nat)
    requires es != []
    ensures InEntries(es, id) <==> id in MemberIds(es[0]) || InEntries(es[1..], id)
    ensures ClosedBy(es, k) <==> k in MembershipIds(es[0]) || ClosedBy(es[1..], k)
    ensures IsCanonical(es, id) <==> id == es[0].canonicalId || IsCanonical(es[1..], id)
  {
    hide MemberIds, MembershipIds;
    assert forall i :: 1 <= i < |es| ==> es[i] == es[1..][i - 1];
  }

  lemma {:induction false} EntriesFree(
      s: State, auth: Caller, namespace: string, es: seq<CanonicalEntry>, at: Instant, id: Id, k: nat)
    requires Inv(s) && Disjoint(es) && ApplyEntries(s, auth, namespace, es, at).Some?
    ensures var t := ApplyEntries(s, auth, namespace, es, at).value;
      && t.rows.Keys == s.rows.Keys && |t.memberships| == |s.memberships|
      && (id in s.rows ==> t.rows[id] == Freed(s.rows[id], auth, es, at, id))
      && (k < |s.memberships| ==>
            t.memberships[k] ==
              if ClosedBy(es, k) then s.memberships[k].(deconsolidatedAt := Some(at)) else s.memberships[k])
    decreases |es|
  {
    hide InEntries, ClosedBy, IsCanonical, Inv, CanonicalAccepted, ReleaseCanonical, MemberIds, MembershipIds;
    hide Unlinked, Retired;
    if es == [] {
      NoEntries(id, k);
    } else {
      var u := ReleaseCanonical(s, auth, es[0], at);
      EntriesAcceptedIff(s, auth, namespace, es, at);
      ReleaseKeeps(s, auth, namespace, es[0], at);
      EntriesFree(u, auth, namespace, es[1..], at, id, k);
      InEntriesCons(es, id, k);
      FirstApart(s, auth, namespace, es, at, id, k);
      FirstFrees(s, auth, namespace, es[0], at, id, k);
    }
  }

  lemma NoEntries(id: Id, k: nat)
    ensures !InEntries([], id) && !ClosedBy([], k) && !IsCanonical([], id)
  {
  }

  lemma FirstFrees(s: State, auth: Caller, namespace: string, e: CanonicalEntry, at: Instant, id: Id, k: nat)
    requires Inv(s) && CanonicalAccepted(s, auth, namespace, e, at)
    ensures var u := ReleaseCanonical(s, auth, e, at);
      && u.rows.Keys == s.rows.Keys && |u.memberships| == |s.memberships|
      && (id in s.rows && id in MemberIds(e) ==> id != e.canonicalId && u.rows[id] == Unlinked(s.rows[id], at))
      && (id in s.rows && id == e.canonicalId ==> u.rows[id] == Retired(s.rows[id], auth, at))
      && (id in s.rows && id !in MemberIds(e) && id != e.canonicalId ==> u.rows[id] == s.rows[id])
      && (k < |s.memberships| ==>
            u.memberships[k] ==
              if k in MembershipIds(e) then s.memberships[k].(deconsolidatedAt := Some(at)) else s.memberships[k])
  {
    hide Typed, OneActive, LinksHaveActive, RevisionsRecorded, KeysSpent, ForgottenTogether;
  }

  /** What the first entry touches no other does. */
  lemma FirstApart(
      s: State, auth: Caller, namespace: string, es: seq<CanonicalEntry>, at: Instant, id: Id, k: nat)
    requires Inv(s) && es != [] && Disjoint(es)
    requires forall i :: 0 <= i < |es| ==> CanonicalAccepted(s, auth, namespace, es[i], at)
    ensures id in MemberIds(es[0]) ==> !InEntries(es[1..], id) && !IsCanonical(es[1..], id)
    ensures id == es[0].canonicalId ==> !InEntries(es[1..], id) && !IsCanonical(es[1..], id)
    ensures k in MembershipIds(es[0]) ==> !ClosedBy(es[1..], k)
  {
    hide Typed, OneActive, LinksHaveActive, RevisionsRecorded, KeysSpent, ForgottenTogether;
    forall i | 1 <= i < |es|
      ensures id in MemberIds(es[0]) ==> id !in MemberIds(es[i]) && id != es[i].canonicalId
      ensures id == es[0].canonicalId ==> id !in MemberIds(es[i]) && id != es[i].canonicalId
      ensures k in MembershipIds(es[0]) ==> k !in MembershipIds(es[i])
    {
      if id in MemberIds(es[0]) { MemberIsNoCanonical(s, auth, namespace, es[0], at, id, es[i].canonicalId); }
      if id in MemberIds(es[i]) { MemberIsNoCanonical(s, auth, namespace, es[i], at, id, es[0].canonicalId); }
    }
    assert forall i :: 0 <= i < |es[1..]| ==> es[1..][i] == es[i + 1];
  }

  lemma MemberIsNoCanonical(
      s: State, auth: Caller, namespace: string, e: CanonicalEntry, at: Instant, id: Id, c: Id)
    requires Inv(s) && CanonicalAccepted(s, auth, namespace, e, at) && id in MemberIds(e)
    requires c in s.rows && s.rows[c].base.kind == Consolidation
    ensures id != c
  {
  }

  lemma ListedIff(m: Manifest, id: Id, k: nat)
    ensures ListsMember(m, id) <==> InEntries(m.canonicals, id)
    ensures ListsMembership(m, k) <==> ClosedBy(m.canonicals, k)
    ensures ListsCanonical(m, id) <==> IsCanonical(m.canonicals, id)
  {
    if i :| 0 <= i < |m.canonicals| && id in MemberIds(m.canonicals[i]) {
      var a :| 0 <= a < |m.canonicals[i].members| && m.canonicals[i].members[a].memberId == id;
      assert IsMember(m, i, a);
    }
    if i :| 0 <= i < |m.canonicals| && k in MembershipIds(m.canonicals[i]) {
      var a :| 0 <= a < |m.canonicals[i].members| && m.canonicals[i].members[a].membershipId == k;
      assert IsMember(m, i, a);
    }
  }

  lemma ManifestReleases(s: State, auth: Caller, m: Manifest, at: Instant)
    requires Inv(s) && ApplyManifest(s, auth, m, at).Some?
    ensures Releases(s, ApplyManifest(s, auth, m, at).value, auth, m, at)
  {
    hide Inv, ApplyManifest, ListsMember, ListsMembership, ListsCanonical, RowAfter;
    var t := ApplyManifest(s, auth, m, at).value;
    ManifestFrees(s, auth, m, at, 0, 0);
    forall id | id in s.rows
      ensures t.rows[id] == RowAfter(s.rows[id], ListsMember(m, id), ListsCanonical(m, id), auth, at)
    {
      RowReleased(s, auth, m, at, id);
    }
    forall k | 0 <= k < |s.memberships|
      ensures t.memberships[k] ==
        if ListsMembership(m, k) then s.memberships[k].(deconsolidatedAt := Some(at)) else s.memberships[k]
    {
      ManifestFrees(s, auth, m, at, 0, k);
      ListedIff(m, 0, k);
    }
  }

  lemma RowReleased(s: State, auth: Caller, m: Manifest, at: Instant, id: Id)
    requires Inv(s) && ApplyManifest(s, auth, m, at).Some? && id in s.rows
    ensures var t := ApplyManifest(s, auth, m, at).value;
      id in t.rows && t.rows[id] == RowAfter(s.rows[id], ListsMember(m, id), ListsCanonical(m, id), auth, at)
  {
    hide Inv, ApplyManifest, ListsMember, ListsMembership, ListsCanonical, InEntries, ClosedBy, IsCanonical;
    ManifestFrees(s, auth, m, at, id, 0);
    ListedIff(m, id, 0);
  }

  lemma ManifestFrees(s: State, auth: Caller, m: Manifest, at: Instant, id: Id, k: nat)
    requires Inv(s) && ApplyManifest(s, auth, m, at).Some?
    ensures var t := ApplyManifest(s, auth, m, at).value;
      && t.rows.Keys == s.rows.Keys && |t.memberships| == |s.memberships|
      && (id in s.rows ==> t.rows[id] == Freed(s.rows[id], auth, m.canonicals, at, id))
      && (k < |s.memberships| ==>
            t.memberships[k] ==
              if ClosedBy(m.canonicals, k) then s.memberships[k].(deconsolidatedAt := Some(at))
              else s.memberships[k])
  {
    hide Inv, Freed, ClosedBy, MemberIds, MembershipIds, ApplyEntries;
    EntriesFree(s, auth, m.namespace, m.canonicals, at, id, k);
  }

  class MemoryTables {
    var rows: map<Id, Memory>
    var memberships: seq<Membership>

    function Contents(): State
      reads this
    {
      State(rows, memberships)
    }

    constructor ()
      ensures Contents() == State(map[], [])
    {
      rows, memberships := map[], [];
    }

    /** applyCluster: re-check under lock, insert the canonical, append one membership per member
        in id order, link the members. */
    method CommitCluster(q: ClusterRequest) returns (outcome: Outcome)
      modifies this
      ensures outcome == ApplyCluster(old(Contents()), q).0
      ensures Contents() == ApplyCluster(old(Contents()), q).1
      ensures outcome.Stale? <==> !(q.stillSimilar && forall id :: id in q.loaded ==> Unchanged(old(rows), q, id))
      ensures outcome.Merged? <==>
        && q.stillSimilar && (forall id :: id in q.loaded ==> Unchanged(old(rows), q, id))
        && (forall c :: c in old(rows) ==> !HasKey(old(rows), q, c)) && Linkable(old(Contents()), q)
      ensures outcome.Replayed? ==> Replays(old(Contents()), q, outcome.existing)
      ensures !outcome.Merged? ==> Contents() == old(Contents())
      ensures outcome.Merged? && q.canonicalId !in q.loaded ==>
        && outcome.canonical == q.canonicalId && MergesRows(old(rows), rows, q)
        && MergesLog(old(memberships), memberships, q)
    {
      var s := Contents();
      hide Fresh, Conflicts, Unchanged, HasKey, MergesRows, MergesLog, ReplayOutcome, LinkedRows, NewMemberships;
      hide MemberOrder, CanLink, Linkable, Replays;
      ReplayIs(s, q);
      StaleIff(s, q);
      ConflictIff(s, q);
      LinkableIff(s, q);
      if q.canonicalId !in q.loaded { LinkMergesRows(rows, q); }
      LinkMergesLog(memberships, q);
      if !Fresh(s, q) { return Stale; }
      if Conflicts(s, q) != {} { return ReplayOutcome(s, q); }
      if !CanLink(s, q) { return Aborted; }
      AppendMemberships(q);
      rows := LinkedRows(rows, q);
      outcome := Merged(q.canonicalId);
    }

    method AppendMemberships(q: ClusterRequest)
      modifies this`memberships
      ensures memberships == old(memberships) + NewMemberships(q, MemberOrder(q))
    {
      var ids := ListIds(q.loaded.Keys);
      var i := 0;
      while i < |ids|
        invariant 0 <= i <= |ids|
        invariant memberships == old(memberships) + NewMemberships(q, ids[..i])
      {
        assert ids[i] in ids;
        assert ids[..i + 1][..i] == ids[..i];
        memberships := memberships + [NewMembership(q, ids[i])];
        i := i + 1;
      }
      assert ids[..i] == ids;
    }

    /** applyDeconsolidation: canonical by canonical, all or nothing. */
    method CommitManifest(auth: Caller, m: Manifest, at: Instant) returns (released: bool)
      modifies this
      ensures released == ApplyManifest(old(Contents()), auth, m, at).Some?
      ensures Contents() == if released then ApplyManifest(old(Contents()), auth, m, at).value else old(Contents())
      ensures Inv(old(Contents())) ==>
        (released <==>
           && Shaped(m) && Permitted(auth, m)
           && forall i :: 0 <= i < |m.canonicals| ==>
                AsPreviewed(old(Contents()), auth, m.namespace, m.canonicals[i], at))
      ensures Inv(old(Contents())) && released ==> Releases(old(Contents()), Contents(), auth, m, at)
    {
      hide Inv, Shaped, Permitted, AsPreviewed, Releases;
      if Inv(Contents()) {
        AcceptedIff(Contents(), auth, m, at);
        if ApplyManifest(Contents(), auth, m, at).Some? { ManifestReleases(Contents(), auth, m, at); }
      }
      if !(WellFormed(m) && MayDeconsolidate(auth, m.namespace) && m.owner == auth.key && m.hashMatches) {
        return false;
      }
      var s, i := Contents(), 0;
      assert m.canonicals[0..] == m.canonicals;
      while i < |m.canonicals|
        invariant 0 <= i <= |m.canonicals|
        invariant ApplyEntries(Contents(), auth, m.namespace, m.canonicals[i..], at) == ApplyManifest(s, auth, m, at)
      {
        var e := m.canonicals[i];
        if !CanonicalAccepted(Contents(), auth, m.namespace, e, at) {
          rows, memberships := s.rows, s.memberships;  // ROLLBACK
          return false;
        }
        var t := ReleaseCanonical(Contents(), auth, e, at);
        assert m.canonicals[i..][1..] == m.canonicals[i + 1..];
        rows, memberships := t.rows, t.memberships;
        i := i + 1;
      }
      released := true;
    }

    /** forgetMemories: one UPDATE over the selected rows and their canonicals. */
    method CommitForget(q: ForgetRequest) returns (result: ForgetResult)
      modifies this
      ensures result == Forget(old(Contents()), q).0
      ensures Contents() == Forget(old(Contents()), q).1
      ensures result.LimitExceeded? <==>
        |WantedIds(old(rows), q)| > 100 || |WantedIds(old(rows), q) + CanonicalIds(old(rows), q)| > 100
      ensures result.LimitExceeded? ==> Contents() == old(Contents())
      ensures result.Forgotten? ==>
        && Forgets(old(rows), rows, q) && memberships == old(memberships)
        && (forall i, j :: 0 <= i < j < |result.ids| ==> result.ids[i] < result.ids[j])
        && (forall id :: id in result.ids <==> id in WantedIds(old(rows), q) && Reached(old(rows), q, id))
    {
      var s := Contents();
      SelectedIs(s, q);
      ForgetIs(s, q);
      hide Selected, Doomed, Hit, Reached, Forgets, Wanted, TombstoneRows;
      if |Selected(s, q)| > MAX_FORGET_ROWS { return LimitExceeded; }
      if |Doomed(s, q)| > MAX_FORGET_ROWS { return LimitExceeded; }
      var hit := Hit(s, q);
      rows := TombstoneRows(rows, hit, q);
      var ids := ListIds(Selected(s, q) * hit);
      forall i, j | 0 <= i < j < |ids| ensures ids[i] < ids[j] {
        assert IdLess(ids[i], ids[j]);
      }
      result := Forgotten(ids);
    }
  }
}
