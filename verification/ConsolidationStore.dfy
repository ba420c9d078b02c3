/** The consolidation lifecycle of src/consolidation.ts and src/memory-lifecycle.ts over the two
    tables it touches: `memories` and `memory_consolidation_memberships`.  Every transaction is
    one step.  SHA-256 is modelled as an injection: a fingerprint is the tuple it digests and a
    source key is the set of fingerprints it digests. */
module ConsolidationStore {
  import opened Prelude
  import opened Ordering

  const MAX_CLUSTER_SIZE: nat := 20
  const MAX_FORGET_ROWS: nat := 100
  const MAX_MANIFEST_CANONICALS: nat := 100

  // ---------------------------------------------------------------- rows

  datatype Kind = Semantic | Consolidation | OtherKind

  datatype Payload = Payload(content: string, tags: set<string>, embedding: nat)

  datatype Fingerprint = Fingerprint(id: Id, content: string, namespace: string, revision: nat,
                                     createdAt: Instant, embedding: nat, updatedAt: Instant)

  datatype SourceKey =
    | CanonicalKey(policyHash: nat, members: set<Fingerprint>)
    | ForeignKey(text: string)

  /** The columns no consolidation, forget or deconsolidation statement writes. */
  datatype Base = Base(
    kind: Kind, namespace: string, owner: nat, accessLevel: nat, payload: Payload, currentEmbedding: bool,
    createdAt: Instant, expiresAt: Option<Instant>, supersededAt: Option<Instant>, validTo: Option<Instant>,
    inDocument: bool, sourceKey: Option<SourceKey>)

  /** deleted_at, deleted_by_client_id and deletion_reason. */
  datatype Tombstone = Tombstone(at: Option<Instant>, caller: Option<nat>, reason: Option<string>)

  /** consolidated_into_id and consolidated_at, which a CHECK keeps null together. */
  datatype Link = Link(into: Id, at: Instant)

  datatype Memory = Memory(base: Base, revision: nat, updatedAt: Instant, tombstone: Tombstone, link: Option<Link>)

  const ALIVE := Tombstone(None, None, None)

  /** A row of the membership history.  Rows are never deleted, so the table is a log and a
      membership's id is its position. */
  datatype Membership = Membership(
    owner: nat, namespace: string, canonical: Id, member: Id, memberRevision: nat,
    fingerprint: Fingerprint, consolidatedAt: Instant, deconsolidatedAt: Option<Instant>)

  datatype State = State(rows: map<Id, Memory>, memberships: seq<Membership>)

  predicate Unexpired(m: Memory, now: Instant) {
    m.base.expiresAt.None? || m.base.expiresAt.value > now
  }

  predicate Deleted(m: Memory) {
    m.tombstone.at.Some?
  }

  predicate LinksTo(m: Memory, c: Id) {
    m.link.Some? && m.link.value.into == c
  }

  predicate Current(m: Memory) {
    !Deleted(m) && m.base.supersededAt.None? && m.base.validTo.None? && m.link.None?
  }

  /** What ordinary reads return. */
  predicate Visible(m: Memory, now: Instant) {
    Current(m) && Unexpired(m, now)
  }

  function VisibleIds(s: State, now: Instant): set<Id> {
    set id | id in s.rows && Visible(s.rows[id], now)
  }

  function FingerprintOf(id: Id, m: Memory): Fingerprint {
    Fingerprint(id, m.base.payload.content, m.base.namespace, m.revision, m.base.createdAt,
                m.base.payload.embedding, m.updatedAt)
  }

  predicate Active(s: State, k: nat) {
    k < |s.memberships| && s.memberships[k].deconsolidatedAt.None?
  }

  /** The active memberships of a canonical, by position: the rows a preview joins. */
  function ActiveOf(s: State, c: Id): set<nat> {
    set k | 0 <= k < |s.memberships| && Active(s, k) && s.memberships[k].canonical == c
  }

  function LinkedTo(s: State, c: Id): set<Id> {
    set id | id in s.rows && LinksTo(s.rows[id], c)
  }

  // ---------------------------------------------------------------- apply one cluster

  /** Inputs of applyCluster: the members as loaded before the provider call, what the provider
      returned, a fresh canonical id, the three statement clocks, and whether every pair is
      still similar enough. */
  datatype ClusterRequest = ClusterRequest(
    owner: nat, namespace: string, policyHash: nat, loaded: map<Id, Fingerprint>,
    canonicalId: Id, canonical: Payload, stillSimilar: bool,
    lockedAt: Instant, timestamp: Instant, linkedAt: Instant)

  datatype Outcome = Stale | Merged(canonical: Id) | Replayed(existing: Id) | Aborted

  predicate Lockable(m: Memory, namespace: string, now: Instant) {
    && m.base.namespace == namespace && m.base.accessLevel == 0 && m.base.kind == Semantic
    && Visible(m, now) && !m.base.inDocument && m.base.sourceKey.None? && m.base.currentEmbedding
  }

  /** All loaded members are locked again, unchanged and still pairwise similar. */
  predicate Fresh(s: State, q: ClusterRequest) {
    && (forall id :: id in q.loaded ==>
          id in s.rows && Lockable(s.rows[id], q.namespace, q.lockedAt) &&
            FingerprintOf(id, s.rows[id]) == q.loaded[id])
    && q.stillSimilar
  }

  function KeyOf(q: ClusterRequest): SourceKey {
    CanonicalKey(q.policyHash, q.loaded.Values)
  }

  /** Rows that make the canonical INSERT hit ON CONFLICT (client_id, source_key). */
  function Conflicts(s: State, q: ClusterRequest): set<Id> {
    set id | id in s.rows && s.rows[id].base.owner == q.owner && s.rows[id].base.sourceKey == Some(KeyOf(q))
  }

  /** The replay branch accepts an existing canonical only if its active memberships are exactly
      the loaded members with their fingerprints. */
  predicate SameProvenance(s: State, q: ClusterRequest, c: Id)
    requires c in s.rows
  {
    && s.rows[c].base.namespace == q.namespace && s.rows[c].base.kind == Consolidation
    && |ActiveOf(s, c)| == |q.loaded|
    && forall k :: k in ActiveOf(s, c) ==>
         s.memberships[k].member in q.loaded && q.loaded[s.memberships[k].member] == s.memberships[k].fingerprint
  }

  function CanonicalRow(q: ClusterRequest): Memory {
    Memory(Base(Consolidation, q.namespace, q.owner, 0, q.canonical, true, q.timestamp,
                None, None, None, false, Some(KeyOf(q))),
           0, q.timestamp, ALIVE, None)
  }

  function NewMembership(q: ClusterRequest, id: Id): Membership
    requires id in q.loaded
  {
    Membership(q.owner, q.namespace, q.canonicalId, id, q.loaded[id].revision, q.loaded[id], q.timestamp, None)
  }

  function NewMemberships(q: ClusterRequest, ids: seq<Id>): (r: seq<Membership>)
    requires forall id :: id in ids ==> id in q.loaded
    ensures |r| == |ids|
    ensures forall i :: 0 <= i < |ids| ==> r[i] == NewMembership(q, ids[i])
  {
    if ids == [] then [] else
      assert ids[|ids| - 1] in ids;
      NewMemberships(q, ids[..|ids| - 1]) + [NewMembership(q, ids[|ids| - 1])]
  }

  /** UPDATE … SET consolidated_into_id: the revision trigger of migration 027 advances the row. */
  function Linked(m: Memory, c: Id, at: Instant): Memory {
    m.(link := Some(Link(c, at)), updatedAt := at, revision := m.revision + 1)
  }

  ghost function AfterLink(s: State, q: ClusterRequest): State {
    State(LinkedRows(s.rows, q), s.memberships + NewMemberships(q, MemberOrder(q)))
  }

  /** The canonical inserted and every member linked to it. */
  function LinkedRows(rows: map<Id, Memory>, q: ClusterRequest): map<Id, Memory> {
    (map id | id in rows :: if id in q.loaded then Linked(rows[id], q.canonicalId, q.timestamp) else rows[id])
      [q.canonicalId := CanonicalRow(q)]
  }

  ghost function MemberOrder(q: ClusterRequest): (ids: seq<Id>)
    ensures Lists(IdLess, q.loaded.Keys, ids) && |ids| == |q.loaded|
  {
    assert |q.loaded.Keys| == |q.loaded|;
    AscendingIds(q.loaded.Keys)
  }

  /** Constraints that abort the whole transaction: one active membership per member, and no
      member may expire before the linking statement. */
  predicate CanLink(s: State, q: ClusterRequest) {
    && (forall k :: 0 <= k < |s.memberships| && Active(s, k) ==> s.memberships[k].member !in q.loaded)
    && (forall id :: id in q.loaded && id in s.rows ==> Unexpired(s.rows[id], q.linkedAt))
  }

  /** The branch taken when the canonical's source key exists already. */
  function ReplayOutcome(s: State, q: ClusterRequest): Outcome {
    if exists c :: c in Conflicts(s, q) && Conflicts(s, q) == {c} && SameProvenance(s, q, c)
    then Replayed(var c :| c in Conflicts(s, q) && Conflicts(s, q) == {c}; c)
    else Aborted
  }

  ghost function ApplyCluster(s: State, q: ClusterRequest): (Outcome, State) {
    if !Fresh(s, q) then (Stale, s)
    else if Conflicts(s, q) != {} then (ReplayOutcome(s, q), s)
    else if !CanLink(s, q) then (Aborted, s)
    else (Merged(q.canonicalId), AfterLink(s, q))
  }

  /** gen_random_uuid() gives an unused id; a cluster has 2 to 20 members; statement clocks of
      one transaction do not run backwards. */
  predicate RequestOk(s: State, q: ClusterRequest) {
    && q.canonicalId !in s.rows && q.canonicalId !in q.loaded
    && 2 <= |q.loaded| <= MAX_CLUSTER_SIZE
    && q.lockedAt <= q.timestamp <= q.linkedAt
  }

  // ---------------------------------------------------------------- forget

  datatype ForgetRequest = ForgetRequest(
    caller: nat, namespaces: set<string>, maxAccessLevel: nat, ids: Option<set<Id>>, namespace: Option<string>,
    before: Option<Instant>, tags: Option<set<string>>, reason: Option<string>,
    selectedAt: Instant, updatedAt: Instant)

  datatype ForgetResult = LimitExceeded | Forgotten(ids: seq<Id>)

  predicate ForgetMatches(q: ForgetRequest, id: Id, m: Memory) {
    && !Deleted(m) && Unexpired(m, q.selectedAt)
    && m.base.namespace in q.namespaces && m.base.accessLevel <= q.maxAccessLevel
    && (q.ids.Some? ==> id in q.ids.value)
    && (q.namespace.Some? ==> m.base.namespace == q.namespace.value)
    && (q.before.Some? ==> m.base.createdAt < q.before.value)
    && (q.tags.Some? ==> q.tags.value <= m.base.payload.tags)
  }

  function Selected(s: State, q: ForgetRequest): set<Id> {
    set id | id in s.rows && ForgetMatches(q, id, s.rows[id])
  }

  /** The selected rows and the canonicals they are linked to. */
  function Doomed(s: State, q: ForgetRequest): set<Id> {
    Selected(s, q) + set id | id in Selected(s, q) && s.rows[id].link.Some? :: s.rows[id].link.value.into
  }

  function Tombstoned(m: Memory, q: ForgetRequest): Memory {
    m.(tombstone := Tombstone(Some(q.updatedAt), Some(q.caller), q.reason))
  }

  function Hit(s: State, q: ForgetRequest): set<Id> {
    set id | id in Doomed(s, q) && id in s.rows && !Deleted(s.rows[id]) && Unexpired(s.rows[id], q.updatedAt)
  }

  /** UPDATE memories SET deleted_at = … WHERE id is in `hit`. */
  function TombstoneRows(rows: map<Id, Memory>, hit: set<Id>, q: ForgetRequest): map<Id, Memory> {
    map id | id in rows :: if id in hit then Tombstoned(rows[id], q) else rows[id]
  }

  ghost function Forget(s: State, q: ForgetRequest): (ForgetResult, State) {
    if |Selected(s, q)| > MAX_FORGET_ROWS || |Doomed(s, q)| > MAX_FORGET_ROWS then (LimitExceeded, s)
    else (Forgotten(AscendingIds(Selected(s, q) * Hit(s, q))), s.(rows := TombstoneRows(s.rows, Hit(s, q), q)))
  }

  // ---------------------------------------------------------------- deconsolidation

  datatype MemberEntry = MemberEntry(membershipId: nat, memberId: Id, memberRevision: nat, memberContent: string)

  datatype CanonicalEntry = CanonicalEntry(
    canonicalId: Id, canonicalRevision: nat, canonicalContent: string, members: seq<MemberEntry>)

  /** `hashMatches`: the recomputed policy hash equals the one in the manifest. */
  datatype Manifest = Manifest(namespace: string, owner: nat, hashMatches: bool, canonicals: seq<CanonicalEntry>)

  datatype Caller = Caller(key: nat, permissions: set<string>, namespaces: set<string>, maxAccessLevel: nat)

  predicate MayDeconsolidate(auth: Caller, namespace: string) {
    {"consolidate", "read", "write", "delete"} <= auth.permissions && namespace in auth.namespaces &&
      auth.maxAccessLevel == 0
  }

  function PreviewMember(s: State, k: nat): MemberEntry
    requires k < |s.memberships| && s.memberships[k].member in s.rows
  {
    var id := s.memberships[k].member;
    MemberEntry(k, id, s.rows[id].revision, s.rows[id].base.payload.content)
  }

  /** Active memberships the caller's preview query returns for one canonical. */
  function PreviewRows(s: State, auth: Caller, namespace: string, c: Id): set<nat> {
    set k | 0 <= k < |s.memberships| && Active(s, k) && s.memberships[k].canonical == c && c in s.rows
            && s.memberships[k].member in s.rows
            && s.memberships[k].namespace == namespace && s.memberships[k].owner == auth.key
  }

  ghost function PreviewCanonical(s: State, auth: Caller, namespace: string, c: Id): CanonicalEntry
    requires PreviewRows(s, auth, namespace, c) != {}
  {
    var ks := AscendingIds(PreviewRows(s, auth, namespace, c));
    assert c in s.rows by { assert ks[0] in ks; }
    CanonicalEntry(c, s.rows[c].revision, s.rows[c].base.payload.content,
                   seq(|ks|, i requires 0 <= i < |ks| => assert ks[i] in ks; PreviewMember(s, ks[i])))
  }

  ghost function Preview(s: State, auth: Caller, namespace: string, ids: set<Id>): Option<Manifest> {
    if !MayDeconsolidate(auth, namespace) || |ids| == 0 || |ids| > MAX_MANIFEST_CANONICALS
       || (exists c :: c in ids && PreviewRows(s, auth, namespace, c) == {}) then None
    else
      var cs := AscendingIds(ids);
      Some(Manifest(namespace, auth.key, true,
                    seq(|cs|, i requires 0 <= i < |cs| =>
                      assert cs[i] in cs;
                      PreviewCanonical(s, auth, namespace, cs[i]))))
  }

  /** The manifest schema: sizes, and no id twice. */
  predicate WellFormed(m: Manifest) {
    && 1 <= |m.canonicals| <= MAX_MANIFEST_CANONICALS
    && (forall i :: 0 <= i < |m.canonicals| ==> 2 <= |m.canonicals[i].members| <= MAX_CLUSTER_SIZE)
    && (forall i, j :: 0 <= i < j < |m.canonicals| ==> m.canonicals[i].canonicalId != m.canonicals[j].canonicalId)
    && (forall i :: 0 <= i < |m.canonicals| ==> NoRepeats(m.canonicals[i]))
    && (forall i, j :: 0 <= i < j < |m.canonicals| ==>
          && MemberIds(m.canonicals[i]) !! MemberIds(m.canonicals[j])
          && MembershipIds(m.canonicals[i]) !! MembershipIds(m.canonicals[j]))
  }

  predicate NoRepeats(e: CanonicalEntry) {
    forall a, b :: 0 <= a < b < |e.members| ==>
      e.members[a].memberId != e.members[b].memberId && e.members[a].membershipId != e.members[b].membershipId
  }

  /** What the code checks of one member, and below it what row security and the column check of
      migration 027 enforce when its membership is closed.  That the membership names this
      canonical is checked by neither. */
  predicate MemberAccepted(s: State, auth: Caller, c: Id, e: MemberEntry, at: Instant) {
    && e.memberId in s.rows && e.membershipId < |s.memberships|
    && var m := s.rows[e.memberId]; var k := s.memberships[e.membershipId];
    && k.member == e.memberId && k.deconsolidatedAt.None? && LinksTo(m, c)
    && m.revision == e.memberRevision && m.base.payload.content == e.memberContent
    && k.owner == auth.key && k.consolidatedAt <= at
  }

  predicate CanonicalAccepted(s: State, auth: Caller, namespace: string, e: CanonicalEntry, at: Instant) {
    && e.canonicalId in s.rows
    && var m := s.rows[e.canonicalId];
    && m.base.namespace == namespace && m.base.kind == Consolidation
    && m.revision == e.canonicalRevision && m.base.payload.content == e.canonicalContent
    && forall i :: 0 <= i < |e.members| ==> MemberAccepted(s, auth, e.canonicalId, e.members[i], at)
  }

  function MembershipIds(e: CanonicalEntry): set<nat> { set i | 0 <= i < |e.members| :: e.members[i].membershipId }

  function MemberIds(e: CanonicalEntry): set<Id> { set i | 0 <= i < |e.members| :: e.members[i].memberId }

  function Unlinked(m: Memory, at: Instant): Memory {
    m.(link := None, updatedAt := at, revision := m.revision + 1)
  }

  function Retired(m: Memory, auth: Caller, at: Instant): Memory {
    m.(tombstone := Tombstone(Some(Coalesce(m.tombstone.at, at)), Some(Coalesce(m.tombstone.caller, auth.key)),
                              Some(Coalesce(m.tombstone.reason, "deconsolidated canonical"))))
  }

  /** The three UPDATE statements for one canonical. */
  function ReleaseCanonical(s: State, auth: Caller, e: CanonicalEntry, at: Instant): State {
    State(
      map id | id in s.rows ::
        var m := if id in MemberIds(e) && LinksTo(s.rows[id], e.canonicalId)
                 then Unlinked(s.rows[id], at) else s.rows[id];
        if id == e.canonicalId then Retired(m, auth, at) else m,
      seq(|s.memberships|, k requires 0 <= k < |s.memberships| =>
        if k in MembershipIds(e) && Active(s, k) then s.memberships[k].(deconsolidatedAt := Some(at))
        else s.memberships[k]))
  }

  function ApplyEntries(s: State, auth: Caller, namespace: string, es: seq<CanonicalEntry>, at: Instant): Option<State>
    decreases |es|
  {
    if es == [] then Some(s)
    else if !CanonicalAccepted(s, auth, namespace, es[0], at) then None
    else ApplyEntries(ReleaseCanonical(s, auth, es[0], at), auth, namespace, es[1..], at)
  }

  /** All canonicals of the manifest, or (on any error) nothing. */
  function ApplyManifest(s: State, auth: Caller, m: Manifest, at: Instant): Option<State> {
    if WellFormed(m) && MayDeconsolidate(auth, m.namespace) && m.owner == auth.key && m.hashMatches
    then ApplyEntries(s, auth, m.namespace, m.canonicals, at)
    else None
  }
}
