/** scripts/migrate.ts and the ledger step of scripts/reconcile-legacy-ledger.ts: an ordered
    inventory is applied one transaction at a time, and the ledger stays a prefix of it. */
module Migrations {
  import opened Prelude
  import opened Ordering

  /** A version text, as its rank in the ledger's ORDER BY version. */
  type Version = Id

  datatype Checksum = Sha256(digest: nat) | Malformed(text: nat)

  datatype Migration = Migration(number: nat, version: Version, checksum: Checksum)

  /** The ledger, and the migrations whose SQL has been committed, in that order. */
  datatype Db = Db(ledger: map<Version, Option<Checksum>>, executed: seq<Version>)

  // ---------------------------------------------------------------- inventory

  predicate Ascends(inv: seq<Migration>) {
    forall i, j :: 0 <= i < j < |inv| ==> inv[i].number < inv[j].number
  }

  /** Numbers ascend, a version names one file, and checksums are computed ones. */
  predicate IsInventory(inv: seq<Migration>) {
    && Ascends(inv) && (forall i, j :: 0 <= i < j < |inv| ==> inv[i].version != inv[j].version)
    && forall m :: m in inv ==> m.checksum.Sha256?
  }

  function InsertByNumber(inv: seq<Migration>, m: Migration): seq<Migration> {
    if |inv| > 0 && m.number < inv[|inv| - 1].number
    then InsertByNumber(inv[..|inv| - 1], m) + [inv[|inv| - 1]]
    else inv + [m]
  }

  lemma {:induction false} InsertKeepsOrder(inv: seq<Migration>, m: Migration)
    requires Ascends(inv) && forall x :: x in inv ==> x.number != m.number
    ensures Ascends(InsertByNumber(inv, m))
    ensures forall x :: x in InsertByNumber(inv, m) <==> x in inv || x == m
  {
    if |inv| == 0 {
      assert InsertByNumber(inv, m) == [m];
    } else {
      var p, last := inv[..|inv| - 1], inv[|inv| - 1];
      SnocAscends(p, last);
      assert inv == p + [last];
      if m.number < last.number {
        InsertKeepsOrder(p, m);
        hide Ascends;
        SnocAscends(InsertByNumber(p, m), last);
      } else {
        SnocAscends(inv, m);
      }
    }
  }

  lemma SnocAscends(p: seq<Migration>, last: Migration)
    ensures Ascends(p + [last]) <==> Ascends(p) && forall x :: x in p ==> x.number < last.number
  {
    var q := p + [last];
    assert forall i :: 0 <= i < |p| ==> q[i] == p[i] && p[i] in p;
    assert q[|p|] == last;
  }

  /** loadMigrationInventory of the well-named files; None when two share a number. */
  method LoadInventory(files: seq<Migration>) returns (inv: Option<seq<Migration>>)
    ensures inv.Some? <==> forall i, j :: 0 <= i < j < |files| ==> files[i].number != files[j].number
    ensures inv.Some? ==> Ascends(inv.value) && forall m :: m in inv.value <==> m in files
    ensures inv.Some? ==> forall i, j :: 0 <= i < j < |inv.value| ==> inv.value[i].number < inv.value[j].number
  {
    var migrations: seq<Migration> := [];
    for n := 0 to |files|
      invariant Ascends(migrations) && forall m :: m in migrations <==> m in files[..n]
      invariant forall i, j :: 0 <= i < j < n ==> files[i].number != files[j].number
    {
      if exists m :: m in migrations && m.number == files[n].number {
        var m :| m in migrations && m.number == files[n].number;
        assert m in files[..n];
        return None;
      }
      assert forall i :: 0 <= i < n ==> files[i] in files[..n];
      InsertKeepsOrder(migrations, files[n]);
      migrations := InsertByNumber(migrations, files[n]);
      assert files[..n + 1] == files[..n] + [files[n]];
    }
    assert files[..|files|] == files;
    return Some(migrations);
  }

  function Versions(inv: seq<Migration>): (r: seq<Version>)
    ensures |r| == |inv| && forall i :: 0 <= i < |r| ==> r[i] == inv[i].version
  {
    seq(|inv|, i requires 0 <= i < |inv| => inv[i].version)
  }

  /** The migrations up to the target. */
  function Targeted(inv: seq<Migration>, through: Option<nat>): (r: seq<Migration>) {
    if |inv| == 0 then []
    else Targeted(inv[..|inv| - 1], through) +
         if through.None? || inv[|inv| - 1].number <= through.value then [inv[|inv| - 1]] else []
  }

  lemma {:induction false} TargetedIsPrefix(inv: seq<Migration>, through: Option<nat>)
    requires Ascends(inv)
    ensures Targeted(inv, through) <= inv
    ensures forall i :: 0 <= i < |inv| ==>
      (i < |Targeted(inv, through)| <==> through.None? || inv[i].number <= through.value)
  {
    if |inv| > 0 {
      var init := inv[..|inv| - 1];
      TargetedIsPrefix(init, through);
      assert inv == init + [inv[|inv| - 1]] && Targeted(init, through) <= init <= inv;
      assert forall i :: 0 <= i < |init| ==> init[i] == inv[i];
    }
  }

  // ---------------------------------------------------------------- the ledger checks

  predicate IsPrefix(inv: seq<Migration>, applied: set<Version>, n: nat) {
    n <= |inv| && applied == Elements(Versions(inv[..n]))
  }

  /** What a completed baseline records for the first n migrations. */
  function LedgerOf(inv: seq<Migration>, n: nat): map<Version, Option<Checksum>>
    requires IsInventory(inv) && n <= |inv|
  {
    if n == 0 then map[] else LedgerOf(inv, n - 1)[inv[n - 1].version := Some(inv[n - 1].checksum)]
  }

  lemma NewVersion(inv: seq<Migration>, n: nat)
    requires IsInventory(inv) && n < |inv|
    ensures inv[n].version !in Elements(Versions(inv[..n]))
  {
  }

  lemma {:induction false} LedgerOfKeys(inv: seq<Migration>, n: nat)
    requires IsInventory(inv) && n <= |inv|
    ensures LedgerOf(inv, n).Keys == Elements(Versions(inv[..n]))
    ensures |LedgerOf(inv, n)| == n
  {
    hide IsInventory, Elements, Versions, LedgerOf;
    if n == 0 {
      LedgerOfNone(inv);
    } else {
      var before, v := LedgerOf(inv, n - 1), inv[n - 1].version;
      LedgerOfKeys(inv, n - 1);
      NewVersion(inv, n - 1);
      assert v !in before.Keys;
      LedgerOfMore(inv, n);
      MoreKeys(before, v, Some(inv[n - 1].checksum));
      VersionsSnoc(inv, n - 1);
    }
  }

  lemma LedgerOfNone(inv: seq<Migration>)
    requires IsInventory(inv)
    ensures LedgerOf(inv, 0) == map[] && Elements(Versions(inv[..0])) == {}
  {
    hide IsInventory;
  }

  lemma LedgerOfMore(inv: seq<Migration>, n: nat)
    requires IsInventory(inv) && 0 < n <= |inv|
    ensures LedgerOf(inv, n) == LedgerOf(inv, n - 1)[inv[n - 1].version := Some(inv[n - 1].checksum)]
  {
    hide IsInventory;
  }

  lemma MoreKeys(ledger: map<Version, Option<Checksum>>, v: Version, c: Option<Checksum>)
    ensures ledger[v := c].Keys == ledger.Keys + {v}
    ensures v !in ledger ==> |ledger[v := c]| == |ledger| + 1
  {
    assert |ledger[v := c].Keys| == |ledger[v := c]| && |ledger.Keys| == |ledger|;
  }

  lemma {:induction false} LedgerOfValues(inv: seq<Migration>, n: nat, i: nat)
    requires IsInventory(inv) && i < n <= |inv|
    ensures inv[i].version in LedgerOf(inv, n) && LedgerOf(inv, n)[inv[i].version] == Some(inv[i].checksum)
  {
    if i < n - 1 { LedgerOfValues(inv, n - 1, i); }
  }

  lemma VersionsSnoc(inv: seq<Migration>, n: nat)
    requires n < |inv|
    ensures Versions(inv[..n + 1]) == Versions(inv[..n]) + [inv[n].version]
    ensures Elements(Versions(inv[..n + 1])) == Elements(Versions(inv[..n])) + {inv[n].version}
  {
  }

  datatype Error =
    | UnknownTarget | NotStarted | UnknownApplied | MalformedChecksum | ChecksumMismatch | BelowApplied | OutOfOrder

  /** The migration of a version: byVersion.get. */
  function Find(inv: seq<Migration>, v: Version): (r: Option<Migration>)
    ensures r.Some? ==> r.value in inv && r.value.version == v
    ensures r.None? ==> forall m :: m in inv ==> m.version != v
  {
    if |inv| == 0 then None
    else if inv[|inv| - 1].version == v then Some(inv[|inv| - 1])
    else
      assert inv == inv[..|inv| - 1] + [inv[|inv| - 1]];
      Find(inv[..|inv| - 1], v)
  }

  /** The error a ledger row raises; `compatible` are the reviewed older checksums. */
  function RowError(
      inv: seq<Migration>, compatible: set<(Version, Checksum)>, v: Version, c: Option<Checksum>): Option<Error> {
    var m := Find(inv, v);
    if m.None? then Some(UnknownApplied)
    else if c.Some? && c.value.Malformed? then Some(MalformedChecksum)
    else if c.Some? && c.value != m.value.checksum && (v, c.value) !in compatible then Some(ChecksumMismatch)
    else None
  }

  /** Every row names a migration under a checksum that is absent, current or reviewed. */
  predicate Recognised(
      inv: seq<Migration>, compatible: set<(Version, Checksum)>, ledger: map<Version, Option<Checksum>>) {
    forall v :: v in ledger ==> RowError(inv, compatible, v, ledger[v]).None?
  }

  predicate Known(inv: seq<Migration>, applied: set<Version>) {
    forall v :: v in applied ==> Find(inv, v).Some?
  }

  predicate IsMaxApplied(inv: seq<Migration>, applied: set<Version>, max: int) {
    && (forall i :: 0 <= i < |inv| && inv[i].version in applied ==> inv[i].number <= max)
    && (max == -1 || exists i :: 0 <= i < |inv| && inv[i].version in applied && inv[i].number == max)
  }

  predicate Skips(targeted: seq<Migration>, applied: set<Version>, max: int) {
    exists i :: 0 <= i < |targeted| && targeted[i].version !in applied && targeted[i].number < max
  }

  /** The order checks pass exactly when the applied migrations are the first n of the inventory,
      none of them beyond the target. */
  lemma OrderedIffPrefix(inv: seq<Migration>, through: Option<nat>, applied: set<Version>, max: int)
    requires IsInventory(inv) && Known(inv, applied) && IsMaxApplied(inv, applied, max)
    ensures (through.None? || max <= through.value) && !Skips(Targeted(inv, through), applied, max)
      <==> IsPrefix(inv, applied, |applied|) && |applied| <= |Targeted(inv, through)|
  {
    TargetedIsPrefix(inv, through);
    hide Find, Versions, Elements, Known, IsInventory, Targeted;
    var targeted := Targeted(inv, through);
    if (through.None? || max <= through.value) && !Skips(targeted, applied, max) {
      PrefixUpTo(inv, applied, max, |targeted|);
    }
    if IsPrefix(inv, applied, |applied|) && |applied| <= |targeted| {
      PrefixBelow(inv, applied, |applied|, max);
    }
  }

  lemma PrefixSize(inv: seq<Migration>, applied: set<Version>, n: nat)
    requires IsInventory(inv) && IsPrefix(inv, applied, n)
    ensures n == |applied|
  {
    LedgerOfKeys(inv, n);
  }

  lemma PrefixBelow(inv: seq<Migration>, applied: set<Version>, n: nat, max: int)
    requires IsInventory(inv) && IsPrefix(inv, applied, n) && IsMaxApplied(inv, applied, max)
    ensures forall i :: 0 <= i < |inv| ==> (inv[i].version in applied <==> i < n)
    ensures max == if n == 0 then -1 else inv[n - 1].number
  {
  }

  lemma PrefixUpTo(inv: seq<Migration>, applied: set<Version>, max: int, targeted: nat)
    requires IsInventory(inv) && Known(inv, applied) && IsMaxApplied(inv, applied, max)
    requires targeted <= |inv| && forall i :: 0 <= i < |inv| && inv[i].number <= max ==> i < targeted
    requires !Skips(inv[..targeted], applied, max)
    ensures IsPrefix(inv, applied, |applied|) && |applied| <= targeted
  {
    var n := AppliedBelowMax(inv, applied, max, targeted);
    forall v ensures v in applied <==> v in Versions(inv[..n]) {
      if v in applied { AppliedIsBelow(inv, applied, n, v); }
      if v in Versions(inv[..n]) { var k :| 0 <= k < n && Versions(inv[..n])[k] == v; }
    }
    PrefixSize(inv, applied, n);
  }

  lemma AppliedIsBelow(inv: seq<Migration>, applied: set<Version>, n: nat, v: Version)
    requires IsInventory(inv) && Known(inv, applied) && n <= |inv| && v in applied
    requires forall i :: 0 <= i < |inv| ==> (inv[i].version in applied <==> i < n)
    ensures v in Versions(inv[..n])
  {
  }

  lemma AppliedBelowMax(inv: seq<Migration>, applied: set<Version>, max: int, targeted: nat) returns (n: nat)
    requires IsInventory(inv) && IsMaxApplied(inv, applied, max)
    requires targeted <= |inv| && forall i :: 0 <= i < |inv| && inv[i].number <= max ==> i < targeted
    requires !Skips(inv[..targeted], applied, max)
    ensures n <= targeted && forall i :: 0 <= i < |inv| ==> (inv[i].version in applied <==> i < n)
  {
    if max == -1 {
      n := 0;
    } else {
      var i :| 0 <= i < |inv| && inv[i].version in applied && inv[i].number == max;
      n := i + 1;
      forall j | 0 <= j < n ensures inv[j].version in applied {
        assert inv[..targeted][j] == inv[j];
      }
    }
  }

  // ---------------------------------------------------------------- runs

  /** The first `n` migrations are in the ledger, and `upto` have been reached from there. */
  function Reached(inv: seq<Migration>, db: Db, upto: nat): Db
    requires IsInventory(inv) && |db.ledger| <= upto <= |inv|
  {
    Db(LedgerOf(inv, upto), db.executed + Versions(inv[|db.ledger|..upto]))
  }

  /** What the environment does: whether the preflights succeed, and at which migrations an
      interruption, a missing grant or a failing statement stops the run. */
  datatype Options = Options(
      through: Option<nat>, ready: bool, stops: set<Version>, compatible: set<(Version, Checksum)>)

  datatype Outcome = Refused(error: Error) | Stopped | Complete

  predicate HasTarget(inv: seq<Migration>, through: Option<nat>) {
    through.None? || exists m :: m in inv && m.number == through.value
  }

  /** Every check passes. */
  predicate Accepts(inv: seq<Migration>, ledger: map<Version, Option<Checksum>>, options: Options) {
    && HasTarget(inv, options.through) && options.ready && Recognised(inv, options.compatible, ledger)
    && IsPrefix(inv, ledger.Keys, |ledger|) && |ledger| <= |Targeted(inv, options.through)|
  }

  // ---------------------------------------------------------------- a run, in the rows

  /** The row's version is a file's, under no checksum, the file's, or one reviewed as compatible. */
  predicate GoodRow(inv: seq<Migration>, compatible: set<(Version, Checksum)>, v: Version, c: Option<Checksum>) {
    exists i :: 0 <= i < |inv| && inv[i].version == v
                && (c == None || c == Some(inv[i].checksum) || (c.value.Sha256? && (v, c.value) in compatible))
  }

  /** The target exists, the preflights pass, every row is good, and what is applied is the beginning of
      the inventory and within the target. */
  ghost predicate MayRun(inv: seq<Migration>, ledger: map<Version, Option<Checksum>>, o: Options) {
    && (o.through == None || exists i :: 0 <= i < |inv| && inv[i].number == o.through.value) && o.ready
    && AllGood(inv, o.compatible, ledger) && Placed(inv, ledger)
    && forall i :: 0 <= i < |inv| && i < |ledger| ==> o.through == None || inv[i].number <= o.through.value
  }

  predicate AllGood(inv: seq<Migration>, compatible: set<(Version, Checksum)>, ledger: map<Version, Option<Checksum>>) {
    forall v :: v in ledger ==> GoodRow(inv, compatible, v, ledger[v])
  }

  /** As many files as the ledger has rows are in it, from the first. */
  predicate Placed(inv: seq<Migration>, ledger: map<Version, Option<Checksum>>) {
    forall i :: 0 <= i < |inv| ==> (inv[i].version in ledger <==> i < |ledger|)
  }

  /** Exactly the first n migrations are in the ledger, under their checksums. */
  predicate Records(inv: seq<Migration>, ledger: map<Version, Option<Checksum>>, n: nat) {
    && n <= |inv| && |ledger| == n
    && forall i :: 0 <= i < n ==> inv[i].version in ledger && ledger[inv[i].version] == Some(inv[i].checksum)
  }

  predicate Appends(inv: seq<Migration>, before: seq<Version>, after: seq<Version>, from: nat, to: nat) {
    && from <= to <= |inv| && |after| == |before| + to - from && before <= after
    && forall i :: from <= i < to ==> after[|before| + i - from] == inv[i].version
  }

  /** From the ledger's end on, migrations ran in order up to the n-th; the run is complete when that is
      the first past the target, and stopped when it is the first that stops it. */
  ghost predicate RanTo(inv: seq<Migration>, before: Db, after: Db, o: Options, outcome: Outcome, n: nat) {
    && |before.ledger| <= n && Records(inv, after.ledger, n)
    && Appends(inv, before.executed, after.executed, |before.ledger|, n)
    && (forall i :: |before.ledger| <= i < n ==>
          inv[i].version !in o.stops && (o.through == None || inv[i].number <= o.through.value))
    && (outcome == Complete ==> forall i :: n <= i < |inv| ==> o.through != None && inv[i].number > o.through.value)
    && (outcome == Stopped ==>
          n < |inv| && inv[n].version in o.stops && (o.through == None || inv[n].number <= o.through.value))
  }

  lemma GoodRowIff(inv: seq<Migration>, compatible: set<(Version, Checksum)>, v: Version, c: Option<Checksum>)
    requires IsInventory(inv)
    ensures GoodRow(inv, compatible, v, c) <==> RowError(inv, compatible, v, c) == None
  {
    var m := Find(inv, v);
    if m.Some? {
      var i :| 0 <= i < |inv| && inv[i] == m.value;
      assert forall j :: 0 <= j < |inv| && inv[j].version == v ==> j == i;
      assert inv[i] in inv;
    } else {
      assert forall i :: 0 <= i < |inv| ==> inv[i] in inv;
    }
  }

  lemma MayRunIff(inv: seq<Migration>, ledger: map<Version, Option<Checksum>>, o: Options)
    requires IsInventory(inv)
    ensures MayRun(inv, ledger, o) <==> Accepts(inv, ledger, o)
  {
    hide GoodRow, RowError, IsPrefix, HasTarget, Targeted, Placed, Ascends;
    forall v | v in ledger
      ensures GoodRow(inv, o.compatible, v, ledger[v]) <==> RowError(inv, o.compatible, v, ledger[v]) == None
    {
      GoodRowIff(inv, o.compatible, v, ledger[v]);
    }
    TargetIff(inv, o.through);
    PlacedIff(inv, ledger, o.compatible);
    if |ledger| <= |inv| { WithinIff(inv, ledger, o.through); }
  }

  lemma WithinIff(inv: seq<Migration>, ledger: map<Version, Option<Checksum>>, through: Option<nat>)
    requires Ascends(inv) && |ledger| <= |inv|
    ensures |ledger| <= |Targeted(inv, through)| <==>
      forall i :: 0 <= i < |inv| && i < |ledger| ==> through == None || inv[i].number <= through.value
  {
    TargetedIsPrefix(inv, through);
    hide Targeted;
    if |ledger| > 0 { assert inv[|ledger| - 1].number == inv[|ledger| - 1].number; }
  }

  lemma TargetIff(inv: seq<Migration>, through: Option<nat>)
    ensures HasTarget(inv, through) <==> through == None || exists i :: 0 <= i < |inv| && inv[i].number == through.value
  {
    if i :| 0 <= i < |inv| && through != None && inv[i].number == through.value { assert inv[i] in inv; }
  }

  /** With only good rows, the ledger is a prefix when the files it has are the first of them. */
  lemma PlacedIff(inv: seq<Migration>, ledger: map<Version, Option<Checksum>>, compatible: set<(Version, Checksum)>)
    requires IsInventory(inv)
    ensures IsPrefix(inv, ledger.Keys, |ledger|) ==> |ledger| <= |inv| && Placed(inv, ledger)
    ensures AllGood(inv, compatible, ledger) && Placed(inv, ledger) ==>
      |ledger| <= |inv| && IsPrefix(inv, ledger.Keys, |ledger|)
  {
    if IsPrefix(inv, ledger.Keys, |ledger|) { AppliedIff(inv, ledger.Keys, |ledger|); }
    if AllGood(inv, compatible, ledger) && Placed(inv, ledger) {
      var n := if |ledger| <= |inv| then |ledger| else |inv|;
      forall v ensures v in ledger.Keys <==> v in Versions(inv[..n]) {
        if v in ledger {
          assert GoodRow(inv, compatible, v, ledger[v]);
          var i :| 0 <= i < |inv| && inv[i].version == v;
          assert Versions(inv[..n])[i] == v;
        }
        if v in Versions(inv[..n]) { var k :| 0 <= k < n && Versions(inv[..n])[k] == v; }
      }
      PrefixSize(inv, ledger.Keys, n);
    }
  }

  lemma EndIsRun(
      inv: seq<Migration>, before: Db, o: Options, outcome: Outcome, after: Db, n: nat)
    requires IsInventory(inv) && EndsAt(inv, before, Targeted(inv, o.through), o.stops, outcome, after, n)
    ensures RanTo(inv, before, after, o, outcome, n)
  {
    TargetedIsPrefix(inv, o.through);
    hide Reached, Records, Targeted, Appends;
    ReachedRecords(inv, before, n);
  }

  lemma ReachedRecords(inv: seq<Migration>, before: Db, n: nat)
    requires IsInventory(inv) && |before.ledger| <= n <= |inv|
    ensures Records(inv, Reached(inv, before, n).ledger, n)
    ensures Appends(inv, before.executed, Reached(inv, before, n).executed, |before.ledger|, n)
  {
    hide IsInventory, LedgerOf, Records, Appends, Versions;
    LedgerRecords(inv, n);
    TailAppends(inv, before.executed, |before.ledger|, n);
  }

  lemma TailAppends(inv: seq<Migration>, before: seq<Version>, from: nat, to: nat)
    requires from <= to <= |inv|
    ensures Appends(inv, before, before + Versions(inv[from..to]), from, to)
  {
  }

  lemma LedgerRecords(inv: seq<Migration>, n: nat)
    requires IsInventory(inv) && n <= |inv|
    ensures Records(inv, LedgerOf(inv, n), n)
  {
    hide IsInventory, LedgerOf;
    LedgerOfKeys(inv, n);
    forall i | 0 <= i < n
      ensures inv[i].version in LedgerOf(inv, n) && LedgerOf(inv, n)[inv[i].version] == Some(inv[i].checksum)
    {
      LedgerOfValues(inv, n, i);
    }
  }

  class Database {
    var ledger: map<Version, Option<Checksum>>
    /** The migrations whose SQL committed, in that order. */
    ghost var executed: seq<Version>

    ghost function View(): Db
      reads this
    {
      Db(ledger, executed)
    }

    constructor (db: Db)
      ensures View() == db
    {
      ledger, executed := db.ledger, db.executed;
    }

    /** The error of the first bad row, in the order the rows are read. */
    method CheckRows(inv: seq<Migration>, compatible: set<(Version, Checksum)>) returns (error: Option<Error>)
      ensures error.None? <==> Recognised(inv, compatible, ledger)
    {
      var rows := ListIds(ledger.Keys);
      for i := 0 to |rows|
        invariant forall j :: 0 <= j < i ==> RowError(inv, compatible, rows[j], ledger[rows[j]]).None?
      {
        assert rows[i] in rows;
        error := RowError(inv, compatible, rows[i], ledger[rows[i]]);
        if error.Some? { return; }
      }
      return None;
    }

    method MaxApplied(inv: seq<Migration>) returns (max: int)
      ensures IsMaxApplied(inv, ledger.Keys, max)
    {
      max := -1;
      for i := 0 to |inv|
        invariant forall j :: 0 <= j < i && inv[j].version in ledger ==> inv[j].number <= max
        invariant max == -1 || exists j :: 0 <= j < i && inv[j].version in ledger && inv[j].number == max
      {
        if inv[i].version in ledger && inv[i].number > max { max := inv[i].number; }
      }
    }

    /** runMigrations.  Unless every check passes nothing changes; otherwise the ledger is baselined
        and the missing targeted migrations run in order, up to the first that stops the run. */
    method RunMigrations(inv: seq<Migration>, options: Options) returns (outcome: Outcome)
      requires IsInventory(inv)
      modifies this
      ensures outcome.Refused? <==> !MayRun(inv, old(ledger), options)
      ensures !outcome.Refused? ==> exists n: nat :: RanTo(inv, old(View()), View(), options, outcome, n)
      ensures outcome.Refused? <==> !Accepts(inv, old(ledger), options)
      ensures outcome.Refused? ==> View() == old(View())
      ensures !outcome.Refused? ==>
        exists n: nat :: EndsAt(inv, old(View()), Targeted(inv, options.through), options.stops, outcome, View(), n)
    {
      hide RanTo, MayRun, LedgerOf;
      MayRunIff(inv, ledger, options);
      if !HasTarget(inv, options.through) { return Refused(UnknownTarget); }
      if !options.ready { return Refused(NotStarted); }
      var targeted := Targeted(inv, options.through);
      var error := CheckRows(inv, options.compatible);
      if error.Some? { return Refused(error.value); }
      var max := MaxApplied(inv);
      OrderedIffPrefix(inv, options.through, ledger.Keys, max);
      if options.through.Some? && max > options.through.value { return Refused(BelowApplied); }
      if Skips(targeted, ledger.Keys, max) { return Refused(OutOfOrder); }
      TargetedIsPrefix(inv, options.through);
      ghost var before := View();
      Baseline(inv);
      outcome := ApplyPending(inv, targeted, options.stops, before);
      ghost var n: nat :| EndsAt(inv, before, targeted, options.stops, outcome, View(), n);
      EndIsRun(inv, before, options, outcome, View(), n);
    }

    /** One transaction records the current checksum of every row that lacks it. */
    method Baseline(inv: seq<Migration>)
      requires IsInventory(inv) && IsPrefix(inv, ledger.Keys, |ledger|)
      modifies this
      ensures View() == Reached(inv, old(View()), |old(ledger)|)
    {
      BaselinedPrefix(inv, ledger);
      hide LedgerOf, Baselined, IsPrefix;
      assert inv[|ledger|..|ledger|] == [];
      assert executed + [] == executed;
      ledger := Baselined(inv, ledger);
    }

    /** The SQL and its ledger row commit together. */
    method ApplyMigration(m: Migration)
      modifies this
      ensures View() == Db(old(ledger)[m.version := Some(m.checksum)], old(executed) + [m.version])
    {
      ledger := ledger[m.version := Some(m.checksum)];
      executed := executed + [m.version];
    }

    method ApplyPending(
        inv: seq<Migration>, targeted: seq<Migration>, stops: set<Version>, ghost before: Db) returns (outcome: Outcome)
      requires IsInventory(inv) && targeted <= inv && IsPrefix(inv, before.ledger.Keys, |before.ledger|)
      requires |before.ledger| <= |targeted| && View() == Reached(inv, before, |before.ledger|)
      modifies this
      ensures !outcome.Refused? && exists n: nat :: EndsAt(inv, before, targeted, stops, outcome, View(), n)
    {
      hide LedgerOf, IsPrefix, Reached, IsInventory, Versions, Elements;
      var applied := ledger.Keys;
      ghost var n := |before.ledger|;
      AppliedAfterBaseline(inv, before);
      for i := 0 to |targeted|
        invariant n == if i <= |before.ledger| then |before.ledger| else i
        invariant View() == Reached(inv, before, n)
        invariant forall j :: |before.ledger| <= j < n ==> inv[j].version !in stops
      {
        var m := targeted[i];
        assert m == inv[i];
        if m.version !in applied {
          if m.version in stops {
            assert EndsAt(inv, before, targeted, stops, Stopped, View(), n);
            return Stopped;
          }
          ReachedSnoc(inv, before, n);
          ApplyMigration(m);
          n := n + 1;
        }
      }
      outcome := Complete;
      assert EndsAt(inv, before, targeted, stops, Complete, View(), n);
    }
  }

  /** The run got as far as the n-th migration: all targeted ones, or the first that stopped it. */
  ghost predicate EndsAt(
      inv: seq<Migration>, before: Db, targeted: seq<Migration>, stops: set<Version>, outcome: Outcome,
      after: Db, n: nat)
    requires IsInventory(inv)
  {
    && |before.ledger| <= n <= |targeted| <= |inv| && after == Reached(inv, before, n)
    && (outcome.Complete? ==> n == |targeted|)
    && (outcome.Stopped? ==> n < |targeted| && inv[n].version in stops)
    && (forall i :: |before.ledger| <= i < n ==> inv[i].version !in stops)
  }

  function ChecksumOf(inv: seq<Migration>, v: Version): Checksum {
    var m := Find(inv, v);
    if m.Some? then m.value.checksum else Malformed(0)
  }

  function Baselined(inv: seq<Migration>, ledger: map<Version, Option<Checksum>>): map<Version, Option<Checksum>> {
    map v | v in ledger :: Some(ChecksumOf(inv, v))
  }

  lemma BaselinedAt(inv: seq<Migration>, n: nat, v: Version)
    requires IsInventory(inv) && n <= |inv| && v in Elements(Versions(inv[..n]))
    ensures v in LedgerOf(inv, n) && LedgerOf(inv, n)[v] == Some(ChecksumOf(inv, v))
  {
  }

  lemma BaselinedPrefix(inv: seq<Migration>, ledger: map<Version, Option<Checksum>>)
    requires IsInventory(inv) && IsPrefix(inv, ledger.Keys, |ledger|)
    ensures Baselined(inv, ledger) == LedgerOf(inv, |ledger|)
  {
    var n := |ledger|;
    hide LedgerOf, IsInventory, ChecksumOf, Elements, Versions;
    LedgerOfKeys(inv, n);
    forall v | v in ledger ensures Baselined(inv, ledger)[v] == LedgerOf(inv, n)[v] {
      BaselinedAt(inv, n, v);
    }
  }

  lemma AppliedIff(inv: seq<Migration>, applied: set<Version>, n: nat)
    requires IsInventory(inv) && IsPrefix(inv, applied, n)
    ensures forall i :: 0 <= i < |inv| ==> (inv[i].version in applied <==> i < n)
  {
  }

  lemma AppliedAfterBaseline(inv: seq<Migration>, before: Db)
    requires IsInventory(inv) && IsPrefix(inv, before.ledger.Keys, |before.ledger|)
    ensures forall i :: 0 <= i < |inv| ==>
      (inv[i].version in Reached(inv, before, |before.ledger|).ledger.Keys <==> i < |before.ledger|)
  {
    hide LedgerOf;
    LedgerOfKeys(inv, |before.ledger|);
    AppliedIff(inv, LedgerOf(inv, |before.ledger|).Keys, |before.ledger|);
  }

  lemma ReachedSnoc(inv: seq<Migration>, db: Db, n: nat)
    requires IsInventory(inv) && |db.ledger| <= n < |inv|
    ensures Reached(inv, db, n + 1) ==
      Db(Reached(inv, db, n).ledger[inv[n].version := Some(inv[n].checksum)],
        Reached(inv, db, n).executed + [inv[n].version])
  {
  }

  // ---------------------------------------------------------------- properties

  /** The ledger is a prefix of the inventory, and the migrations from the given one on ran in its
      order: from the first on in a database of our own, from 007 on in a reconciled one. */
  ghost predicate InOrder(inv: seq<Migration>, db: Db, from: nat) {
    from <= |db.ledger| && IsPrefix(inv, db.ledger.Keys, |db.ledger|) && db.executed == Versions(inv[from..|db.ledger|])
  }

  /** A run ends, wherever it ends, with the ledger a prefix in the order the SQL ran, fully
      baselined. */
  lemma RunKeepsOrder(
      inv: seq<Migration>, from: nat, before: Db, targeted: seq<Migration>, stops: set<Version>, outcome: Outcome,
      after: Db, n: nat)
    requires IsInventory(inv) && InOrder(inv, before, from) && EndsAt(inv, before, targeted, stops, outcome, after, n)
    ensures InOrder(inv, after, from) && |after.ledger| == n && before.executed <= after.executed
    ensures after.ledger == LedgerOf(inv, n)
  {
    LedgerOfKeys(inv, n);
    VersionsJoin(inv, from, |before.ledger|, n);
  }

  lemma VersionsJoin(inv: seq<Migration>, k: nat, m: nat, n: nat)
    requires k <= m <= n <= |inv|
    ensures Versions(inv[k..m]) + Versions(inv[m..n]) == Versions(inv[k..n])
  {
  }

  lemma ReachedTwice(inv: seq<Migration>, db: Db, m: nat, n: nat)
    requires IsInventory(inv) && |db.ledger| <= m <= n <= |inv|
    ensures |Reached(inv, db, m).ledger| == m
    ensures Reached(inv, Reached(inv, db, m), n) == Reached(inv, db, n)
  {
    LedgerOfKeys(inv, m);
    hide LedgerOf, IsInventory;
    var k := |db.ledger|;
    VersionsJoin(inv, k, m, n);
    assert db.executed + Versions(inv[k..m]) + Versions(inv[m..n]) ==
      db.executed + (Versions(inv[k..m]) + Versions(inv[m..n]));
  }

  /** Staging through one target and then another is one run through the second. */
  lemma StagingComposes(
      inv: seq<Migration>, first: Option<nat>, second: Option<nat>, a: Db, b: Db, c: Db, stops: set<Version>,
      m: nat, n: nat)
    requires IsInventory(inv)
    requires EndsAt(inv, a, Targeted(inv, first), stops, Complete, b, m)
    requires EndsAt(inv, b, Targeted(inv, second), stops, Complete, c, n)
    ensures EndsAt(inv, a, Targeted(inv, second), stops, Complete, c, n)
  {
    LedgerOfKeys(inv, m);
    ReachedTwice(inv, a, m, n);
  }

  /** A run that was stopped and then resumed ends as one that was not. */
  lemma ResumingComposes(
      inv: seq<Migration>, through: Option<nat>, a: Db, b: Db, c: Db, stops: set<Version>, m: nat, n: nat)
    requires IsInventory(inv)
    requires EndsAt(inv, a, Targeted(inv, through), stops, Stopped, b, m)
    requires EndsAt(inv, b, Targeted(inv, through), {}, Complete, c, n)
    ensures EndsAt(inv, a, Targeted(inv, through), {}, Complete, c, n)
  {
    LedgerOfKeys(inv, m);
    ReachedTwice(inv, a, m, n);
  }

  /** A ledger that is not a prefix of the inventory is refused whatever the target. */
  lemma GapsAreRefused(inv: seq<Migration>, ledger: map<Version, Option<Checksum>>, options: Options, i: nat, j: nat)
    requires IsInventory(inv) && i < j < |inv| && inv[i].version !in ledger && inv[j].version in ledger
    ensures !Accepts(inv, ledger, options)
  {
    if IsPrefix(inv, ledger.Keys, |ledger|) { AppliedIff(inv, ledger.Keys, |ledger|); }
  }

  // ---------------------------------------------------------------- the legacy ledger

  /** The reviewed inventory: its migrations up to 006 are exactly the six of the release. */
  predicate Reviewed(inv: seq<Migration>, release: seq<Migration>) {
    |release| == 6 && release[5].number == 6 && Targeted(inv, Some(6)) == release
  }

  /** assertLegacyLedgerShape: 001 and 006 only, without checksums. */
  predicate IsLegacyLedger(release: seq<Migration>, ledger: map<Version, Option<Checksum>>) {
    |release| == 6 && ledger == map[release[0].version := None, release[5].version := None]
  }

  /** The release has six migrations, the last numbered 6, and they are those of the inventory up to 6. */
  ghost predicate FirstSix(inv: seq<Migration>, release: seq<Migration>) {
    && |release| == 6 && |inv| >= 6 && release[5].number == 6
    && (forall i :: 0 <= i < 6 ==> inv[i] == release[i]) && forall i :: 6 <= i < |inv| ==> inv[i].number > 6
  }

  lemma FirstSixIff(inv: seq<Migration>, release: seq<Migration>)
    requires IsInventory(inv)
    ensures FirstSix(inv, release) <==> Reviewed(inv, release)
  {
    TargetedIsPrefix(inv, Some(6));
    hide Targeted;
    var t := Targeted(inv, Some(6));
    if FirstSix(inv, release) {
      assert inv[5].number == 6 && 5 < |t|;
      if |inv| > 6 { assert inv[6].number > 6; }
      assert |t| == 6 && t == inv[..6] == release;
    }
    if Reviewed(inv, release) {
      assert forall i :: 0 <= i < 6 ==> inv[i] == t[i];
    }
  }

  datatype ReconcileOptions = ReconcileOptions(apply: bool, backupConfirmed: bool, locked: bool, schemaProven: bool)

  datatype ReconcileResult = ReconcileFailed | Preview | Reconciled

  /** The upserts of an applied reconciliation. */
  method ReconcileLegacyLedger(db: Database, inv: seq<Migration>, release: seq<Migration>, options: ReconcileOptions)
    returns (result: ReconcileResult)
    requires IsInventory(inv)
    modifies db
    ensures result.ReconcileFailed? <==>
      !(Reviewed(inv, release) && (options.apply ==> options.backupConfirmed) && options.locked && options.schemaProven
        && IsLegacyLedger(release, old(db.ledger)))
    ensures !result.Reconciled? ==> db.View() == old(db.View())
    ensures result.Reconciled? ==> |inv| >= 6 && db.ledger == LedgerOf(inv, 6)
    ensures db.executed == old(db.executed)
    ensures result.ReconcileFailed? <==>
      !(FirstSix(inv, release) && (!options.apply || options.backupConfirmed) && options.locked && options.schemaProven
        && old(db.ledger).Keys == {release[0].version, release[5].version}
        && old(db.ledger)[release[0].version] == old(db.ledger)[release[5].version] == None)
    ensures result.Preview? ==> !options.apply
    ensures result.Reconciled? ==> options.apply && Records(inv, db.ledger, 6)
  {
    FirstSixIff(inv, release);
    if |inv| >= 6 { LedgerRecords(inv, 6); }
    hide FirstSix, Records;
    if !Reviewed(inv, release) { return ReconcileFailed; }
    if options.apply && !options.backupConfirmed { return ReconcileFailed; }
    if !options.locked { return ReconcileFailed; }
    if !IsLegacyLedger(release, db.ledger) || !options.schemaProven { return ReconcileFailed; }
    if !options.apply { return Preview; }
    TargetedIsPrefix(inv, Some(6));
    ghost var start := db.ledger;
    for i := 0 to |release|
      invariant db.ledger == Upserted(inv, start, i) && db.executed == old(db.executed)
    {
      assert release[i] == inv[i];
      db.ledger := db.ledger[release[i].version := Some(release[i].checksum)];
    }
    UpsertedIsPrefix(inv, start);
    return Reconciled;
  }

  function Upserted(inv: seq<Migration>, ledger: map<Version, Option<Checksum>>, n: nat): map<Version, Option<Checksum>>
    requires n <= |inv|
  {
    if n == 0 then ledger else Upserted(inv, ledger, n - 1)[inv[n - 1].version := Some(inv[n - 1].checksum)]
  }

  lemma {:induction false} UpsertedKeys(inv: seq<Migration>, ledger: map<Version, Option<Checksum>>, n: nat)
    requires IsInventory(inv) && n <= |inv|
    ensures forall v :: v in Upserted(inv, ledger, n) <==> v in ledger || v in LedgerOf(inv, n)
    ensures forall v :: v in LedgerOf(inv, n) ==> Upserted(inv, ledger, n)[v] == LedgerOf(inv, n)[v]
  {
    hide IsInventory;
    if n > 0 { UpsertedKeys(inv, ledger, n - 1); }
  }

  lemma UpsertedIsPrefix(inv: seq<Migration>, ledger: map<Version, Option<Checksum>>)
    requires IsInventory(inv) && |inv| >= 6 && ledger == map[inv[0].version := None, inv[5].version := None]
    ensures Upserted(inv, ledger, 6) == LedgerOf(inv, 6)
  {
    hide LedgerOf, Upserted;
    UpsertedKeys(inv, ledger, 6);
    LedgerOfValues(inv, 6, 0);
    LedgerOfValues(inv, 6, 5);
  }

  /** The legacy ledger is no prefix and every run refuses it; once reconciled it is one, and a run
      continues from 007. */
  lemma ReconciliationYieldsPrefix(
      inv: seq<Migration>, release: seq<Migration>, ledger: map<Version, Option<Checksum>>, options: Options)
    requires IsInventory(inv) && Reviewed(inv, release) && IsLegacyLedger(release, ledger)
    ensures !Accepts(inv, ledger, options)
    ensures |inv| >= 6 && InOrder(inv, Db(LedgerOf(inv, 6), []), 6)
    ensures Recognised(inv, options.compatible, LedgerOf(inv, 6))
  {
    TargetedIsPrefix(inv, Some(6));
    assert release[0] == inv[0] && release[1] == inv[1] && release[5] == inv[5];
    assert inv[1].version != inv[0].version && inv[1].version != inv[5].version;
    GapsAreRefused(inv, ledger, options, 1, 5);
    LedgerOfKeys(inv, 6);
    LedgerIsRecognised(inv, options.compatible, 6);
  }

  lemma LedgerIsRecognised(inv: seq<Migration>, compatible: set<(Version, Checksum)>, n: nat)
    requires IsInventory(inv) && n <= |inv|
    ensures Recognised(inv, compatible, LedgerOf(inv, n))
  {
  }
}
