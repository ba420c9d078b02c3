/** scripts/discord-sweep.py: per-channel windows checkpointed through a state file, with a crash
    possible between any two statements.  One channel is followed through any number of runs; what
    the other channels of a run do to it is that their saves write the whole state file, as
    DiscordSweepFile shows. */
module DiscordSweep {
  import opened Prelude

  type Content(==, !new) = nat

  /** A completed window and the snapshot of memories extracted for it. */
  datatype Window = Window(start: Instant, end: Instant, memories: seq<Content>)

  datatype Pending =
    | Extract(start: Instant, end: Instant)
    | Store(start: Instant, end: Instant, memories: seq<Content>, next: nat)

  /** A channel's record: last_successful_end and pending; and, for the proofs, the windows whose
      completion it reflects. */
  datatype Record = Record(lastEnd: Option<Instant>, pending: Option<Pending>, windows: seq<Window>)

  /** memory_key; SHA-256 of the canonical JSON is modelled as an injection. */
  datatype Key = Key(channel: Id, start: Instant, end: Instant, index: nat, memory: Content)

  /** Where a run stands with the channel: not running, state loaded, between statements of the
      visit, about to save, or done with the channel. */
  datatype Stage = Stopped | Loaded | Ready | Saving | Visited

  datatype World = World(channel: Id, durable: Record, volatile: Record, stage: Stage, now: Instant, server: set<Key>)

  /** A save is atomic, but an error may also be raised after the file was replaced. */
  datatype SaveOutcome = Saved | SavedThenFailed | NotSaved

  /** A store may fail after the server took it. */
  datatype StoreOutcome = Acknowledged | TakenThenFailed | NotTaken

  datatype Step =
    | Begin(now: Instant)
    | Open(lookback: nat)
    | Save(outcome: SaveOutcome)
    | ExtractMemories(timestamps: seq<Instant>, memories: seq<Content>)
    | ExtractionFails
    | StoreNext(result: StoreOutcome)
    | Checkpoint
    | OthersSave
    | Revisit
    | Stop

  // ---------------------------------------------------------------- the statements

  /** _validate_pending; a snapshot position is in range by construction. */
  predicate Rejected(p: Pending, watermark: Option<Instant>, now: Instant) {
    || p.start > p.end || p.end > now
    || (watermark.Some? && p.start != watermark.value)
    || (p.Store? && p.next > |p.memories|)
  }

  function Opened(w: World, lookback: nat): World {
    var r := w.volatile;
    if r.lastEnd.Some? && r.lastEnd.value > w.now then w.(stage := Visited)
    else if r.pending.Some? then w.(stage := if Rejected(r.pending.value, r.lastEnd, w.now) then Visited else Ready)
    else w.(volatile := r.(pending := Some(Extract(Coalesce(r.lastEnd, w.now - lookback), w.now))), stage := Saving)
  }

  function AfterSave(w: World, outcome: SaveOutcome): World {
    match outcome
    case Saved => w.(durable := w.volatile, stage := if w.volatile.pending.Some? then Ready else Visited)
    case SavedThenFailed => w.(durable := w.volatile, stage := Visited)
    case NotSaved => w.(stage := Visited)
  }

  /** The messages extract_messages keeps. */
  function Within(timestamps: seq<Instant>, start: Instant, end: Instant): seq<Instant> {
    if |timestamps| == 0 then []
    else (if start <= timestamps[0] < end then [timestamps[0]] else []) + Within(timestamps[1..], start, end)
  }

  function KeyOf(channel: Id, start: Instant, end: Instant, memories: seq<Content>, i: nat): Key
    requires i < |memories|
  {
    Key(channel, start, end, i, memories[i])
  }

  function Completed(r: Record): Record
    requires r.pending.Some? && r.pending.value.Store?
  {
    var p := r.pending.value;
    Record(Some(p.end), None, r.windows + [Window(p.start, p.end, p.memories)])
  }

  function Advanced(r: Record): Record
    requires r.pending.Some? && r.pending.value.Store?
  {
    r.(pending := Some(r.pending.value.(next := r.pending.value.next + 1)))
  }

  function Stored(w: World, result: StoreOutcome): World
    requires CanStore(w)
  {
    var p := w.volatile.pending.value;
    var key := KeyOf(w.channel, p.start, p.end, p.memories, p.next);
    match result
    case Acknowledged =>
      w.(server := w.server + {key}, volatile := Advanced(w.volatile), stage := Saving)
    case TakenThenFailed => w.(server := w.server + {key}, stage := Visited)
    case NotTaken => w.(stage := Visited)
  }

  predicate CanExtract(w: World) {
    w.stage == Ready && w.volatile.pending.Some? && w.volatile.pending.value.Extract?
  }

  predicate CanStore(w: World) {
    w.stage == Ready && w.volatile.pending.Some? && w.volatile.pending.value.Store?
    && w.volatile.pending.value.next < |w.volatile.pending.value.memories|
  }

  predicate CanCheckpoint(w: World) {
    w.stage == Ready && w.volatile.pending.Some? && w.volatile.pending.value.Store?
    && w.volatile.pending.value.next >= |w.volatile.pending.value.memories|
  }

  predicate Enabled(w: World, s: Step) {
    match s
    case Begin(_) => w.stage == Stopped
    case Open(_) => w.stage == Loaded
    case Save(_) => w.stage == Saving
    case ExtractMemories(timestamps, memories) =>
      CanExtract(w)
      && (|Within(timestamps, w.volatile.pending.value.start, w.volatile.pending.value.end)| < 3 ==> memories == [])
    case ExtractionFails => CanExtract(w)
    case StoreNext(_) => CanStore(w)
    case Checkpoint => CanCheckpoint(w)
    case OthersSave => w.stage == Loaded || w.stage == Visited
    case Revisit => w.stage == Visited
    case Stop => w.stage != Stopped
  }

  function Next(w: World, s: Step): World
    requires Enabled(w, s)
  {
    match s
    case Begin(now) => w.(volatile := w.durable, now := now, stage := Loaded)
    case Open(lookback) => Opened(w, lookback)
    case Save(outcome) => AfterSave(w, outcome)
    case ExtractMemories(_, memories) =>
      var p := w.volatile.pending.value;
      w.(volatile := w.volatile.(pending := Some(Store(p.start, p.end, memories, 0))), stage := Saving)
    case ExtractionFails => w.(stage := Visited)
    case StoreNext(result) => Stored(w, result)
    case Checkpoint =>
      w.(volatile := Completed(w.volatile), stage := Saving)
    case OthersSave => w.(durable := w.volatile)
    case Revisit => w.(stage := Loaded)
    case Stop => w.(stage := Stopped)
  }

  /** A step that is not enabled does not happen. */
  function After(w: World, s: Step): World {
    if Enabled(w, s) then Next(w, s) else w
  }

  function Run(w: World, steps: seq<Step>): World {
    if |steps| == 0 then w else After(Run(w, steps[..|steps| - 1]), steps[|steps| - 1])
  }

  /** Before the first sweep: nothing stored; the watermark may come from the legacy state. */
  function Fresh(channel: Id, watermark: Option<Instant>): World {
    var r := Record(watermark, None, []);
    World(channel, r, r, Stopped, 0, {})
  }

  // ---------------------------------------------------------------- windows

  /** The windows are adjacent half-open intervals up to the watermark; windows too short for a
      message have no memories. */
  predicate Adjacent(ws: seq<Window>, watermark: Option<Instant>) {
    && (forall i :: 0 <= i < |ws| ==> ws[i].start <= ws[i].end)
    && (forall i :: 0 <= i < |ws| && ws[i].start == ws[i].end ==> ws[i].memories == [])
    && (forall i :: 0 < i < |ws| ==> ws[i - 1].end == ws[i].start)
    && (|ws| > 0 ==> watermark == Some(ws[|ws| - 1].end))
  }

  /** And what is pending starts at the watermark. */
  predicate Tiled(r: Record) {
    Adjacent(r.windows, r.lastEnd) && (r.pending.Some? ==> PendingFits(r.pending.value, r.lastEnd))
  }

  predicate PendingFits(p: Pending, watermark: Option<Instant>) {
    && p.start <= p.end && (watermark.Some? ==> p.start == watermark.value)
    && (p.Store? ==> p.next <= |p.memories| && (p.start == p.end ==> p.memories == []))
  }

  // ---------------------------------------------------------------- stores

  predicate KeyOfWindow(channel: Id, w: Window, k: Key) {
    k.index < |w.memories| && k == KeyOf(channel, w.start, w.end, w.memories, k.index)
  }

  predicate KeyOfCompleted(channel: Id, r: Record, k: Key) {
    exists i :: 0 <= i < |r.windows| && KeyOfWindow(channel, r.windows[i], k)
  }

  /** The key of one of the first n memories of a pending snapshot. */
  predicate KeyOfPending(channel: Id, r: Record, n: nat, k: Key) {
    r.pending.Some? && r.pending.value.Store? && k.index < n
    && KeyOfWindow(channel, Window(r.pending.value.start, r.pending.value.end, r.pending.value.memories), k)
  }

  function Position(r: Record): nat {
    if r.pending.Some? && r.pending.value.Store? then r.pending.value.next else 0
  }

  /** The record says this memory is stored. */
  predicate Recorded(channel: Id, r: Record, k: Key) {
    KeyOfCompleted(channel, r, k) || KeyOfPending(channel, r, Position(r), k)
  }

  /** The record says it, or it is the very next memory of the snapshot. */
  predicate Foreseen(channel: Id, r: Record, k: Key) {
    KeyOfCompleted(channel, r, k) || KeyOfPending(channel, r, Position(r) + 1, k)
  }

  ghost predicate Matches(channel: Id, r: Record, server: set<Key>) {
    && (forall k :: Recorded(channel, r, k) ==> k in server)
    && (forall k :: k in server ==> Foreseen(channel, r, k))
  }

  // ---------------------------------------------------------------- the invariant

  /** What holds however often a run visits the channel: both records tile, and a running sweep knows
      every checkpointed window. */
  ghost predicate Windowed(w: World) {
    && Tiled(w.durable) && Tiled(w.volatile)
    && (w.stage != Stopped ==> w.durable.windows <= w.volatile.windows)
  }

  /** What holds while the channel is visited once per run: the server holds what both records say,
      and they agree when the state was just loaded or saved. */
  ghost predicate Matched(w: World) {
    && Matches(w.channel, w.durable, w.server)
    && (w.stage != Stopped ==> Matches(w.channel, w.volatile, w.server))
    && (w.stage == Loaded || w.stage == Ready ==> w.durable == w.volatile)
  }

  ghost predicate Valid(w: World) {
    Windowed(w) && Matched(w)
  }

  lemma WithinEmptyWindow(timestamps: seq<Instant>, at: Instant)
    ensures Within(timestamps, at, at) == []
  {
  }

  lemma OpenKeepsWindowed(w: World, lookback: nat)
    requires Windowed(w) && w.stage == Loaded
    ensures Windowed(Opened(w, lookback))
  {
    hide Adjacent;
  }

  lemma ExtractKeepsWindowed(w: World, s: Step)
    requires Windowed(w) && s.ExtractMemories? && Enabled(w, s)
    ensures Windowed(Next(w, s))
  {
    WithinEmptyWindow(s.timestamps, w.volatile.pending.value.start);
    hide Within, Adjacent;
  }

  lemma StoreKeepsWindowed(w: World, result: StoreOutcome)
    requires Windowed(w) && CanStore(w)
    ensures Windowed(Stored(w, result))
  {
    hide Adjacent;
  }

  lemma CheckpointTiled(r: Record)
    requires Tiled(r) && r.pending.Some? && r.pending.value.Store?
    ensures Tiled(Completed(r))
  {
  }

  /** Every step, a second visit included, keeps the windows adjacent and what is checkpointed. */
  lemma StepKeepsWindowed(w: World, s: Step)
    requires Windowed(w)
    ensures Windowed(After(w, s)) && w.durable.windows <= After(w, s).durable.windows
  {
    hide Tiled, Within, Opened;
    if Enabled(w, s) {
      match s
      case Open(lookback) =>
        OpenKeepsWindowed(w, lookback);
        OpenKeepsDurable(w, lookback);
      case ExtractMemories(_, _) => ExtractKeepsWindowed(w, s);
      case StoreNext(result) => StoreKeepsWindowed(w, result);
      case Checkpoint => CheckpointTiled(w.volatile);
      case _ =>
    }
  }

  lemma OpenKeepsDurable(w: World, lookback: nat)
    ensures Opened(w, lookback).durable == w.durable
  {
  }

  lemma NothingPending(channel: Id, a: Record, b: Record, n: nat, k: Key)
    requires a == b || (a.pending.None? && Snapshotless(b))
    ensures KeyOfPending(channel, a, n, k) <==> KeyOfPending(channel, b, n, k)
  {
  }

  lemma OpenKeepsMatched(w: World, lookback: nat)
    requires Matched(w) && w.stage == Loaded
    ensures Matched(Opened(w, lookback))
  {
    OpenKeepsDurable(w, lookback);
    OpenMatches(w, lookback);
    hide Matches;
  }

  lemma OpenMatches(w: World, lookback: nat)
    requires Matches(w.channel, w.volatile, w.server)
    ensures Matches(w.channel, Opened(w, lookback).volatile, w.server)
  {
    hide KeyOfCompleted, KeyOfPending;
    var r := Opened(w, lookback).volatile;
    assert r == w.volatile || (r.windows == w.volatile.windows && w.volatile.pending.None? && Snapshotless(r));
    hide Opened;
    forall n, k
      ensures KeyOfCompleted(w.channel, r, k) <==> KeyOfCompleted(w.channel, w.volatile, k)
      ensures KeyOfPending(w.channel, r, n, k) <==> KeyOfPending(w.channel, w.volatile, n, k)
    {
      SameCompleted(w.channel, w.volatile, r, k);
      NothingPending(w.channel, w.volatile, r, n, k);
    }
  }

  lemma SnapshotMatches(channel: Id, a: Record, b: Record, server: set<Key>)
    requires Matches(channel, a, server) && a.windows == b.windows
    requires a.pending.Some? && a.pending.value.Extract? && b.pending.Some? && b.pending.value.Store?
    requires b.pending.value.next == 0
    ensures Matches(channel, b, server)
  {
  }

  lemma ExtractKeepsMatched(w: World, s: Step)
    requires Matched(w) && s.ExtractMemories? && Enabled(w, s)
    ensures Matched(Next(w, s))
  {
    hide Matches, Within;
    SnapshotMatches(w.channel, w.volatile, Next(w, s).volatile, w.server);
  }

  lemma StoreMatches(channel: Id, r: Record, server: set<Key>)
    requires Matches(channel, r, server)
    requires r.pending.Some? && r.pending.value.Store? && r.pending.value.next < |r.pending.value.memories|
    ensures var p := r.pending.value; var s := server + {KeyOf(channel, p.start, p.end, p.memories, p.next)};
      Matches(channel, r, s) && Matches(channel, Advanced(r), s)
  {
  }

  lemma SameCompleted(channel: Id, a: Record, b: Record, k: Key)
    requires a.windows == b.windows
    ensures KeyOfCompleted(channel, a, k) <==> KeyOfCompleted(channel, b, k)
  {
  }

  lemma StoreKeepsMatched(w: World, result: StoreOutcome)
    requires Matched(w) && CanStore(w)
    ensures Matched(Stored(w, result))
  {
    hide Matches;
    StoreMatches(w.channel, w.volatile, w.server);
  }

  lemma CompletedKeys(channel: Id, r: Record, k: Key)
    requires r.pending.Some? && r.pending.value.Store?
    ensures KeyOfCompleted(channel, Completed(r), k) <==>
      KeyOfCompleted(channel, r, k) || KeyOfPending(channel, r, |r.pending.value.memories|, k)
  {
    var n := |r.windows|;
    assert Completed(r).windows[n] == Window(r.pending.value.start, r.pending.value.end, r.pending.value.memories);
    if KeyOfCompleted(channel, r, k) {
      var i :| 0 <= i < n && KeyOfWindow(channel, r.windows[i], k);
      assert Completed(r).windows[i] == r.windows[i];
    }
  }

  lemma CheckpointMatches(channel: Id, r: Record, server: set<Key>)
    requires Matches(channel, r, server)
    requires r.pending.Some? && r.pending.value.Store? && r.pending.value.next == |r.pending.value.memories|
    ensures Matches(channel, Completed(r), server)
  {
    hide KeyOfCompleted;
    forall k ensures Recorded(channel, Completed(r), k) <==> Recorded(channel, r, k)
             ensures Foreseen(channel, Completed(r), k) <==> Foreseen(channel, r, k) {
      CompletedKeys(channel, r, k);
    }
  }

  lemma CheckpointKeepsMatched(w: World)
    requires Valid(w) && CanCheckpoint(w)
    ensures Matched(Next(w, Checkpoint))
  {
    hide Matches;
    CheckpointMatches(w.channel, w.volatile, w.server);
  }

  /** Every step but a second visit within one run keeps the invariant. */
  lemma StepKeepsValid(w: World, s: Step)
    requires Valid(w) && !s.Revisit?
    ensures Valid(After(w, s))
  {
    StepKeepsWindowed(w, s);
    hide Matched, Windowed, Within, Opened, Stored, Completed;
    if Enabled(w, s) {
      match s
      case Open(lookback) => OpenKeepsMatched(w, lookback);
      case ExtractMemories(_, _) => ExtractKeepsMatched(w, s);
      case StoreNext(result) => StoreKeepsMatched(w, result);
      case Checkpoint => CheckpointKeepsMatched(w);
      case _ => CopyKeepsMatched(w, s);
    }
  }

  /** Every other step copies whole records, or changes none. */
  lemma CopyKeepsMatched(w: World, s: Step)
    requires Matched(w) && Enabled(w, s) && !s.Revisit?
    requires !s.Open? && !s.ExtractMemories? && !s.StoreNext? && !s.Checkpoint?
    ensures Matched(Next(w, s))
  {
    hide Matches;
  }

  // ---------------------------------------------------------------- whole histories

  /** The channel is visited once per run, as it is when the channel ids of the session map are
      distinct. */
  predicate VisitedOnce(steps: seq<Step>) {
    Revisit !in steps
  }

  lemma FreshIsValid(channel: Id, watermark: Option<Instant>)
    ensures Valid(Fresh(channel, watermark))
  {
  }

  lemma {:induction false} RunIsValid(channel: Id, watermark: Option<Instant>, steps: seq<Step>)
    requires VisitedOnce(steps)
    ensures Valid(Run(Fresh(channel, watermark), steps))
  {
    hide Valid, Next, Enabled;
    if |steps| == 0 {
      FreshIsValid(channel, watermark);
    } else {
      RunIsValid(channel, watermark, steps[..|steps| - 1]);
      StepKeepsValid(Run(Fresh(channel, watermark), steps[..|steps| - 1]), steps[|steps| - 1]);
    }
  }

  lemma {:induction false} RunKeepsChannel(w: World, steps: seq<Step>)
    ensures Run(w, steps).channel == w.channel
  {
    if |steps| > 0 { RunKeepsChannel(w, steps[..|steps| - 1]); }
  }

  /** Whatever point the sweeps crash at: while nothing is being stored, the channel's memories on
      the server are exactly the snapshots of its checkpointed windows; and during a store they are
      those, the recorded part of the durable snapshot, and at most its next memory. */
  lemma StoredExactlyTheSnapshots(channel: Id, watermark: Option<Instant>, steps: seq<Step>, k: Key)
    requires VisitedOnce(steps)
    ensures var w := Run(Fresh(channel, watermark), steps);
      && (Recorded(channel, w.durable, k) ==> k in w.server)
      && (k in w.server ==> Foreseen(channel, w.durable, k))
      && (Snapshotless(w.durable) ==> (k in w.server <==> KeyOfCompleted(channel, w.durable, k)))
  {
    RunIsValid(channel, watermark, steps);
    RunKeepsChannel(Fresh(channel, watermark), steps);
  }

  predicate Snapshotless(r: Record) {
    r.pending.None? || r.pending.value.Extract?
  }

  /** The model is asked for memories only before the first store of its window: what the server
      then holds belongs to completed windows. */
  lemma ExtractionPrecedesStores(channel: Id, watermark: Option<Instant>, steps: seq<Step>, k: Key)
    requires VisitedOnce(steps) && CanExtract(Run(Fresh(channel, watermark), steps))
    requires k in Run(Fresh(channel, watermark), steps).server
    ensures KeyOfCompleted(channel, Run(Fresh(channel, watermark), steps).durable, k)
  {
    RunIsValid(channel, watermark, steps);
    StoredExactlyTheSnapshots(channel, watermark, steps, k);
  }

  /** The start of the first window of a sweep at that time with a lookback of six. */
  function FirstStart(watermark: Option<Instant>): Instant {
    Coalesce(watermark, 4)
  }

  /** A first visit plans and extracts, but cannot save its snapshot; a second one stores. */
  function SecondVisit(watermark: Option<Instant>, m: Content): seq<Step> {
    var start := FirstStart(watermark);
    [Begin(start + 6), Open(6), Save(Saved), ExtractMemories([start, start + 1, start + 2], [m]), Save(NotSaved),
     Revisit, Open(6), StoreNext(TakenThenFailed)]
  }

  /** With a channel visited twice in a run, whatever its watermark, a memory can be stored before its
      snapshot is durable. */
  lemma SecondVisitStoresUnsaved(channel: Id, watermark: Option<Instant>, m: Content)
    ensures var w, start := Run(Fresh(channel, watermark), SecondVisit(watermark, m)), FirstStart(watermark);
      w.server == {Key(channel, start, start + 6, 0, m)} &&
        w.durable == Record(watermark, Some(Extract(start, start + 6)), [])
  {
    var start, s := FirstStart(watermark), SecondVisit(watermark, m);
    ThreeWithin(start, start + 6);
    RunOfEight(Fresh(channel, watermark), s);
    hide Within, Run;
    var r := Record(watermark, None, []);
    var planned := r.(pending := Some(Extract(start, start + 6)));
    var snapshot := r.(pending := Some(Store(start, start + 6, [m], 0)));
    var w2 := After(After(Fresh(channel, watermark), s[0]), s[1]);
    assert w2 == World(channel, r, planned, Saving, start + 6, {});
    var w4 := After(After(w2, s[2]), s[3]);
    assert w4 == World(channel, planned, snapshot, Saving, start + 6, {});
    assert After(After(After(w4, s[4]), s[5]), s[6]) == World(channel, planned, snapshot, Ready, start + 6, {});
  }

  lemma ThreeWithin(start: Instant, end: Instant)
    requires start + 2 < end
    ensures |Within([start, start + 1, start + 2], start, end)| == 3
  {
    var ts := [start, start + 1, start + 2];
    assert ts[1..] == [start + 1, start + 2] && ts[1..][1..] == [start + 2] && ts[1..][1..][1..] == [];
    assert Within(ts[1..][1..], start, end) == [start + 2];
    assert Within(ts[1..], start, end) == [start + 1, start + 2];
  }

  /** Every stored memory is one the durable record knows of, or the next of its snapshot. */
  ghost predicate StoredIsForeseen(w: World) {
    forall k :: k in w.server ==> Foreseen(w.channel, w.durable, k)
  }

  /** Nothing is stored before its snapshot is durable, for all channels, watermarks and histories,
      exactly when no run may visit a channel twice. */
  lemma StoredIsForeseenIff(mayRevisit: bool)
    ensures SafeAlways(mayRevisit) <==> !mayRevisit
  {
    if mayRevisit {
      var watermark: Option<Instant> := None;
      var steps := SecondVisit(watermark, 0);
      SecondVisitIsUnforeseen(0, watermark, 0);
      assert !VisitedOnce(steps) && !StoredIsForeseen(Run(Fresh(0, watermark), steps));
    } else {
      forall channel, watermark, steps | VisitedOnce(steps)
        ensures StoredIsForeseen(Run(Fresh(channel, watermark), steps))
      {
        RunIsValid(channel, watermark, steps);
      }
    }
  }

  ghost predicate SafeAlways(mayRevisit: bool) {
    forall channel, watermark, steps :: mayRevisit || VisitedOnce(steps) ==>
      StoredIsForeseen(Run(Fresh(channel, watermark), steps))
  }

  lemma SecondVisitIsUnforeseen(channel: Id, watermark: Option<Instant>, m: Content)
    ensures !StoredIsForeseen(Run(Fresh(channel, watermark), SecondVisit(watermark, m)))
  {
    hide Run, SecondVisit;
    SecondVisitStoresUnsaved(channel, watermark, m);
    RunKeepsChannel(Fresh(channel, watermark), SecondVisit(watermark, m));
    var start := FirstStart(watermark);
    UnforeseenBeforeSnapshot(Run(Fresh(channel, watermark), SecondVisit(watermark, m)),
      Key(channel, start, start + 6, 0, m));
  }

  lemma UnforeseenBeforeSnapshot(w: World, k: Key)
    requires k in w.server && w.durable.windows == [] && Snapshotless(w.durable)
    ensures !StoredIsForeseen(w)
  {
    assert !Foreseen(w.channel, w.durable, k);
  }

  lemma RunOfEight(w: World, s: seq<Step>)
    requires |s| == 8
    ensures Run(w, s) ==
      After(After(After(After(After(After(After(After(w, s[0]), s[1]), s[2]), s[3]), s[4]), s[5]), s[6]), s[7])
  {
    hide After;
    Unroll(w, s, 8); Unroll(w, s, 7); Unroll(w, s, 6); Unroll(w, s, 5);
    Unroll(w, s, 4); Unroll(w, s, 3); Unroll(w, s, 2); Unroll(w, s, 1);
    assert s[..8] == s;
  }

  lemma Unroll(w: World, steps: seq<Step>, n: nat)
    requires 0 < n <= |steps|
    ensures Run(w, steps[..n]) == After(Run(w, steps[..n - 1]), steps[n - 1])
  {
    assert steps[..n][..n - 1] == steps[..n - 1];
  }

  // ---------------------------------------------------------------- windows over time

  /** In every history, of one visit a run or of many, a checkpointed window is never changed or
      withdrawn. */
  lemma {:induction false} RunKeepsWindows(channel: Id, watermark: Option<Instant>, steps: seq<Step>, n: nat)
    requires n <= |steps|
    ensures Windowed(Run(Fresh(channel, watermark), steps))
    ensures Run(Fresh(channel, watermark), steps[..n]).durable.windows <=
      Run(Fresh(channel, watermark), steps).durable.windows
  {
    hide After;
    if n == |steps| {
      assert steps[..n] == steps;
      if n > 0 {
        RunKeepsWindows(channel, watermark, steps[..n - 1], n - 1);
        StepKeepsWindowed(Run(Fresh(channel, watermark), steps[..n - 1]), steps[n - 1]);
      }
    } else {
      var before := steps[..|steps| - 1];
      assert before[..n] == steps[..n];
      RunKeepsWindows(channel, watermark, before, n);
      StepKeepsWindowed(Run(Fresh(channel, watermark), before), steps[|steps| - 1]);
    }
  }

  predicate Covers(w: Window, at: Instant) {
    w.start <= at < w.end
  }

  /** Every instant from the first recorded start to last_successful_end lies in exactly one
      completed window, and no other instant in any: a message of that range is extracted for
      exactly one window. */
  lemma EachInstantOnce(r: Record, at: Instant)
    requires Tiled(r) && |r.windows| > 0
    ensures r.lastEnd.Some?
    ensures r.windows[0].start <= at < r.lastEnd.value <==> exists i :: 0 <= i < |r.windows| && Covers(r.windows[i], at)
    ensures forall i, j :: 0 <= i < j < |r.windows| ==> !(Covers(r.windows[i], at) && Covers(r.windows[j], at))
  {
    forall i, j | 0 <= i < j < |r.windows| ensures r.windows[i].end <= r.windows[j].start {
      WindowsAdvance(r, i, j);
    }
    forall i | 0 <= i < |r.windows| && Covers(r.windows[i], at) ensures r.windows[0].start <= at < r.lastEnd.value {
      if i > 0 { WindowsAdvance(r, 0, i); }
      if i < |r.windows| - 1 { WindowsAdvance(r, i, |r.windows| - 1); }
    }
    if r.windows[0].start <= at < r.lastEnd.value {
      var i := FindWindow(r, |r.windows|, at);
      assert Covers(r.windows[i], at);
    }
  }

  lemma {:induction false} WindowsAdvance(r: Record, i: nat, j: nat)
    requires Tiled(r) && i < j < |r.windows|
    ensures r.windows[i].start <= r.windows[i].end <= r.windows[j].start <= r.windows[j].end
    decreases j
  {
    assert r.windows[j - 1].end == r.windows[j].start;
    if i < j - 1 { WindowsAdvance(r, i, j - 1); }
  }

  lemma {:induction false} FindWindow(r: Record, n: nat, at: Instant) returns (i: nat)
    requires Tiled(r) && 0 < n <= |r.windows| && r.windows[0].start <= at < r.windows[n - 1].end
    ensures i < n && Covers(r.windows[i], at)
  {
    if r.windows[n - 1].start <= at {
      i := n - 1;
    } else {
      assert r.windows[n - 2].end == r.windows[n - 1].start;
      i := FindWindow(r, n - 1, at);
    }
  }

  /** What extraction keeps for a window are the messages it covers, each as often as it was logged. */
  lemma {:induction false} WithinCovers(timestamps: seq<Instant>, w: Window, at: Instant)
    ensures multiset(Within(timestamps, w.start, w.end))[at] == if Covers(w, at) then multiset(timestamps)[at] else 0
  {
    if |timestamps| > 0 {
      var rest := timestamps[1..];
      WithinCovers(rest, w, at);
      assert timestamps == [timestamps[0]] + rest;
    }
  }

  predicate ExtractedBy(r: Record, timestamps: seq<Instant>, i: int, at: Instant) {
    0 <= i < |r.windows| && at in Within(timestamps, r.windows[i].start, r.windows[i].end)
  }

  /** A message of a log is extracted for exactly one completed window if it lies between the first
      recorded start and the watermark, and for none otherwise. */
  lemma EachMessageOnce(r: Record, timestamps: seq<Instant>, at: Instant)
    requires Tiled(r) && |r.windows| > 0 && at in timestamps
    ensures r.lastEnd.Some?
    ensures r.windows[0].start <= at < r.lastEnd.value <==> exists i :: ExtractedBy(r, timestamps, i, at)
    ensures forall i, j :: ExtractedBy(r, timestamps, i, at) && ExtractedBy(r, timestamps, j, at) ==> i == j
  {
    hide Within, Tiled;
    EachInstantOnce(r, at);
    forall i ensures ExtractedBy(r, timestamps, i, at) <==> 0 <= i < |r.windows| && Covers(r.windows[i], at) {
      if 0 <= i < |r.windows| { WithinCovers(timestamps, r.windows[i], at); }
    }
  }

  /** An instant lies in a completed window exactly from the first recorded start to the watermark. */
  ghost predicate CoveredExactly(r: Record, at: Instant) {
    (exists i :: 0 <= i < |r.windows| && Covers(r.windows[i], at)) <==>
    |r.windows| > 0 && r.lastEnd.Some? && r.windows[0].start <= at < r.lastEnd.value
  }

  predicate CoveredOnce(r: Record, at: Instant) {
    forall i, j :: 0 <= i < j < |r.windows| ==> !(Covers(r.windows[i], at) && Covers(r.windows[j], at))
  }

  /** Whatever runs, visits and crashes come together, the completed windows leave no gap and do not
      overlap. */
  lemma WindowsTile(channel: Id, watermark: Option<Instant>, steps: seq<Step>, at: Instant)
    ensures var r := Run(Fresh(channel, watermark), steps).durable;
      Tiled(r) && CoveredExactly(r, at) && CoveredOnce(r, at)
  {
    RunKeepsWindows(channel, watermark, steps, |steps|);
    var r := Run(Fresh(channel, watermark), steps).durable;
    hide Tiled, Run;
    if |r.windows| > 0 { EachInstantOnce(r, at); }
  }

  /** The snapshots the record knows: those of the completed windows, and the pending one. */
  function Snapshots(r: Record): seq<Window> {
    if Snapshotless(r) then r.windows
    else r.windows + [Window(r.pending.value.start, r.pending.value.end, r.pending.value.memories)]
  }

  lemma SnapshotsAdvance(r: Record, i: nat, j: nat)
    requires Tiled(r) && i < j < |Snapshots(r)|
    ensures var ws := Snapshots(r); ws[i].start <= ws[i].end <= ws[j].start <= ws[j].end
  {
    if j < |r.windows| {
      WindowsAdvance(r, i, j);
    } else if i < j - 1 {
      WindowsAdvance(r, i, j - 1);
    }
  }

  /** A key names one memory of one snapshot, completed or pending, so no two memories share a key. */
  lemma KeyNamesOneMemory(channel: Id, r: Record, i: nat, j: nat, k: Key)
    requires Tiled(r) && i < |Snapshots(r)| && j < |Snapshots(r)|
    requires KeyOfWindow(channel, Snapshots(r)[i], k) && KeyOfWindow(channel, Snapshots(r)[j], k)
    ensures i == j && Snapshots(r)[i].memories[k.index] == k.memory
  {
    if i < j { SnapshotsAdvance(r, i, j); }
    if j < i { SnapshotsAdvance(r, j, i); }
  }

  /** Saved state is never found corrupt: a pending window is rejected exactly when it ends after
      the clock of the run. */
  lemma RejectedOnlyByClock(channel: Id, watermark: Option<Instant>, steps: seq<Step>)
    ensures var w := Run(Fresh(channel, watermark), steps);
      w.stage == Loaded && w.volatile.pending.Some? ==>
        (Rejected(w.volatile.pending.value, w.volatile.lastEnd, w.now) <==> w.volatile.pending.value.end > w.now)
  {
    RunKeepsWindows(channel, watermark, steps, |steps|);
    hide Run;
  }

  // ---------------------------------------------------------------- the visit as it is written

  lemma RunSnoc(w: World, steps: seq<Step>, s: Step)
    ensures Run(w, steps + [s]) == After(Run(w, steps), s)
  {
  }

  ghost predicate AllGoesWell(saves: nat -> SaveOutcome, stores: nat -> StoreOutcome) {
    (forall i :: saves(i) == Saved) && (forall i :: stores(i) == Acknowledged)
  }

  // ---------------------------------------------------------------- what a visit does, in the record

  /** How many of the timestamps lie in [start, end). */
  function Logged(timestamps: seq<Instant>, start: Instant, end: Instant): nat {
    |set i | 0 <= i < |timestamps| && start <= timestamps[i] < end|
  }

  /** Counted from the last message back. */
  lemma {:induction false} WithinCounts(timestamps: seq<Instant>, start: Instant, end: Instant)
    ensures |Within(timestamps, start, end)| == Logged(timestamps, start, end)
  {
    if |timestamps| > 0 {
      var init, last := timestamps[..|timestamps| - 1], timestamps[|timestamps| - 1];
      assert timestamps == init + [last];
      WithinSnoc(init, last, start, end);
      WithinCounts(init, start, end);
      var before := set i | 0 <= i < |init| && start <= init[i] < end;
      var all := set i | 0 <= i < |timestamps| && start <= timestamps[i] < end;
      assert all == if start <= last < end then before + {|init|} else before;
    }
  }

  lemma {:induction false} WithinSnoc(init: seq<Instant>, last: Instant, start: Instant, end: Instant)
    ensures Within(init + [last], start, end) == Within(init, start, end) + if start <= last < end then [last] else []
  {
    if |init| == 0 {
      assert init + [last] == [last] && [last][1..] == [];
    } else {
      assert (init + [last])[0] == init[0] && (init + [last])[1..] == init[1..] + [last];
      WithinSnoc(init[1..], last, start, end);
    }
  }

  /** Where the window at hand starts: at the pending one's start, the watermark, or the lookback. */
  function StartOf(r: Record, now: Instant, lookback: nat): Instant {
    match r.pending
    case Some(p) => p.start
    case None => (match r.lastEnd case Some(at) => at case None => now - lookback)
  }

  function EndOf(r: Record, now: Instant): Instant {
    match r.pending
    case Some(p) => p.end
    case None => now
  }

  /** A pending window may be resumed: it starts at the watermark and ends at the clock or before, and
      its position is within its snapshot. */
  predicate Resumable(p: Pending, watermark: Option<Instant>, now: Instant) {
    && p.start <= p.end <= now && (watermark == None || watermark == Some(p.start))
    && (p.Store? ==> p.next <= |p.memories|)
  }

  /** What is stored for it: the pending snapshot, nothing for fewer than three messages, or what the
      model answered. */
  function MemoriesOf(
      r: Record, now: Instant, lookback: nat, timestamps: seq<Instant>, answer: Option<seq<Content>>): seq<Content>
  {
    if r.pending.Some? && r.pending.value.Store? then r.pending.value.memories
    else if Logged(timestamps, StartOf(r, now, lookback), EndOf(r, now)) < 3 then []
    else if answer.Some? then answer.value else []
  }

  /** The keys of the memories from one position up to another. */
  function KeysBetween(
      channel: Id, start: Instant, end: Instant, memories: seq<Content>, from: nat, to: nat): set<Key>
    requires to <= |memories|
  {
    set i: nat | from <= i < to :: Key(channel, start, end, i, memories[i])
  }

  lemma OneMoreKey(channel: Id, start: Instant, end: Instant, memories: seq<Content>, from: nat, to: nat)
    requires from <= to < |memories|
    ensures KeysBetween(channel, start, end, memories, from, to + 1) ==
      KeysBetween(channel, start, end, memories, from, to) + {Key(channel, start, end, to, memories[to])}
  {
  }

  /** A run's hold on one channel: its entry of the state dict, the file, and the server. */
  class ChannelSweep {
    const channel: Id
    const now: Instant
    var durable: Record
    var volatile: Record
    var server: set<Key>
    ghost var stage: Stage
    /** What was done so far in the visit. */
    ghost var steps: seq<Step>
    ghost const before: World

    ghost function View(): World
      reads this
    {
      World(channel, durable, volatile, stage, now, server)
    }

    ghost predicate Follows()
      reads this
    {
      View() == Run(before, steps) && VisitedOnce(steps)
    }

    /** The state is loaded. */
    constructor (w: World)
      requires w.stage == Loaded
      ensures View() == w == before && steps == [] && Follows()
    {
      channel, now, durable, volatile, server := w.channel, w.now, w.durable, w.volatile, w.server;
      stage, steps, before := w.stage, [], w;
    }

    method SaveState(outcome: SaveOutcome) returns (ok: bool)
      requires Follows() && stage == Saving
      modifies this
      ensures Follows() && volatile == old(volatile) && server == old(server)
      ensures ok <==> outcome == Saved
      ensures durable == if outcome == NotSaved then old(durable) else volatile
      ensures stage == if ok && volatile.pending.Some? then Ready else Visited
    {
      RunSnoc(before, steps, Save(outcome));
      steps := steps + [Save(outcome)];
      if outcome != NotSaved { durable := volatile; }
      ok := outcome == Saved;
      stage := if ok && volatile.pending.Some? then Ready else Visited;
    }

    /** The clock of the run is past the watermark and the pending window. */
    predicate InTime()
      reads this
    {
      && (volatile.lastEnd.Some? ==> volatile.lastEnd.value <= now)
      && (volatile.pending.Some? ==> !Rejected(volatile.pending.value, volatile.lastEnd, now))
    }

    /** The end of the window this visit works on. */
    function WindowEnd(): Instant
      reads this
    {
      if volatile.pending.Some? then volatile.pending.value.end else now
    }

    /** Settle the window: resume the pending one or plan the next. */
    method OpenWindow(lookback: nat, outcome: SaveOutcome) returns (ok: bool)
      requires Follows() && stage == Loaded
      modifies this
      ensures Follows() && (if ok then stage == Ready && volatile.pending.Some? else stage == Visited)
      ensures ok <==> old(InTime()) && (old(volatile.pending).Some? || outcome == Saved)
      ensures old(InTime()) <==>
        && (old(volatile.lastEnd) == None || old(volatile.lastEnd).value <= now)
        && (old(volatile.pending) == None || Resumable(old(volatile.pending).value, old(volatile.lastEnd), now))
      ensures volatile.windows == old(volatile.windows) && volatile.lastEnd == old(volatile.lastEnd)
      ensures server == old(server)
      ensures ok ==> volatile.pending.value.end == old(WindowEnd())
      ensures ok && volatile.pending.value.Store? ==> volatile.pending.value.next <= |volatile.pending.value.memories|
      ensures ok && old(volatile.pending).Some? ==> volatile.pending == old(volatile.pending)
      ensures ok && old(volatile.pending).None? ==>
        volatile.pending == Some(Extract(StartOf(old(volatile), now, lookback), EndOf(old(volatile), now)))
    {
      RunSnoc(before, steps, Open(lookback));
      steps := steps + [Open(lookback)];
      if volatile.lastEnd.Some? && volatile.lastEnd.value > now {
        stage := Visited;
        return false;
      }
      if volatile.pending.Some? {
        ok := !Rejected(volatile.pending.value, volatile.lastEnd, now);
        stage := if ok then Ready else Visited;
      } else {
        volatile := volatile.(pending := Some(Extract(Coalesce(volatile.lastEnd, now - lookback), now)));
        stage := Saving;
        ok := SaveState(outcome);
      }
    }

    /** Fewer than three messages are not worth a model call; None is a failed one. */
    method Snapshot(timestamps: seq<Instant>, answer: Option<seq<Content>>, outcome: SaveOutcome) returns (ok: bool)
      requires Follows() && stage == Ready && volatile.pending.Some? && volatile.pending.value.Extract?
      modifies this
      ensures Follows()
      ensures if ok then stage == Ready && volatile.pending.Some? && volatile.pending.value.Store? else stage == Visited
      ensures outcome == Saved && answer.Some? ==> ok
      ensures volatile.windows == old(volatile.windows) && volatile.lastEnd == old(volatile.lastEnd)
      ensures server == old(server)
      ensures var p := old(volatile.pending.value); var few := Logged(timestamps, p.start, p.end) < 3;
        && (ok <==> (few || answer.Some?) && outcome == Saved)
        && (ok ==> volatile.pending == Some(Store(p.start, p.end, if few then [] else answer.value, 0)))
    {
      hide Within, Run, Logged;
      var p := volatile.pending.value;
      WithinCounts(timestamps, p.start, p.end);
      var few := |Within(timestamps, p.start, p.end)| < 3;
      if !few && answer.None? {
        RunSnoc(before, steps, ExtractionFails);
        steps, stage := steps + [ExtractionFails], Visited;
        return false;
      }
      var memories := if few then [] else answer.value;
      RunSnoc(before, steps, ExtractMemories(timestamps, memories));
      steps := steps + [ExtractMemories(timestamps, memories)];
      volatile := volatile.(pending := Some(Store(p.start, p.end, memories, 0)));
      stage := Saving;
      ok := SaveState(outcome);
    }

    /** store_memory under the deterministic key, then record the position. */
    method StoreMemory(result: StoreOutcome, outcome: SaveOutcome) returns (ok: bool)
      requires Follows() && CanStore(View())
      modifies this
      ensures Follows() && volatile.pending.Some? && volatile.pending.value.Store?
      ensures ok ==> stage == Ready && volatile == Advanced(old(volatile))
      ensures var p := old(volatile.pending.value);
        && (result == NotTaken ==> server == old(server))
        && (result != NotTaken ==>
              server == old(server) + {Key(channel, p.start, p.end, p.next, p.memories[p.next])})
        && (ok ==> volatile == old(volatile).(pending := Some(Store(p.start, p.end, p.memories, p.next + 1))))
      ensures ok <==> result == Acknowledged && outcome == Saved
      ensures !ok ==> stage == Visited
    {
      var p := volatile.pending.value;
      RunSnoc(before, steps, StoreNext(result));
      steps := steps + [StoreNext(result)];
      if result != NotTaken { server := server + {KeyOf(channel, p.start, p.end, p.memories, p.next)}; }
      if result != Acknowledged {
        stage := Visited;
        return false;
      }
      volatile := Advanced(volatile);
      stage := Saving;
      ok := SaveState(outcome);
    }

    /** Everything is stored: the window becomes the watermark. */
    method CloseWindow(outcome: SaveOutcome) returns (ok: bool)
      requires Follows() && CanCheckpoint(View())
      modifies this
      ensures Follows() && stage == Visited && volatile == Completed(old(volatile)) && server == old(server)
      ensures var p := old(volatile.pending.value);
        volatile == Record(Some(p.end), None, old(volatile.windows) + [Window(p.start, p.end, p.memories)])
      ensures ok <==> outcome == Saved
      ensures ok ==> durable == volatile
    {
      RunSnoc(before, steps, Checkpoint);
      steps := steps + [Checkpoint];
      volatile := Completed(volatile);
      stage := Saving;
      ok := SaveState(outcome);
    }

    /** The snapshot's memories, from its position on, and then the watermark. */
    method StoreSnapshot(saves: nat -> SaveOutcome, stores: nat -> StoreOutcome) returns (ok: bool)
      requires Follows() && stage == Ready && volatile.pending.Some? && volatile.pending.value.Store?
      requires volatile.pending.value.next <= |volatile.pending.value.memories|
      modifies this
      ensures Follows() && stage == Visited
      ensures ok ==>
        var r, p := old(volatile), old(volatile.pending.value);
        && durable == volatile == Record(Some(p.end), None, r.windows + [Window(p.start, p.end, p.memories)])
        && server == old(server) + KeysBetween(channel, p.start, p.end, p.memories, p.next, |p.memories|)
      ensures AllGoesWell(saves, stores) ==> ok
    {
      hide Run, Next, Enabled, Stored, AfterSave;
      var index := volatile.pending.value.next;
      ghost var p := volatile.pending.value;
      while index < |volatile.pending.value.memories|
        invariant Follows() && stage == Ready && p.next <= index <= |p.memories|
        invariant volatile == old(volatile).(pending := Some(p.(next := index)))
        invariant server == old(server) + KeysBetween(channel, p.start, p.end, p.memories, p.next, index)
        decreases |volatile.pending.value.memories| - index
      {
        ok := StoreMemory(stores(index), saves(index + 2));
        if !ok { return; }
        OneMoreKey(channel, p.start, p.end, p.memories, p.next, index);
        index := index + 1;
      }
      ok := CloseWindow(saves(index + 2));
    }

    /** One channel of _run_real.  Whatever fails where, what was done is a succession of steps of the
        protocol.  A visit that succeeds checkpoints one more window, up to the end it set out for;
        and it succeeds if the clock, the saves, the stores and the model all do. */
    method Visit(lookback: nat, timestamps: seq<Instant>, answer: Option<seq<Content>>,
                 saves: nat -> SaveOutcome, stores: nat -> StoreOutcome) returns (ok: bool)
      requires Follows() && stage == Loaded
      modifies this
      ensures Follows() && stage == Visited
      ensures ok ==> durable == volatile && durable.pending.None?
      ensures ok ==> |durable.windows| == |old(volatile.windows)| + 1 && durable.lastEnd == Some(old(WindowEnd()))
      ensures ok ==>
        var r := old(volatile);
        var start, end := StartOf(r, now, lookback), EndOf(r, now);
        var memories := MemoriesOf(r, now, lookback, timestamps, answer);
        && durable == Record(Some(end), None, r.windows + [Window(start, end, memories)])
        && server == old(server) + KeysBetween(channel, start, end, memories, Position(r), |memories|)
        && (!Snapshotless(r) || Logged(timestamps, start, end) < 3 || answer.Some?)
      ensures old(InTime()) && answer.Some? && AllGoesWell(saves, stores) ==> ok
    {
      hide Run, Opened, AfterSave, Stored, Within, Rejected, Logged;
      ok := OpenWindow(lookback, saves(0));
      if !ok { return; }
      if volatile.pending.value.Extract? {
        ok := Snapshot(timestamps, answer, saves(1));
        if !ok { return; }
      }
      ok := StoreSnapshot(saves, stores);
    }
  }

  // ---------------------------------------------------------------- the legacy state file

  /** A version 1 file holds one watermark; version 2 one record per channel. */
  datatype StateFile = Missing | Legacy(lastSweep: Instant) | Version2(channels: map<Id, Record>)

  /** load_state and the materialisation of the legacy watermark for the channels of this run. */
  function Migrated(file: StateFile, selected: set<Id>): StateFile {
    if file.Legacy? && selected != {}
    then Version2(map c | c in selected :: Record(Some(file.lastSweep), None, []))
    else file
  }

  function WatermarkOf(file: StateFile, channel: Id): Option<Instant> {
    match file
    case Missing => None
    case Legacy(at) => Some(at)
    case Version2(channels) => if channel in channels then channels[channel].lastEnd else None
  }

  /** The first real sweep over a version 1 file keeps a channel's watermark exactly if it selects
      the channel, or selects none. */
  lemma MigrationKeepsWatermarkIff(at: Instant, selected: set<Id>, channel: Id)
    ensures WatermarkOf(Migrated(Legacy(at), selected), channel) == WatermarkOf(Legacy(at), channel)
      <==> channel in selected || selected == {}
  {
  }
}
