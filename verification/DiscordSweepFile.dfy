/** All channels of scripts/discord-sweep.py at once.  A run visits the display names it selected, in
    name order; each leads to the state of a channel, and every save writes the state of all of them.
    Each channel, watched alone, follows the protocol of DiscordSweep. */
module DiscordSweepFile {
  import opened Prelude
  import opened DiscordSweep

  /** A display name, by its rank in the order they are visited. */
  type Name = nat

  /** The state file, the state dict of the running sweep, where it stands with each channel, its
      clock, the names it has yet to visit, and what the server holds for each channel. */
  datatype Sweep = Sweep(
    file: map<Id, Record>, dict: map<Id, Record>, stages: map<Id, Stage>, now: Instant, left: set<Name>,
    server: map<Id, set<Key>>)

  datatype Move = BeginSweep(now: Instant, selected: set<Name>) | EndSweep | At(name: Name, step: Step)

  /** The session map, and the channels it leads to. */
  datatype Sessions = Sessions(channelOf: map<Name, Id>, channels: set<Id>)

  predicate IsSessions(ss: Sessions) {
    forall n :: n in ss.channelOf ==> ss.channelOf[n] in ss.channels
  }

  /** No two display names lead to one channel: what a caller can check before a run. */
  predicate Distinct(ss: Sessions) {
    forall m, n :: m in ss.channelOf && n in ss.channelOf && ss.channelOf[m] == ss.channelOf[n] ==> m == n
  }

  predicate Covering(s: Sweep, channels: set<Id>) {
    s.file.Keys == channels && s.dict.Keys == channels && s.stages.Keys == channels && s.server.Keys == channels
  }

  function ViewOf(s: Sweep, c: Id): World
    requires c in s.file && c in s.dict && c in s.stages && c in s.server
  {
    World(c, s.file[c], s.dict[c], s.stages[c], s.now, s.server[c])
  }

  /** Before the first sweep, with the watermarks of a migrated legacy file. */
  function FreshSweep(channels: set<Id>, watermarks: map<Id, Instant>): (s: Sweep)
    ensures Covering(s, channels)
  {
    var records := map c | c in channels :: Record(WatermarkOf(watermarks, c), None, []);
    Sweep(records, records, map c | c in channels :: Stopped, 0, {}, map c | c in channels :: {})
  }

  function WatermarkOf(watermarks: map<Id, Instant>, c: Id): Option<Instant> {
    if c in watermarks then Some(watermarks[c]) else None
  }

  predicate Busy(stage: Stage) {
    stage == Ready || stage == Saving
  }

  /** The statements of a visit after it is opened. */
  predicate OfVisit(step: Step) {
    step.Save? || step.ExtractMemories? || step.ExtractionFails? || step.StoreNext? || step.Checkpoint?
  }

  predicate NextName(s: Sweep, channels: set<Id>, name: Name) {
    && name in s.left && (forall other :: other in s.left ==> name <= other)
    && (forall c :: c in channels && c in s.stages ==> !Busy(s.stages[c]))
  }

  /** A channel is opened for the next name, when no visit is under way; a second name of the channel
      opens it again. */
  predicate Possible(s: Sweep, ss: Sessions, m: Move)
    requires Covering(s, ss.channels) && IsSessions(ss)
  {
    match m
    case BeginSweep(_, selected) =>
      selected <= ss.channelOf.Keys && forall c :: c in ss.channels ==> s.stages[c] == Stopped
    case EndSweep => forall c :: c in ss.channels ==> s.stages[c] != Stopped
    case At(name, step) =>
      name in ss.channelOf &&
      var w := ViewOf(s, ss.channelOf[name]);
      if step.Open? then NextName(s, ss.channels, name) && (w.stage == Loaded || w.stage == Visited)
      else OfVisit(step) && Enabled(w, step)
  }

  /** A save replaces the whole file; any other statement touches its own channel's entries. */
  function Moved(s: Sweep, ss: Sessions, m: Move): Sweep
    requires Covering(s, ss.channels) && IsSessions(ss) && Possible(s, ss, m)
  {
    match m
    case BeginSweep(now, selected) =>
      s.(dict := s.file, now := now, left := selected, stages := map c | c in ss.channels :: Loaded)
    case EndSweep => s.(stages := map c | c in ss.channels :: Stopped, left := {})
    case At(name, step) =>
      var c := ss.channelOf[name];
      var w := Run(ViewOf(s, c), OwnShare(s.stages[c], step));
      if step.Save? then
        s.(file := if step.outcome == NotSaved then s.file else s.dict, stages := s.stages[c := w.stage])
      else
        s.(dict := s.dict[c := w.volatile], stages := s.stages[c := w.stage], server := s.server[c := w.server],
           left := if step.Open? then s.left - {name} else s.left)
  }

  /** Opening a channel that was visited before in the run is a second visit. */
  function OwnShare(stage: Stage, step: Step): seq<Step> {
    if step.Open? && stage == Visited then [Revisit, step] else [step]
  }

  function AfterMove(s: Sweep, ss: Sessions, m: Move): (r: Sweep)
    requires Covering(s, ss.channels) && IsSessions(ss)
    ensures Covering(r, ss.channels)
  {
    if Possible(s, ss, m) then Moved(s, ss, m) else s
  }

  function Sweeps(ss: Sessions, watermarks: map<Id, Instant>, moves: seq<Move>): (s: Sweep)
    requires IsSessions(ss)
    ensures Covering(s, ss.channels)
  {
    if |moves| == 0 then FreshSweep(ss.channels, watermarks)
    else AfterMove(Sweeps(ss, watermarks, moves[..|moves| - 1]), ss, moves[|moves| - 1])
  }

  /** A save that takes effect writes the state of every channel; any other move leaves the file. */
  lemma SaveWritesEveryChannel(s: Sweep, ss: Sessions, m: Move, c: Id)
    requires Covering(s, ss.channels) && IsSessions(ss) && Possible(s, ss, m) && c in ss.channels
    ensures AfterMove(s, ss, m).file[c] ==
      if m.At? && m.step.Save? && m.step.outcome != NotSaved then s.dict[c] else s.file[c]
  {
    hide Run, Enabled;
  }

  // ---------------------------------------------------------------- one channel's share

  /** What a move is for one channel: its own statement, another channel's save, or nothing. */
  function Share(s: Sweep, ss: Sessions, m: Move, c: Id): seq<Step>
    requires Covering(s, ss.channels) && IsSessions(ss)
  {
    if !Possible(s, ss, m) then []
    else match m
      case BeginSweep(now, _) => [Begin(now)]
      case EndSweep => if c in ss.channels then [Stop] else []
      case At(name, step) =>
        if ss.channelOf[name] == c then OwnShare(s.stages[c], step)
        else if step.Save? && step.outcome != NotSaved then [OthersSave] else []
  }

  function Shares(ss: Sessions, watermarks: map<Id, Instant>, moves: seq<Move>, c: Id): seq<Step>
    requires IsSessions(ss)
  {
    if |moves| == 0 then []
    else
      var before := moves[..|moves| - 1];
      Shares(ss, watermarks, before, c) + Share(Sweeps(ss, watermarks, before), ss, moves[|moves| - 1], c)
  }

  /** All channels are stopped or none, and at most one is being visited. */
  ghost predicate OneAtATime(s: Sweep, channels: set<Id>)
    requires Covering(s, channels)
  {
    && (forall c, d :: c in channels && d in channels ==> (s.stages[c] == Stopped <==> s.stages[d] == Stopped))
    && (forall c, d :: c in channels && d in channels && Busy(s.stages[c]) && Busy(s.stages[d]) ==> c == d)
  }

  /** What a statement of a visit leaves alone. */
  lemma VisitEffects(w: World, step: Step)
    requires if step.Open? then w.stage == Loaded || w.stage == Visited else OfVisit(step) && Enabled(w, step)
    ensures var n := Run(w, OwnShare(w.stage, step));
      && w.stage != Stopped && n.stage != Stopped && n.stage != Loaded
      && (Busy(n.stage) ==> Busy(w.stage) || step.Open?) && (!step.Open? ==> Busy(w.stage))
      && n.channel == w.channel && n.now == w.now
      && (step.Save? ==> w.stage == Saving && n.volatile == w.volatile && n.server == w.server)
      && (step.Save? ==> n.durable == if step.outcome == NotSaved then w.durable else w.volatile)
      && (!step.Save? ==> n.durable == w.durable)
  {
    RunOfShare(w, OwnShare(w.stage, step));
  }

  lemma RunOfOne(w: World, x: Step)
    ensures Run(w, [x]) == After(w, x)
  {
    hide After;
    RunSnoc(w, [], x);
    assert [] + [x] == [x];
  }

  lemma RunOfTwo(w: World, x: Step, y: Step)
    ensures Run(w, [x, y]) == After(After(w, x), y)
  {
    hide After;
    RunOfOne(w, x);
    RunSnoc(w, [x], y);
    assert [x] + [y] == [x, y];
  }

  lemma RunOfShare(w: World, share: seq<Step>)
    requires |share| <= 2
    ensures |share| == 0 ==> Run(w, share) == w
    ensures |share| == 1 ==> Run(w, share) == After(w, share[0])
    ensures |share| == 2 ==> Run(w, share) == After(After(w, share[0]), share[1])
  {
    if |share| == 1 {
      assert share == [share[0]];
      RunOfOne(w, share[0]);
    } else if |share| == 2 {
      assert share == [share[0], share[1]];
      RunOfTwo(w, share[0], share[1]);
    }
    hide After;
  }

  lemma MoveKeepsOneAtATime(s: Sweep, ss: Sessions, m: Move)
    requires Covering(s, ss.channels) && IsSessions(ss) && OneAtATime(s, ss.channels)
    ensures OneAtATime(AfterMove(s, ss, m), ss.channels)
  {
    hide Run, Enabled, OfVisit, OneAtATime;
    if Possible(s, ss, m) {
      if m.At? {
        var c := ss.channelOf[m.name];
        VisitEffects(ViewOf(s, c), m.step);
        StageKeepsOneAtATime(s, Moved(s, ss, m), ss.channels, c);
      } else {
        SameStageIsOneAtATime(Moved(s, ss, m), ss.channels, if m.EndSweep? then Stopped else Loaded);
      }
    }
  }

  lemma SameStageIsOneAtATime(r: Sweep, channels: set<Id>, stage: Stage)
    requires Covering(r, channels) && !Busy(stage) && forall c :: c in channels ==> r.stages[c] == stage
    ensures OneAtATime(r, channels)
  {
  }

  lemma StageKeepsOneAtATime(s: Sweep, r: Sweep, channels: set<Id>, c: Id)
    requires Covering(s, channels) && Covering(r, channels) && OneAtATime(s, channels)
    requires c in channels && r.stages == s.stages[c := r.stages[c]]
    requires s.stages[c] != Stopped && r.stages[c] != Stopped
    requires Busy(r.stages[c]) ==> Busy(s.stages[c]) || forall d :: d in channels ==> !Busy(s.stages[d])
    ensures OneAtATime(r, channels)
  {
  }

  /** A move changes a channel exactly as its share does. */
  lemma MoveIsShare(s: Sweep, ss: Sessions, m: Move, c: Id)
    requires Covering(s, ss.channels) && IsSessions(ss) && OneAtATime(s, ss.channels) && c in ss.channels
    ensures ViewOf(AfterMove(s, ss, m), c) == Run(ViewOf(s, c), Share(s, ss, m, c))
  {
    if m.At? && Possible(s, ss, m) {
      if ss.channelOf[m.name] == c { OwnStatement(s, ss, m); } else { OthersStatement(s, ss, m, c); }
    } else {
      RunOfShare(ViewOf(s, c), Share(s, ss, m, c));
      hide Run;
    }
  }

  lemma OwnStatement(s: Sweep, ss: Sessions, m: Move)
    requires Covering(s, ss.channels) && IsSessions(ss) && m.At? && Possible(s, ss, m)
    ensures var c := ss.channelOf[m.name];
      ViewOf(Moved(s, ss, m), c) == Run(ViewOf(s, c), OwnShare(s.stages[c], m.step))
  {
    hide Run, Enabled;
    VisitEffects(ViewOf(s, ss.channelOf[m.name]), m.step);
  }

  lemma OthersStatement(s: Sweep, ss: Sessions, m: Move, c: Id)
    requires Covering(s, ss.channels) && IsSessions(ss) && OneAtATime(s, ss.channels)
    requires m.At? && Possible(s, ss, m) && c in ss.channels && c != ss.channelOf[m.name]
    ensures ViewOf(Moved(s, ss, m), c) == Run(ViewOf(s, c), Share(s, ss, m, c))
  {
    RunOfShare(ViewOf(s, c), Share(s, ss, m, c));
    hide Run;
    var d := ss.channelOf[m.name];
    VisitEffects(ViewOf(s, d), m.step);
    if m.step.Save? { assert Busy(s.stages[d]) && !Busy(s.stages[c]) && s.stages[c] != Stopped; }
  }

  lemma {:induction false} RunConcat(w: World, a: seq<Step>, b: seq<Step>)
    ensures Run(w, a + b) == Run(Run(w, a), b)
  {
    if |b| == 0 {
      assert a + b == a;
    } else {
      assert (a + b)[..|a + b| - 1] == a + b[..|b| - 1];
      RunConcat(w, a, b[..|b| - 1]);
    }
  }

  /** The channels of the names left to visit have not been visited. */
  ghost predicate LeftUnvisited(s: Sweep, ss: Sessions)
    requires Covering(s, ss.channels) && IsSessions(ss)
  {
    forall n :: n in s.left ==> n in ss.channelOf && s.stages[ss.channelOf[n]] == Loaded
  }

  lemma MoveVisitsOnce(s: Sweep, ss: Sessions, m: Move, c: Id)
    requires Covering(s, ss.channels) && IsSessions(ss) && Distinct(ss) && LeftUnvisited(s, ss) && c in ss.channels
    ensures VisitedOnce(Share(s, ss, m, c)) && LeftUnvisited(AfterMove(s, ss, m), ss)
  {
    hide Run, Enabled;
    if m.At? && Possible(s, ss, m) { VisitEffects(ViewOf(s, ss.channelOf[m.name]), m.step); }
  }

  /** Watched alone, a channel goes through a run of the single-channel protocol; and if the session map
      is distinct, it is visited once per sweep. */
  lemma {:induction false} ChannelFollowsProtocol(ss: Sessions, watermarks: map<Id, Instant>, moves: seq<Move>, c: Id)
    requires IsSessions(ss) && c in ss.channels
    ensures OneAtATime(Sweeps(ss, watermarks, moves), ss.channels)
    ensures ViewOf(Sweeps(ss, watermarks, moves), c) ==
      Run(Fresh(c, WatermarkOf(watermarks, c)), Shares(ss, watermarks, moves, c))
    ensures Distinct(ss) ==>
      LeftUnvisited(Sweeps(ss, watermarks, moves), ss) && VisitedOnce(Shares(ss, watermarks, moves, c))
  {
    if |moves| > 0 {
      var before, m := moves[..|moves| - 1], moves[|moves| - 1];
      ChannelFollowsProtocol(ss, watermarks, before, c);
      var s := Sweeps(ss, watermarks, before);
      hide Run, Share, AfterMove, OneAtATime, ViewOf, LeftUnvisited, Distinct;
      MoveKeepsOneAtATime(s, ss, m);
      MoveIsShare(s, ss, m, c);
      RunConcat(Fresh(c, WatermarkOf(watermarks, c)), Shares(ss, watermarks, before, c), Share(s, ss, m, c));
      if Distinct(ss) { MoveVisitsOnce(s, ss, m, c); }
    }
  }

  // ---------------------------------------------------------------- what every channel keeps

  /** So, over a distinct session map, wherever sweeps crash the server holds for each channel what its
      durable record says, and at most its next memory. */
  lemma EveryChannelStoresItsSnapshots(ss: Sessions, watermarks: map<Id, Instant>, moves: seq<Move>, c: Id, k: Key)
    requires IsSessions(ss) && Distinct(ss) && c in ss.channels
    ensures var s := Sweeps(ss, watermarks, moves);
      && (Recorded(c, s.file[c], k) ==> k in s.server[c])
      && (k in s.server[c] ==> Foreseen(c, s.file[c], k))
      && (Snapshotless(s.file[c]) ==> (k in s.server[c] <==> KeyOfCompleted(c, s.file[c], k)))
  {
    ChannelFollowsProtocol(ss, watermarks, moves, c);
    StoredExactlyTheSnapshots(c, WatermarkOf(watermarks, c), Shares(ss, watermarks, moves, c), k);
  }

  /** Over any session map, the completed windows of every channel tile the time from its first
      recorded start, without a gap or an overlap. */
  lemma EveryChannelTiles(ss: Sessions, watermarks: map<Id, Instant>, moves: seq<Move>, c: Id, at: Instant)
    requires IsSessions(ss) && c in ss.channels
    ensures var r := Sweeps(ss, watermarks, moves).file[c]; Tiled(r) && CoveredExactly(r, at) && CoveredOnce(r, at)
  {
    ChannelFollowsProtocol(ss, watermarks, moves, c);
    WindowsTile(c, WatermarkOf(watermarks, c), Shares(ss, watermarks, moves, c), at);
  }

  // ---------------------------------------------------------------- a channel under two names

  ghost predicate StoredIsFiled(s: Sweep, channels: set<Id>)
    requires Covering(s, channels)
  {
    forall c :: c in channels ==> StoredIsForeseen(ViewOf(s, c))
  }

  /** Channel `c` is in that state, the others are loaded, and those names are left. */
  ghost predicate On(s: Sweep, ss: Sessions, c: Id, w: World, left: set<Name>)
    requires Covering(s, ss.channels)
  {
    && c in ss.channels && ViewOf(s, c) == w && s.left == left
    && forall d :: d in ss.channels && d != c ==> s.stages[d] == Loaded
  }

  lemma OnBegin(ss: Sessions, watermarks: map<Id, Instant>, c: Id, now: Instant, selected: set<Name>)
    requires IsSessions(ss) && c in ss.channels && selected <= ss.channelOf.Keys
    ensures var r := Record(WatermarkOf(watermarks, c), None, []);
      On(AfterMove(FreshSweep(ss.channels, watermarks), ss, BeginSweep(now, selected)), ss, c,
        World(c, r, r, Loaded, now, {}), selected)
  {
  }

  lemma OnOpen(s: Sweep, ss: Sessions, c: Id, w: World, left: set<Name>, name: Name, lookback: nat)
    requires Covering(s, ss.channels) && IsSessions(ss) && On(s, ss, c, w, left)
    requires name in ss.channelOf && ss.channelOf[name] == c && name in left
    requires forall other :: other in left ==> name <= other
    requires w.stage == Loaded || w.stage == Visited
    ensures On(AfterMove(s, ss, At(name, Open(lookback))), ss, c, Opened(w.(stage := Loaded), lookback), left - {name})
  {
    hide Run, Opened, Enabled, OfVisit;
    VisitEffects(w, Open(lookback));
    OpenShare(w, lookback);
  }

  lemma OpenShare(w: World, lookback: nat)
    requires w.stage == Loaded || w.stage == Visited
    ensures Run(w, OwnShare(w.stage, Open(lookback))) == Opened(w.(stage := Loaded), lookback)
  {
    RunOfShare(w, OwnShare(w.stage, Open(lookback)));
    hide Run, Opened;
  }

  lemma OnStep(s: Sweep, ss: Sessions, c: Id, w: World, left: set<Name>, name: Name, step: Step)
    requires Covering(s, ss.channels) && IsSessions(ss) && On(s, ss, c, w, left)
    requires name in ss.channelOf && ss.channelOf[name] == c && OfVisit(step) && Enabled(w, step)
    ensures On(AfterMove(s, ss, At(name, step)), ss, c, Next(w, step), left)
  {
    VisitEffects(w, step);
    RunOfShare(w, OwnShare(w.stage, step));
    hide Run, Next, Enabled, OfVisit;
  }

  /** A run of just two names of one channel: at the first the save of the snapshot fails, at the second
      its memory is stored. */
  function TwoNames(first: Name, second: Name, watermark: Option<Instant>, m: Content): seq<Move> {
    var start := FirstStart(watermark);
    [BeginSweep(start + 6, {first, second}), At(first, Open(6)), At(first, Save(Saved)),
     At(first, ExtractMemories([start, start + 1, start + 2], [m])), At(first, Save(NotSaved)),
     At(second, Open(6)), At(second, StoreNext(TakenThenFailed))]
  }

  /** What that run makes of the channel. */
  function UnsavedWorld(c: Id, watermark: Option<Instant>, m: Content): World {
    var start := FirstStart(watermark);
    var planned := Record(watermark, Some(Extract(start, start + 6)), []);
    var snapshot := planned.(pending := Some(Store(start, start + 6, [m], 0)));
    World(c, planned, snapshot, Visited, start + 6, {Key(c, start, start + 6, 0, m)})
  }

  lemma AfterTwoNames(ss: Sessions, watermarks: map<Id, Instant>, first: Name, second: Name, m: Content)
    requires IsSessions(ss) && first < second && first in ss.channelOf && second in ss.channelOf
    requires ss.channelOf[first] == ss.channelOf[second]
    ensures var c := ss.channelOf[first]; var w := WatermarkOf(watermarks, c);
      On(Sweeps(ss, watermarks, TwoNames(first, second, w, m)), ss, c, UnsavedWorld(c, w, m), {})
  {
    var c := ss.channelOf[first];
    var wm := WatermarkOf(watermarks, c);
    hide AfterMove, Sweeps, FreshSweep, On, FirstStart, Covering, UnsavedWorld;
    var moves := TwoNames(first, second, wm, m);
    SweepsOfSeven(ss, watermarks, moves);
    OnBegin(ss, watermarks, c, FirstStart(wm) + 6, {first, second});
    var t := AfterBegin(AfterMove(FreshSweep(ss.channels, watermarks), ss, moves[0]), ss, c, first, second, wm, m);
  }

  lemma TwoNamesStoreUnsaved(ss: Sessions, watermarks: map<Id, Instant>, first: Name, second: Name, m: Content)
    requires IsSessions(ss) && first < second && first in ss.channelOf && second in ss.channelOf
    requires ss.channelOf[first] == ss.channelOf[second]
    ensures var c := ss.channelOf[first]; var w := WatermarkOf(watermarks, c); var start := FirstStart(w);
      var s := Sweeps(ss, watermarks, TwoNames(first, second, w, m));
      && s.server[c] == {Key(c, start, start + 6, 0, m)}
      && s.file[c] == Record(w, Some(Extract(start, start + 6)), [])
  {
    AfterTwoNames(ss, watermarks, first, second, m);
    hide Sweeps, TwoNames, FirstStart;
  }

  /** The six moves of TwoNames after its beginning. */
  lemma AfterBegin(s: Sweep, ss: Sessions, c: Id, first: Name, second: Name, watermark: Option<Instant>, m: Content)
    returns (t: Sweep)
    requires Covering(s, ss.channels) && IsSessions(ss) && first < second
    requires first in ss.channelOf && ss.channelOf[first] == c && second in ss.channelOf && ss.channelOf[second] == c
    requires var r := Record(watermark, None, []);
      On(s, ss, c, World(c, r, r, Loaded, FirstStart(watermark) + 6, {}), {first, second})
    ensures Covering(t, ss.channels)
    ensures var moves := TwoNames(first, second, watermark, m);
      t == AfterMove(AfterMove(AfterMove(AfterMove(AfterMove(AfterMove(s, ss, moves[1]), ss, moves[2]),
                                                   ss, moves[3]), ss, moves[4]), ss, moves[5]), ss, moves[6])
    ensures On(t, ss, c, UnsavedWorld(c, watermark, m), {})
  {
    hide AfterMove, On, FirstStart, Covering, IsSessions;
    var start := FirstStart(watermark);
    var r := Record(watermark, None, []);
    var planned := r.(pending := Some(Extract(start, start + 6)));
    var snapshot := planned.(pending := Some(Store(start, start + 6, [m], 0)));
    var s3 := FirstName(s, ss, c, first, second, r, start);
    var s5 := UnsavedSnapshot(s3, ss, c, first, second, planned, m);
    t := SecondName(s5, ss, c, second, planned, snapshot, m);
  }

  lemma FirstName(
      s: Sweep, ss: Sessions, c: Id, first: Name, second: Name, r: Record, start: Instant) returns (t: Sweep)
    requires Covering(s, ss.channels) && IsSessions(ss) && first < second && first in ss.channelOf
    requires ss.channelOf[first] == c
    requires r.pending.None? && r.windows == [] && start == FirstStart(r.lastEnd)
    requires On(s, ss, c, World(c, r, r, Loaded, start + 6, {}), {first, second})
    ensures Covering(t, ss.channels) && t == AfterMove(AfterMove(s, ss, At(first, Open(6))), ss, At(first, Save(Saved)))
    ensures var planned := r.(pending := Some(Extract(start, start + 6)));
      On(t, ss, c, World(c, planned, planned, Ready, start + 6, {}), {second})
  {
    hide AfterMove, On;
    var planned := r.(pending := Some(Extract(start, start + 6)));
    var u := AfterMove(s, ss, At(first, Open(6)));
    OnOpen(s, ss, c, World(c, r, r, Loaded, start + 6, {}), {first, second}, first, 6);
    assert {first, second} - {first} == {second};
    OnStep(u, ss, c, World(c, r, planned, Saving, start + 6, {}), {second}, first, Save(Saved));
    t := AfterMove(u, ss, At(first, Save(Saved)));
  }

  lemma UnsavedSnapshot(
      s: Sweep, ss: Sessions, c: Id, first: Name, second: Name, planned: Record, m: Content) returns (t: Sweep)
    requires Covering(s, ss.channels) && IsSessions(ss) && first in ss.channelOf && ss.channelOf[first] == c
    requires planned.pending.Some? && planned.pending.value.Extract?
    requires var p := planned.pending.value;
      p.end == p.start + 6 && On(s, ss, c, World(c, planned, planned, Ready, p.end, {}), {second})
    ensures var p := planned.pending.value;
      && Covering(t, ss.channels)
      && t == AfterMove(AfterMove(s, ss, At(first, ExtractMemories([p.start, p.start + 1, p.start + 2], [m]))),
                        ss, At(first, Save(NotSaved)))
      && On(t, ss, c, World(c, planned, planned.(pending := Some(Store(p.start, p.end, [m], 0))), Visited, p.end, {}),
           {second})
  {
    hide AfterMove, On, Within;
    var p := planned.pending.value;
    var step := ExtractMemories([p.start, p.start + 1, p.start + 2], [m]);
    var snapshot := planned.(pending := Some(Store(p.start, p.end, [m], 0)));
    ThreeWithin(p.start, p.end);
    OnStep(s, ss, c, World(c, planned, planned, Ready, p.end, {}), {second}, first, step);
    var u := AfterMove(s, ss, At(first, step));
    OnStep(u, ss, c, World(c, planned, snapshot, Saving, p.end, {}), {second}, first, Save(NotSaved));
    t := AfterMove(u, ss, At(first, Save(NotSaved)));
  }

  lemma SecondName(
      s: Sweep, ss: Sessions, c: Id, second: Name, planned: Record, snapshot: Record, m: Content) returns (t: Sweep)
    requires Covering(s, ss.channels) && IsSessions(ss) && second in ss.channelOf && ss.channelOf[second] == c
    requires planned.pending.Some? && planned.pending.value.Extract? && planned.windows == []
    requires var p := planned.pending.value;
      && p.end == p.start + 6 && p.start == FirstStart(planned.lastEnd)
      && snapshot == planned.(pending := Some(Store(p.start, p.end, [m], 0)))
      && On(s, ss, c, World(c, planned, snapshot, Visited, p.end, {}), {second})
    ensures var p := planned.pending.value;
      && Covering(t, ss.channels)
      && t == AfterMove(AfterMove(s, ss, At(second, Open(6))), ss, At(second, StoreNext(TakenThenFailed)))
      && On(t, ss, c, World(c, planned, snapshot, Visited, p.end, {Key(c, p.start, p.end, 0, m)}), {})
  {
    hide AfterMove, On;
    var p := planned.pending.value;
    OnOpen(s, ss, c, World(c, planned, snapshot, Visited, p.end, {}), {second}, second, 6);
    var u := AfterMove(s, ss, At(second, Open(6)));
    assert {second} - {second} == {};
    assert {} + {Key(c, p.start, p.end, 0, m)} == {Key(c, p.start, p.end, 0, m)};
    OnStep(u, ss, c, World(c, planned, snapshot, Ready, p.end, {}), {}, second, StoreNext(TakenThenFailed));
    t := AfterMove(u, ss, At(second, StoreNext(TakenThenFailed)));
  }

  lemma SweepsOfSeven(ss: Sessions, watermarks: map<Id, Instant>, moves: seq<Move>)
    requires IsSessions(ss) && |moves| == 7
    ensures Sweeps(ss, watermarks, moves) ==
      AfterMove(AfterMove(AfterMove(AfterMove(AfterMove(AfterMove(AfterMove(FreshSweep(ss.channels, watermarks),
        ss, moves[0]), ss, moves[1]), ss, moves[2]), ss, moves[3]), ss, moves[4]), ss, moves[5]), ss, moves[6])
  {
    hide AfterMove, FreshSweep;
    Unrolled(ss, watermarks, moves, 7); Unrolled(ss, watermarks, moves, 6); Unrolled(ss, watermarks, moves, 5);
    Unrolled(ss, watermarks, moves, 4); Unrolled(ss, watermarks, moves, 3); Unrolled(ss, watermarks, moves, 2);
    Unrolled(ss, watermarks, moves, 1);
    assert moves[..7] == moves;
  }

  lemma Unrolled(ss: Sessions, watermarks: map<Id, Instant>, moves: seq<Move>, n: nat)
    requires IsSessions(ss) && 0 < n <= |moves|
    ensures Sweeps(ss, watermarks, moves[..n]) == AfterMove(Sweeps(ss, watermarks, moves[..n - 1]), ss, moves[n - 1])
  {
    assert moves[..n][..n - 1] == moves[..n - 1];
  }

  /** Nothing is stored before its snapshot is durable, for all watermarks and all sweeps, exactly when
      no two display names of the session map lead to one channel. */
  lemma SafeIffDistinct(ss: Sessions)
    requires IsSessions(ss)
    ensures (forall watermarks, moves :: StoredIsFiled(Sweeps(ss, watermarks, moves), ss.channels)) <==> Distinct(ss)
  {
    if Distinct(ss) {
      forall watermarks, moves ensures StoredIsFiled(Sweeps(ss, watermarks, moves), ss.channels) {
        forall c, k | c in ss.channels && k in Sweeps(ss, watermarks, moves).server[c]
          ensures Foreseen(c, Sweeps(ss, watermarks, moves).file[c], k)
        {
          EveryChannelStoresItsSnapshots(ss, watermarks, moves, c, k);
        }
      }
    } else {
      var m, n :| m in ss.channelOf && n in ss.channelOf && ss.channelOf[m] == ss.channelOf[n] && m != n;
      DuplicateIsUnsafe(ss, map[], if m < n then m else n, if m < n then n else m, 0);
    }
  }

  lemma DuplicateIsUnsafe(ss: Sessions, watermarks: map<Id, Instant>, first: Name, second: Name, m: Content)
    requires IsSessions(ss) && first < second && first in ss.channelOf && second in ss.channelOf
    requires ss.channelOf[first] == ss.channelOf[second]
    ensures exists moves :: !StoredIsFiled(Sweeps(ss, watermarks, moves), ss.channels)
  {
    var c := ss.channelOf[first];
    var start := FirstStart(WatermarkOf(watermarks, c));
    var moves := TwoNames(first, second, WatermarkOf(watermarks, c), m);
    TwoNamesStoreUnsaved(ss, watermarks, first, second, m);
    hide Sweeps, TwoNames;
    UnforeseenBeforeSnapshot(ViewOf(Sweeps(ss, watermarks, moves), c), Key(c, start, start + 6, 0, m));
    assert !StoredIsFiled(Sweeps(ss, watermarks, moves), ss.channels);
  }

  // ---------------------------------------------------------------- extraction before stores

  /** Where the model may be asked for a channel, the server holds no memory of the window at hand. */
  ghost predicate ExtractsFirst(s: Sweep, channels: set<Id>)
    requires Covering(s, channels)
  {
    forall c, k :: c in channels && CanExtract(ViewOf(s, c)) && k in s.server[c] ==> KeyOfCompleted(c, s.file[c], k)
  }

  /** The model is asked before the first store of a window and never after it, for all watermarks and
      all sweeps, exactly when no two display names of the session map lead to one channel. */
  lemma ExtractsFirstIffDistinct(ss: Sessions)
    requires IsSessions(ss)
    ensures (forall watermarks, moves :: ExtractsFirst(Sweeps(ss, watermarks, moves), ss.channels)) <==> Distinct(ss)
  {
    if Distinct(ss) {
      forall watermarks, moves ensures ExtractsFirst(Sweeps(ss, watermarks, moves), ss.channels) {
        DistinctExtractsFirst(ss, watermarks, moves);
      }
    } else {
      var m, n :| m in ss.channelOf && n in ss.channelOf && ss.channelOf[m] == ss.channelOf[n] && m != n;
      DuplicateExtractsAgain(ss, map[], if m < n then m else n, if m < n then n else m, 0);
    }
  }

  lemma DistinctExtractsFirst(ss: Sessions, watermarks: map<Id, Instant>, moves: seq<Move>)
    requires IsSessions(ss) && Distinct(ss)
    ensures ExtractsFirst(Sweeps(ss, watermarks, moves), ss.channels)
  {
    var s := Sweeps(ss, watermarks, moves);
    forall c, k | c in ss.channels && CanExtract(ViewOf(s, c)) && k in s.server[c]
      ensures KeyOfCompleted(c, s.file[c], k)
    {
      ChannelFollowsProtocol(ss, watermarks, moves, c);
      ExtractionPrecedesStores(c, WatermarkOf(watermarks, c), Shares(ss, watermarks, moves, c), k);
    }
  }

  /** After the run of two names the next sweep resumes the window that the file says is yet to be
      extracted, a memory of which is stored. */
  lemma DuplicateExtractsAgain(ss: Sessions, watermarks: map<Id, Instant>, first: Name, second: Name, m: Content)
    requires IsSessions(ss) && first < second && first in ss.channelOf && second in ss.channelOf
    requires ss.channelOf[first] == ss.channelOf[second]
    ensures exists moves :: !ExtractsFirst(Sweeps(ss, watermarks, moves), ss.channels)
  {
    hide Sweeps, AfterMove, On, TwoNames, Covering, ExtractsFirst, CanExtract, KeyOfCompleted;
    var c := ss.channelOf[first];
    var wm := WatermarkOf(watermarks, c);
    var w := UnsavedWorld(c, wm, m);
    var moves := TwoNames(first, second, wm, m);
    var more := [EndSweep, BeginSweep(w.now, {first}), At(first, Open(6))];
    AfterTwoNames(ss, watermarks, first, second, m);
    SweepsMore(ss, watermarks, moves, more);
    ResumedExtraction(Sweeps(ss, watermarks, moves), ss, first, w);
    var start := FirstStart(wm);
    ExtractsStored(Sweeps(ss, watermarks, moves + more), ss.channels, c, Key(c, start, start + 6, 0, m));
  }

  lemma ExtractsStored(s: Sweep, channels: set<Id>, c: Id, k: Key)
    requires Covering(s, channels) && c in channels
    requires CanExtract(ViewOf(s, c)) && k in s.server[c] && s.file[c].windows == []
    ensures !ExtractsFirst(s, channels)
  {
    assert !KeyOfCompleted(c, s.file[c], k);
  }

  lemma SweepsMore(ss: Sessions, watermarks: map<Id, Instant>, moves: seq<Move>, more: seq<Move>)
    requires IsSessions(ss) && |more| == 3
    ensures Sweeps(ss, watermarks, moves + more) ==
      AfterMove(AfterMove(AfterMove(Sweeps(ss, watermarks, moves), ss, more[0]), ss, more[1]), ss, more[2])
  {
    hide AfterMove, FreshSweep;
    var all, n := moves + more, |moves|;
    Unrolled(ss, watermarks, all, n + 3); Unrolled(ss, watermarks, all, n + 2); Unrolled(ss, watermarks, all, n + 1);
    assert all[..n + 3] == all && all[..n] == moves;
  }

  lemma OnNextSweep(s: Sweep, ss: Sessions, c: Id, w: World, left: set<Name>, now: Instant, selected: set<Name>)
    requires Covering(s, ss.channels) && IsSessions(ss) && On(s, ss, c, w, left)
    requires w.stage != Stopped && selected <= ss.channelOf.Keys
    ensures On(AfterMove(AfterMove(s, ss, EndSweep), ss, BeginSweep(now, selected)), ss, c,
      World(c, w.durable, w.durable, Loaded, now, w.server), selected)
  {
  }

  lemma ResumedExtraction(s: Sweep, ss: Sessions, name: Name, w: World)
    requires Covering(s, ss.channels) && IsSessions(ss) && name in ss.channelOf
    requires var c := ss.channelOf[name]; On(s, ss, c, w, {}) && w.stage != Stopped
    requires Tiled(w.durable) && w.durable.pending.Some? && w.durable.pending.value.Extract?
    requires w.durable.pending.value.end <= w.now
    ensures var c := ss.channelOf[name];
      var t := AfterMove(AfterMove(AfterMove(s, ss, EndSweep), ss, BeginSweep(w.now, {name})), ss, At(name, Open(6)));
      CanExtract(ViewOf(t, c)) && t.file[c] == w.durable && t.server[c] == w.server
  {
    var c := ss.channelOf[name];
    OnNextSweep(s, ss, c, w, {}, w.now, {name});
    hide AfterMove;
    var u := AfterMove(AfterMove(s, ss, EndSweep), ss, BeginSweep(w.now, {name}));
    OnOpen(u, ss, c, World(c, w.durable, w.durable, Loaded, w.now, w.server), {name}, name, 6);
  }
}
