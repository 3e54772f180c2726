/**
 * One symbol's depth feed: book, validator and recovery buffer driven by the stream of deltas,
 * snapshots, staleness marks and resets. The main theorems follow the book and the stale flag
 * through every run, and a gap in the stream to the snapshot that closes it.
 */
module Feed {
  import opened Exchange
  import opened Integers
  import opened Messages
  import opened OrderBooks
  import opened Recovery
  import opened RecoveryBuffers
  import opened Sequence
  import opened Utf8
  import opened Wrappers

  datatype SymbolView = SymbolView(book: Book, state: ValidationState, buffer: Buffer)

  // `cover` is what the exchange's snapshot is exact on; the code never looks at it. The spot loop
  // seeds a validator that waits for a snapshot with the first delta it sees.
  datatype Input =
    | DeltaArrived(event: BufferedDelta)
    | DeltaSeeding(event: BufferedDelta)
    | SnapshotFetched(snap: BookSnapshot, cover: Cover)
    | MarkedStale(reason: BookStaleReason)
    | Reset

  const FRESH: SymbolView := SymbolView(Book(map[], map[], 0, false, None), AwaitingSnapshot, EMPTY)

  function PushOrClear(buffer: Buffer, limits: Limits, event: BufferedDelta): Buffer {
    if Refusal(buffer, limits, event.recvTs, event.encodedSize).Accepted? then Pushed(buffer, limits, event) else EMPTY
  }

  // The futures loop buffers without asking the validator while the book is flagged or unseeded.
  predicate Parks(venue: Venue, view: SymbolView) {
    venue.FuturesVenue? && (view.book.stale || view.state.AwaitingSnapshot?)
  }

  function OnDelta(venue: Venue, limits: Limits, view: SymbolView, event: BufferedDelta): SymbolView {
    if Parks(venue, view) then
      view.(buffer := PushOrClear(view.buffer, limits, event))
    else
      var judged := Judge(venue, view.state, event.delta);
      match judged.result
      case Apply => view.(book := Updated(view.book, event.delta), state := judged.state)
      case Discard => view.(state := judged.state)
      case Buffering =>
        view.(state := judged.state,
              buffer := if venue.SpotVenue? then PushOrClear(view.buffer, limits, event)
                        else Pushed(view.buffer, limits, event))
      case Gap(_, _, _) =>
        view.(book := view.book.(stale := true, staleReason := Some(SequenceGap)),
              state := judged.state,
              buffer := if venue.SpotVenue? then PushOrClear(view.buffer, limits, event) else view.buffer)
  }

  function OneBefore(id: u64): u64 {
    if id == 0 then 0 else id - 1
  }

  // As if a snapshot had just been taken before the delta.
  function Seeded(venue: Venue, view: SymbolView, event: BufferedDelta): SymbolView {
    if venue.SpotVenue? && view.state.AwaitingSnapshot? then
      view.(state := Bridging(OneBefore(event.delta.firstUpdateId)))
    else
      view
  }

  function Step(venue: Venue, limits: Limits, view: SymbolView, input: Input): SymbolView {
    match input
    case DeltaArrived(event) => OnDelta(venue, limits, view, event)
    case DeltaSeeding(event) => OnDelta(venue, limits, Seeded(venue, view, event), event)
    case SnapshotFetched(snap, _) =>
      var r := Recover(venue, snap, view.book, view.buffer.events);
      SymbolView(r.book, r.state, EMPTY)
    case MarkedStale(reason) => view.(book := view.book.(stale := true, staleReason := Some(reason)))
    case Reset => view.(state := AwaitingSnapshot, buffer := EMPTY)
  }

  function Run(venue: Venue, limits: Limits, inputs: seq<Input>): SymbolView {
    if inputs == [] then FRESH
    else Step(venue, limits, Run(venue, limits, inputs[..|inputs| - 1]), inputs[|inputs| - 1])
  }

  // --- The drivers -----------------------------------------------------------

  class SpotSymbolState {
    const book: OrderBook
    const validator: SequenceValidator
    const recoveryBuf: RecoveryBuffer

    function View(): SymbolView
      reads book, validator, recoveryBuf
    {
      SymbolView(book.View(), validator.state, recoveryBuf.View())
    }

    constructor (symbol: Str)
      ensures View() == FRESH && recoveryBuf.Valid() && recoveryBuf.limits == DEFAULT_LIMITS
      ensures fresh(book) && fresh(validator) && fresh(recoveryBuf)
    {
      book := new OrderBook(symbol);
      validator := new SequenceValidator();
      recoveryBuf := new RecoveryBuffer.WithLimits(DEFAULT_LIMITS);
    }

    method PushToRecovery(event: BufferedDelta) returns (overflowed: bool)
      requires recoveryBuf.Valid()
      modifies recoveryBuf
      ensures recoveryBuf.Valid()
      ensures recoveryBuf.View() == PushOrClear(old(recoveryBuf.View()), recoveryBuf.limits, event)
      ensures overflowed
           == Refusal(old(recoveryBuf.View()), recoveryBuf.limits, event.recvTs, event.encodedSize).Overflow?
    {
      var pushed := recoveryBuf.Push(event.delta, event.recvTs, event.encodedSize);
      if pushed.Overflow? {
        recoveryBuf.Clear();
      }
      return pushed.Overflow?;
    }

    method HandleDelta(event: BufferedDelta)
      requires recoveryBuf.Valid()
      modifies book, validator, recoveryBuf
      ensures recoveryBuf.Valid()
      ensures View() == Step(SpotVenue, recoveryBuf.limits, old(View()), DeltaArrived(event))
    {
      var verdict := validator.Validate(event.delta.firstUpdateId, event.delta.finalUpdateId);
      match verdict {
        case Apply =>
          book.ApplyDelta(event.delta);
        case Discard =>
        case Buffering =>
          var _ := PushToRecovery(event);
        case Gap(_, _, _) =>
          book.MarkStale(SequenceGap);
          var _ := PushToRecovery(event);
      }
    }

    // The startup seed, then the delta.
    method HandleSeedingDelta(event: BufferedDelta)
      requires recoveryBuf.Valid()
      modifies book, validator, recoveryBuf
      ensures recoveryBuf.Valid()
      ensures View() == Step(SpotVenue, recoveryBuf.limits, old(View()), DeltaSeeding(event))
    {
      if validator.state.AwaitingSnapshot? {
        validator.OnSnapshot(OneBefore(event.delta.firstUpdateId));
      }
      HandleDelta(event);
    }

    method HandleSnapshot(snap: BookSnapshot, ghost cover: Cover) returns (result: Result<RecoveryOutcome, GapInReplay>)
      requires recoveryBuf.Valid()
      modifies book, validator, recoveryBuf
      ensures recoveryBuf.Valid()
      ensures View() == Step(SpotVenue, recoveryBuf.limits, old(View()), SnapshotFetched(snap, cover))
      ensures result == Recover(SpotVenue, snap, old(book.View()), old(recoveryBuf.events)).result
    {
      result := ApplySpotSnapshot(snap, book, validator, recoveryBuf);
    }
  }

  class FuturesSymbolState {
    const book: OrderBook
    const validator: FuturesSequenceValidator
    const recoveryBuf: RecoveryBuffer

    function View(): SymbolView
      reads book, validator, recoveryBuf
    {
      SymbolView(book.View(), validator.state, recoveryBuf.View())
    }

    constructor (symbol: Str)
      ensures View() == FRESH && recoveryBuf.Valid() && recoveryBuf.limits == DEFAULT_LIMITS
      ensures fresh(book) && fresh(validator) && fresh(recoveryBuf)
    {
      book := new OrderBook(symbol);
      validator := new FuturesSequenceValidator();
      recoveryBuf := new RecoveryBuffer.WithLimits(DEFAULT_LIMITS);
    }

    method HandleDelta(event: BufferedDelta)
      requires recoveryBuf.Valid()
      modifies book, validator, recoveryBuf
      ensures recoveryBuf.Valid()
      ensures View() == Step(FuturesVenue, recoveryBuf.limits, old(View()), DeltaArrived(event))
    {
      if book.stale || validator.state.AwaitingSnapshot? {
        var pushed := recoveryBuf.Push(event.delta, event.recvTs, event.encodedSize);
        if pushed.Overflow? {
          recoveryBuf.Clear();
        }
        return;
      }
      var verdict := validator.Validate(event.delta.firstUpdateId, event.delta.finalUpdateId, event.delta.prevUpdateId);
      match verdict {
        case Apply =>
          book.ApplyDelta(event.delta);
        case Discard =>
        case Buffering =>
          var _ := recoveryBuf.Push(event.delta, event.recvTs, event.encodedSize);
        case Gap(_, _, _) =>
          book.MarkStale(SequenceGap);
      }
    }

    method HandleSnapshot(snap: BookSnapshot, ghost cover: Cover) returns (result: Result<RecoveryOutcome, GapInReplay>)
      requires recoveryBuf.Valid()
      modifies book, validator, recoveryBuf
      ensures recoveryBuf.Valid()
      ensures View() == Step(FuturesVenue, recoveryBuf.limits, old(View()), SnapshotFetched(snap, cover))
      ensures result == Recover(FuturesVenue, snap, old(book.View()), old(recoveryBuf.events)).result
    {
      result := ApplyFuturesSnapshot(snap, book, validator, recoveryBuf);
    }
  }

  // --- Every run tracks the exchange -----------------------------------------

  ghost predicate HonestInput(venue: Venue, h: History, input: Input) {
    match input
    case DeltaArrived(event) => HonestDelta(venue, h, event.delta)
    case DeltaSeeding(event) => HonestDelta(venue, h, event.delta)
    case SnapshotFetched(snap, cover) => HonestSnapshot(h, snap, cover)
    case MarkedStale(_) => true
    case Reset => true
  }

  predicate Seeds(venue: Venue, view: SymbolView, input: Input) {
    venue.SpotVenue? && view.state.AwaitingSnapshot? && input.DeltaSeeding?
  }

  // A seed meets an empty book.
  predicate SeedsClean(venue: Venue, view: SymbolView, input: Input) {
    Seeds(venue, view, input) ==> view.book.bids == map[] && view.book.asks == map[]
  }

  ghost function DeltaCover(venue: Venue, view: SymbolView, event: BufferedDelta, cover: Cover): Cover {
    if Parks(venue, view) then cover else JudgedCover(venue, view.state, event.delta, cover)
  }

  ghost function StepCover(venue: Venue, view: SymbolView, input: Input, cover: Cover): Cover {
    match input
    case DeltaArrived(event) => DeltaCover(venue, view, event, cover)
    case DeltaSeeding(event) =>
      if Seeds(venue, view, input) then Widened(NoPrice, event.delta) else DeltaCover(venue, view, event, cover)
    case SnapshotFetched(snap, snapCover) => RecoverCover(venue, snap, view.buffer.events, snapCover)
    case MarkedStale(_) => cover
    case Reset => cover
  }

  ghost function RunCover(venue: Venue, limits: Limits, inputs: seq<Input>): Cover {
    if inputs == [] then EveryPrice
    else
      var before := inputs[..|inputs| - 1];
      StepCover(venue, Run(venue, limits, before), inputs[|inputs| - 1], RunCover(venue, limits, before))
  }

  ghost predicate Tracks(venue: Venue, h: History, cover: Cover, view: SymbolView) {
    && InSync(venue, h, cover, view.book, view.state)
    && (forall e | e in view.buffer.events :: HonestDelta(venue, h, e.delta))
  }

  // A validator that gave up has a book that says so.
  predicate Flagged(view: SymbolView) {
    view.state.Stale? ==> view.book.stale
  }

  // A snapshot is applied to a flagged book, or to one whose buffer it can replay.
  ghost predicate Safe(venue: Venue, view: SymbolView, input: Input) {
    match input
    case SnapshotFetched(snap, _) =>
      view.book.stale || !SkipsAhead(venue, snap.updateId, None, After(view.buffer.events, snap.updateId))
    case _ => true
  }

  // The first delta of a seeded symbol puts the book in sync on the prices it names.
  lemma {:induction false} SeedTracks(h: History, limits: Limits, view: SymbolView, event: BufferedDelta)
    requires WellFormed(h) && HonestDelta(SpotVenue, h, event.delta)
    requires view.state.AwaitingSnapshot? && view.book.bids == map[] && view.book.asks == map[]
    ensures var after := OnDelta(SpotVenue, limits, Seeded(SpotVenue, view, event), event);
            && after.buffer == view.buffer && after.book.stale == view.book.stale
            && after.state == Active(event.delta.finalUpdateId)
            && Shows(h, Widened(NoPrice, event.delta), after.book, event.delta.finalUpdateId)
  {
    var start := OneBefore(event.delta.firstUpdateId);
    var placed := view.book.(lastUpdateId := start);
    assert Shows(h, NoPrice, placed, start);
    Advance(h, NoPrice, placed, start, event.delta, start);
    assert Updated(view.book, event.delta) == Updated(placed, event.delta);
  }

  lemma {:induction false} StepTracks(venue: Venue, h: History, limits: Limits, cover: Cover, view: SymbolView,
                                      input: Input)
    requires WellFormed(h) && HonestInput(venue, h, input) && SeedsClean(venue, view, input)
    requires Tracks(venue, h, cover, view)
    ensures Tracks(venue, h, StepCover(venue, view, input, cover), Step(venue, limits, view, input))
  {
    match input
    case DeltaArrived(event) =>
      JudgeTracks(venue, h, cover, view.book, view.state, event.delta);
    case DeltaSeeding(event) =>
      if Seeds(venue, view, input) {
        SeedTracks(h, limits, view, event);
      } else {
        JudgeTracks(venue, h, cover, view.book, view.state, event.delta);
      }
    case SnapshotFetched(snap, snapCover) =>
      RecoverTracks(venue, h, snap, snapCover, view.book, view.buffer.events);
    case MarkedStale(_) =>
    case Reset =>
  }

  // Every seed of the run meets an empty book.
  predicate SeedsCleanThroughout(venue: Venue, limits: Limits, inputs: seq<Input>) {
    if inputs == [] then true
    else
      var before := inputs[..|inputs| - 1];
      && SeedsCleanThroughout(venue, limits, before)
      && SeedsClean(venue, Run(venue, limits, before), inputs[|inputs| - 1])
  }

  // Which is so unless the validator was reset: until then a validator that waits has an empty book.
  lemma {:induction false} UnresetSeedsClean(venue: Venue, limits: Limits, inputs: seq<Input>)
    requires forall i | 0 <= i < |inputs| :: !inputs[i].Reset?
    ensures SeedsCleanThroughout(venue, limits, inputs)
    ensures var view := Run(venue, limits, inputs);
            view.state.AwaitingSnapshot? ==> view.book.bids == map[] && view.book.asks == map[]
  {
    if inputs != [] {
      var before, last := inputs[..|inputs| - 1], inputs[|inputs| - 1];
      UnresetSeedsClean(venue, limits, before);
      StaysEmpty(venue, limits, Run(venue, limits, before), last);
    }
  }

  lemma {:induction false} StaysEmpty(venue: Venue, limits: Limits, view: SymbolView, input: Input)
    requires !input.Reset?
    requires view.state.AwaitingSnapshot? ==> view.book.bids == map[] && view.book.asks == map[]
    ensures var after := Step(venue, limits, view, input);
            after.state.AwaitingSnapshot? ==> after.book.bids == map[] && after.book.asks == map[]
  {
    if input.SnapshotFetched? {
      ReplayLeavesWaiting(venue, input.snap.updateId, Snapshotted(view.book, input.snap), Bridging(input.snap.updateId),
                          After(view.buffer.events, input.snap.updateId), 0, 0);
    }
  }

  lemma {:induction false} ReplayLeavesWaiting(venue: Venue, snapshotId: u64, book: Book, state: ValidationState,
                                               events: seq<BufferedDelta>, replayed: nat, discarded: nat)
    requires !state.AwaitingSnapshot?
    ensures !Replay(venue, snapshotId, book, state, events, replayed, discarded).state.AwaitingSnapshot?
    decreases |events|
  {
    if events != [] {
      var judged := Judge(venue, state, events[0].delta);
      match judged.result
      case Apply =>
        ReplayLeavesWaiting(venue, snapshotId, Updated(book, events[0].delta), judged.state, events[1..],
                            replayed + 1, discarded);
      case Gap(_, _, _) =>
      case _ =>
        ReplayLeavesWaiting(venue, snapshotId, book, judged.state, events[1..], replayed, discarded + 1);
    }
  }

  // After any interleaving of seeds, deltas (late, duplicated, overlapping or missing), gaps, buffer
  // overflows, snapshots of any age, marks and resets, the book is the exchange's book at the
  // validator's position on the cover.
  lemma {:induction false} RunTracks(venue: Venue, h: History, limits: Limits, inputs: seq<Input>)
    requires WellFormed(h) && SeedsCleanThroughout(venue, limits, inputs)
    requires forall i | 0 <= i < |inputs| :: HonestInput(venue, h, inputs[i])
    ensures Tracks(venue, h, RunCover(venue, limits, inputs), Run(venue, limits, inputs))
  {
    if inputs != [] {
      var before := inputs[..|inputs| - 1];
      RunTracks(venue, h, limits, before);
      StepTracks(venue, h, limits, RunCover(venue, limits, before), Run(venue, limits, before), inputs[|inputs| - 1]);
    }
  }

  // No seed since the last snapshot.
  predicate Unseeded(venue: Venue, limits: Limits, inputs: seq<Input>) {
    if inputs == [] then true
    else
      var before, last := inputs[..|inputs| - 1], inputs[|inputs| - 1];
      last.SnapshotFetched? || (Unseeded(venue, limits, before) && !Seeds(venue, Run(venue, limits, before), last))
  }

  // A set of prices that every snapshot is exact on is shown exactly at all times but between a
  // seed and the snapshot after it; with uncapped snapshots that is the whole book.
  lemma {:induction false} RunShowsWatchedPrices(venue: Venue, h: History, limits: Limits, inputs: seq<Input>,
                                                 watched: Cover)
    requires WellFormed(h) && SeedsCleanThroughout(venue, limits, inputs) && Unseeded(venue, limits, inputs)
    requires forall i | 0 <= i < |inputs| :: HonestInput(venue, h, inputs[i])
    requires forall i | 0 <= i < |inputs| :: inputs[i].SnapshotFetched? ==> Within(watched, inputs[i].cover)
    ensures var view := Run(venue, limits, inputs);
            !view.state.AwaitingSnapshot? ==>
              var n := LastValidId(view.state).value;
              && view.book.lastUpdateId == n
              && (forall p | p in watched.bids :: At(view.book.bids, p) == At(h.bids(n), p))
              && (forall p | p in watched.asks :: At(view.book.asks, p) == At(h.asks(n), p))
              && (watched == EveryPrice ==> view.book.bids == h.bids(n) && view.book.asks == h.asks(n))
  {
    RunTracks(venue, h, limits, inputs);
    RunCoversWatched(venue, limits, inputs, watched);
    var view := Run(venue, limits, inputs);
    if !view.state.AwaitingSnapshot? {
      var cover := RunCover(venue, limits, inputs);
      if watched == EveryPrice {
        assert cover == EveryPrice;
      }
      ShowsMeansRight(h, cover, view.book, LastValidId(view.state).value);
    }
  }

  ghost predicate Within(inner: Cover, outer: Cover) {
    inner.bids <= outer.bids && inner.asks <= outer.asks
  }

  lemma {:induction false} RunCoversWatched(venue: Venue, limits: Limits, inputs: seq<Input>, watched: Cover)
    requires forall i | 0 <= i < |inputs| :: inputs[i].SnapshotFetched? ==> Within(watched, inputs[i].cover)
    requires Unseeded(venue, limits, inputs)
    ensures Within(watched, RunCover(venue, limits, inputs))
  {
    if inputs != [] {
      var before, last := inputs[..|inputs| - 1], inputs[|inputs| - 1];
      if last.SnapshotFetched? {
        var events := Run(venue, limits, before).buffer.events;
        ReplayCoverGrows(venue, Bridging(last.snap.updateId), After(events, last.snap.updateId), last.cover);
      } else {
        RunCoversWatched(venue, limits, before, watched);
      }
    }
  }

  lemma {:induction false} ReplayCoverGrows(venue: Venue, state: ValidationState, events: seq<BufferedDelta>,
                                            cover: Cover)
    ensures Within(cover, ReplayCover(venue, state, events, cover))
    decreases |events|
  {
    if events != [] {
      ReplayCoverGrows(venue, Judge(venue, state, events[0].delta).state, events[1..],
                       JudgedCover(venue, state, events[0].delta, cover));
    }
  }

  // --- The stale flag --------------------------------------------------------

  predicate FlaggedAt(venue: Venue, limits: Limits, inputs: seq<Input>, k: nat)
    requires k <= |inputs|
  {
    Flagged(Run(venue, limits, inputs[..k]))
  }

  ghost predicate SafeAt(venue: Venue, limits: Limits, inputs: seq<Input>, i: nat)
    requires i < |inputs|
  {
    Safe(venue, Run(venue, limits, inputs[..i]), inputs[i])
  }

  // Whatever the inputs say, true or not.
  lemma {:induction false} StepKeepsFlagIff(venue: Venue, limits: Limits, view: SymbolView, input: Input)
    requires Flagged(view)
    ensures Flagged(Step(venue, limits, view, input)) <==> Safe(venue, view, input)
  {
    if input.SnapshotFetched? {
      FlagIsKeptIff(venue, input.snap, view.book, view.buffer.events);
    }
  }

  lemma {:induction false} FlagStepsAt(venue: Venue, limits: Limits, inputs: seq<Input>, i: nat)
    requires i < |inputs| && FlaggedAt(venue, limits, inputs, i)
    ensures FlaggedAt(venue, limits, inputs, i + 1) <==> SafeAt(venue, limits, inputs, i)
  {
    assert inputs[..i + 1][..i] == inputs[..i];
    StepKeepsFlagIff(venue, limits, Run(venue, limits, inputs[..i]), inputs[i]);
  }

  lemma {:induction false} FlaggedWhileSafe(venue: Venue, limits: Limits, inputs: seq<Input>, k: nat)
    requires k <= |inputs|
    requires forall i | 0 <= i < |inputs| :: SafeAt(venue, limits, inputs, i)
    ensures FlaggedAt(venue, limits, inputs, k)
  {
    if k == 0 {
      assert inputs[..0] == [];
    } else {
      FlaggedWhileSafe(venue, limits, inputs, k - 1);
      FlagStepsAt(venue, limits, inputs, k - 1);
    }
  }

  // Over every run of any inputs, the flag tells of every stale validator at all times exactly when
  // each snapshot is applied to a flagged book or can replay the buffer it meets.
  lemma {:induction false} RunStaysFlaggedIff(venue: Venue, limits: Limits, inputs: seq<Input>)
    ensures (forall k | 0 <= k <= |inputs| :: FlaggedAt(venue, limits, inputs, k))
       <==> (forall i | 0 <= i < |inputs| :: SafeAt(venue, limits, inputs, i))
  {
    if forall i | 0 <= i < |inputs| :: SafeAt(venue, limits, inputs, i) {
      forall k | 0 <= k <= |inputs|
        ensures FlaggedAt(venue, limits, inputs, k)
      {
        FlaggedWhileSafe(venue, limits, inputs, k);
      }
    }
    if forall k | 0 <= k <= |inputs| :: FlaggedAt(venue, limits, inputs, k) {
      forall i | 0 <= i < |inputs|
        ensures SafeAt(venue, limits, inputs, i)
      {
        assert FlaggedAt(venue, limits, inputs, i) && FlaggedAt(venue, limits, inputs, i + 1);
        FlagStepsAt(venue, limits, inputs, i);
      }
    }
  }

  // The two convenience entry points fetch a snapshot and recover whatever the flag says. Run on a
  // new symbol, whose book is not flagged, every snapshot older than the buffered stream leaves the
  // validator stale behind a book that looks live, and some exchange makes that run honest.
  lemma {:induction false} FirstSyncCanMissTheFlag(venue: Venue, limits: Limits, event: BufferedDelta,
                                                   snap: BookSnapshot)
    returns (h: History)
    requires limits.maxEvents > 0 && event.encodedSize <= limits.maxBytes
    requires snap.updateId + 1 < event.delta.firstUpdateId <= event.delta.finalUpdateId
    requires 0 <= SpanStart(venue, event.delta) < event.delta.firstUpdateId
    ensures var run := [DeltaArrived(event), SnapshotFetched(snap, EveryPrice)];
            && WellFormed(h) && (forall i | 0 <= i < |run| :: HonestInput(venue, h, run[i]))
            && Run(venue, limits, run).state.Stale? && !Flagged(Run(venue, limits, run))
  {
    var run := [DeltaArrived(event), SnapshotFetched(snap, EveryPrice)];
    h := StepsAt(event.delta, SnapshotSide(snap.bids), SnapshotSide(snap.asks));
    SnapshotSidePositive(snap.bids);
    SnapshotSidePositive(snap.asks);
    StepsAtIsHonest(venue, event.delta, SnapshotSide(snap.bids), SnapshotSide(snap.asks));
    assert Restrict(h.bids(snap.updateId), EveryPrice.bids) == SnapshotSide(snap.bids);
    assert Restrict(h.asks(snap.updateId), EveryPrice.asks) == SnapshotSide(snap.asks);
    SnapshotSideHolds(snap.bids);
    SnapshotSideHolds(snap.asks);
    var parked := FRESH.(buffer := Buffer([event], event.encodedSize));
    assert Run(venue, limits, run[..1]) == parked by {
      assert run[..1] == [DeltaArrived(event)] && run[..1][..0] == [];
      assert Run(venue, limits, run[..1][..0]) == FRESH;
      FirstDeltaIsParked(venue, limits, event);
    }
    assert run[..|run| - 1] == run[..1];
    TooOldSnapshotGaps(venue, snap, parked.book, event);
  }

  // The exchange that changes only at the delta's final id, by the delta.
  ghost function StepsAt(delta: BookDelta, bids: Side, asks: Side): History {
    History((n: nat) => if n < delta.finalUpdateId then bids else ApplyLevels(bids, delta.bids),
            (n: nat) => if n < delta.finalUpdateId then asks else ApplyLevels(asks, delta.asks))
  }

  lemma {:induction false} StepsAtIsHonest(venue: Venue, delta: BookDelta, bids: Side, asks: Side)
    requires ZeroFree(bids) && ZeroFree(asks)
    requires 0 <= SpanStart(venue, delta) < delta.firstUpdateId <= delta.finalUpdateId
    ensures WellFormed(StepsAt(delta, bids, asks)) && HonestDelta(venue, StepsAt(delta, bids, asks), delta)
  {
    ApplyLevelsZeroFree(bids, delta.bids);
    ApplyLevelsZeroFree(asks, delta.asks);
    forall p: i64
      ensures LastQty(delta.bids, p).Some? ==> At(ApplyLevels(bids, delta.bids), p) == LastQty(delta.bids, p).value
      ensures LastQty(delta.bids, p).None? ==> At(ApplyLevels(bids, delta.bids), p) == At(bids, p)
      ensures LastQty(delta.asks, p).Some? ==> At(ApplyLevels(asks, delta.asks), p) == LastQty(delta.asks, p).value
      ensures LastQty(delta.asks, p).None? ==> At(ApplyLevels(asks, delta.asks), p) == At(asks, p)
    {
      ApplyLevelsIsOverlay(bids, delta.bids, p);
      ApplyLevelsIsOverlay(asks, delta.asks, p);
    }
  }

  lemma {:induction false} FirstDeltaIsParked(venue: Venue, limits: Limits, event: BufferedDelta)
    requires limits.maxEvents > 0 && event.encodedSize <= limits.maxBytes
    ensures OnDelta(venue, limits, FRESH, event) == FRESH.(buffer := Buffer([event], event.encodedSize))
  {
    assert EMPTY.events + [event] == [event];
  }

  lemma {:induction false} TooOldSnapshotGaps(venue: Venue, snap: BookSnapshot, book: Book, event: BufferedDelta)
    requires snap.updateId + 1 < event.delta.firstUpdateId <= event.delta.finalUpdateId
    ensures var r := Recover(venue, snap, book, [event]);
            r.state == Stale(snap.updateId) && r.book == Snapshotted(book, snap) && r.result.Failure?
  {
    assert [event][..0] == [] && After([event], snap.updateId) == [event];
  }

  lemma {:induction false} UnflaggedStaysFrozen(venue: Venue, limits: Limits, view: SymbolView,
                                                events: seq<BufferedDelta>)
    requires !Flagged(view)
    ensures OnDeltas(venue, limits, view, events).book == view.book
    ensures !Flagged(OnDeltas(venue, limits, view, events))
  {
    if events != [] {
      UnflaggedStaysFrozen(venue, limits, view, events[..|events| - 1]);
    }
  }

  function OnDeltas(venue: Venue, limits: Limits, view: SymbolView, events: seq<BufferedDelta>): SymbolView {
    if events == [] then view
    else OnDelta(venue, limits, OnDeltas(venue, limits, view, events[..|events| - 1]), events[|events| - 1])
  }

  // --- Seeding a book that is not empty --------------------------------------

  // A level of the book that the delta does not name.
  ghost predicate Leftover(side: Side, levels: seq<PriceLevel>) {
    exists p :: p in side && LastQty(levels, p).None?
  }

  lemma {:induction false} LeftoverStays(side: Side, levels: seq<PriceLevel>)
    ensures ApplyLevels(side, levels) == ApplyLevels(map[], levels) <==> !Leftover(side, levels)
  {
    var none: Side := map[];
    var after, from := ApplyLevels(side, levels), ApplyLevels(none, levels);
    forall p: i64
      ensures LastQty(levels, p).Some? ==> At(after, p) == At(from, p) && (p in after <==> p in from)
      ensures LastQty(levels, p).None? ==> At(after, p) == At(side, p) && (p in after <==> p in side) && p !in from
    {
      ApplyLevelsIsOverlay(side, levels, p);
      ApplyLevelsIsOverlay(none, levels, p);
    }
    if !Leftover(side, levels) {
      forall p | p in after
        ensures p in from && after[p] == from[p]
      {
        assert At(after, p) == At(from, p);
      }
    } else {
      var p :| p in side && LastQty(levels, p).None?;
      assert p in after && p !in from;
    }
  }

  // A seed is sound, whatever the exchange, exactly when the delta names every level of the book.
  lemma {:induction false} SeedIsSoundIff(book: Book, delta: BookDelta)
    requires 0 < delta.firstUpdateId <= delta.finalUpdateId
    ensures !Leftover(book.bids, delta.bids) && !Leftover(book.asks, delta.asks)
       <==> forall h | WellFormed(h) && HonestDelta(SpotVenue, h, delta) ::
              Shows(h, Widened(NoPrice, delta), Updated(book, delta), delta.finalUpdateId)
  {
    LeftoverStays(book.bids, delta.bids);
    LeftoverStays(book.asks, delta.asks);
    var start := delta.firstUpdateId - 1;
    var empty := book.(bids := map[], asks := map[], lastUpdateId := start);
    forall h | WellFormed(h) && HonestDelta(SpotVenue, h, delta)
      ensures Shows(h, Widened(NoPrice, delta), Updated(empty, delta), delta.finalUpdateId)
    {
      assert Shows(h, NoPrice, empty, start);
      Advance(h, NoPrice, empty, start, delta, start);
    }
    StepsAtIsHonest(SpotVenue, delta, map[], map[]);
    assert WellFormed(StepsAt(delta, map[], map[])) && HonestDelta(SpotVenue, StepsAt(delta, map[], map[]), delta);
  }

  // --- What is held ----------------------------------------------------------

  // The validator takes deltas and the driver asks it.
  predicate TakesDeltas(venue: Venue, view: SymbolView) {
    (view.state.Bridging? || view.state.Active?) && !Parks(venue, view)
  }

  // A symbol whose deltas are taken holds none back: what was held was replayed, or dropped with the
  // snapshot, when it began to take them.
  lemma {:induction false} NothingHeldWhileLive(venue: Venue, limits: Limits, inputs: seq<Input>)
    requires forall i | 0 <= i < |inputs| :: !inputs[i].DeltaSeeding?
    ensures TakesDeltas(venue, Run(venue, limits, inputs)) ==> Run(venue, limits, inputs).buffer == EMPTY
  {
    if inputs != [] {
      var before, last := inputs[..|inputs| - 1], inputs[|inputs| - 1];
      NothingHeldWhileLive(venue, limits, before);
      HeldStep(venue, limits, Run(venue, limits, before), last);
    }
  }

  lemma {:induction false} HeldStep(venue: Venue, limits: Limits, view: SymbolView, input: Input)
    requires !input.DeltaSeeding? && (TakesDeltas(venue, view) ==> view.buffer == EMPTY)
    ensures var after := Step(venue, limits, view, input); TakesDeltas(venue, after) ==> after.buffer == EMPTY
  {
  }

  // After a reset the next snapshot starts over: nothing held before it is replayed.
  lemma {:induction false} ResetStartsOver(venue: Venue, limits: Limits, view: SymbolView, snap: BookSnapshot,
                                           cover: Cover)
    ensures var after := Step(venue, limits, Step(venue, limits, view, Reset), SnapshotFetched(snap, cover));
            && after.state == Bridging(snap.updateId) && after.buffer == EMPTY
            && after.book == Snapshotted(view.book, snap).(stale := false, staleReason := None)
  {
  }

  // --- From a gap to the snapshot that closes it -----------------------------

  // The validator is not asked, or it answers that it waits.
  predicate Buffers(venue: Venue, view: SymbolView) {
    match venue
    case SpotVenue => view.state.AwaitingSnapshot? || view.state.Stale?
    case FuturesVenue => Parks(venue, view)
  }

  function AllParked(buffer: Buffer, limits: Limits, events: seq<BufferedDelta>): Buffer {
    if events == [] then buffer
    else PushOrClear(AllParked(buffer, limits, events[..|events| - 1]), limits, events[|events| - 1])
  }

  lemma {:induction false} WaitingBuffers(venue: Venue, limits: Limits, view: SymbolView, events: seq<BufferedDelta>)
    requires Buffers(venue, view)
    ensures OnDeltas(venue, limits, view, events) == view.(buffer := AllParked(view.buffer, limits, events))
  {
    if events != [] {
      WaitingBuffers(venue, limits, view, events[..|events| - 1]);
    }
  }

  // An overflow drops the buffer and the event that did not fit: what is held is always a tail of
  // what came, all of it when nothing overflowed.
  lemma {:induction false} ParkedIsTail(limits: Limits, events: seq<BufferedDelta>) returns (j: nat)
    ensures j <= |events| && AllParked(EMPTY, limits, events).events == events[j..]
    ensures WithinLimits(limits, events) ==> j == 0
  {
    j := ParkedTail(limits, events);
    NeverOverflowsIff(limits, events);
  }

  lemma {:induction false} ParkedTail(limits: Limits, events: seq<BufferedDelta>) returns (j: nat)
    ensures j <= |events| && AllParked(EMPTY, limits, events).events == events[j..]
    ensures NeverOverflows(limits, events) ==> j == 0 && AllParked(EMPTY, limits, events) == AllPushed(limits, events)
  {
    j := 0;
    if events != [] {
      var before, last := events[..|events| - 1], events[|events| - 1];
      j := ParkedTail(limits, before);
      if Refusal(AllParked(EMPTY, limits, before), limits, last.recvTs, last.encodedSize).Accepted? {
        assert events[j..] == before[j..] + [last];
      } else {
        j := |events|;
      }
    }
  }

  // What the drivers keep of the stream from the delta that showed the gap on: the spot loop keeps
  // that delta, the futures loop drops it.
  function KeptFrom(venue: Venue, gap: BufferedDelta, events: seq<BufferedDelta>): seq<BufferedDelta> {
    if venue.SpotVenue? then [gap] + events else events
  }

  lemma {:induction false} GapBuffers(venue: Venue, limits: Limits, view: SymbolView, gap: BufferedDelta,
                                      events: seq<BufferedDelta>)
    requires !Parks(venue, view) && Judge(venue, view.state, gap.delta).result.Gap? && view.buffer == EMPTY
    ensures var at := OnDeltas(venue, limits, OnDelta(venue, limits, view, gap), events);
            && at.book == view.book.(stale := true, staleReason := Some(SequenceGap))
            && at.buffer == AllParked(EMPTY, limits, KeptFrom(venue, gap, events))
  {
    var gapped := OnDelta(venue, limits, view, gap);
    WaitingBuffers(venue, limits, gapped, events);
    if venue.SpotVenue? {
      ParkedFirst(limits, gap, events);
    }
  }

  lemma {:induction false} ParkedFirst(limits: Limits, first: BufferedDelta, events: seq<BufferedDelta>)
    ensures AllParked(PushOrClear(EMPTY, limits, first), limits, events) == AllParked(EMPTY, limits, [first] + events)
  {
    var all := [first] + events;
    if events == [] {
      assert all[..|all| - 1] == [];
    } else {
      assert all[..|all| - 1] == [first] + events[..|events| - 1];
      ParkedFirst(limits, first, events[..|events| - 1]);
    }
  }

  // On spot a gap in an otherwise complete stream is closed by a snapshot exactly when it reaches
  // the oldest delta held: the one that showed the gap, unless the buffer overflowed since.
  lemma {:induction false} SpotGapClosesIff(limits: Limits, view: SymbolView, gap: BufferedDelta,
                                            events: seq<BufferedDelta>, snap: BookSnapshot)
    returns (held: seq<BufferedDelta>)
    requires Judge(SpotVenue, view.state, gap.delta).result.Gap? && view.buffer == EMPTY
    requires Contiguous(SpotVenue, [gap] + events)
    ensures var at := OnDeltas(SpotVenue, limits, OnDelta(SpotVenue, limits, view, gap), events);
            && at.book.stale && at.buffer.events == held
            && (Recover(SpotVenue, snap, at.book, held).result.Success?
                <==> held == [] || held[0].delta.firstUpdateId <= snap.updateId + 1)
    ensures WithinLimits(limits, [gap] + events) ==> held == [gap] + events
  {
    GapBuffers(SpotVenue, limits, view, gap, events);
    var j := ParkedIsTail(limits, [gap] + events);
    held := ([gap] + events)[j..];
    TailIsContiguous(SpotVenue, [gap] + events, j);
    var at := OnDeltas(SpotVenue, limits, OnDelta(SpotVenue, limits, view, gap), events);
    SpotRecoverSucceedsIff(snap, at.book, held);
  }

  // On futures the delta that showed the gap is gone, so as soon as another delta is held no
  // snapshot closes the gap that does not contain it; one that does must reach the first delta held
  // that it does not contain.
  lemma {:induction false} FuturesGapClosesIff(limits: Limits, view: SymbolView, gap: BufferedDelta,
                                               events: seq<BufferedDelta>, snap: BookSnapshot)
    requires !Parks(FuturesVenue, view) && Judge(FuturesVenue, view.state, gap.delta).result.Gap?
    requires view.buffer == EMPTY
    requires Contiguous(FuturesVenue, [gap] + events) && WithinLimits(limits, events)
    ensures var at := OnDeltas(FuturesVenue, limits, OnDelta(FuturesVenue, limits, view, gap), events);
            var newer := After(events, snap.updateId);
            && at.book.stale && at.buffer.events == events
            && (Recover(FuturesVenue, snap, at.book, at.buffer.events).result.Success?
                <==> events == []
                     || (gap.delta.finalUpdateId <= snap.updateId
                         && (newer == [] || newer[0].delta.firstUpdateId <= snap.updateId + 1)))
  {
    GapBuffers(FuturesVenue, limits, view, gap, events);
    var _ := ParkedIsTail(limits, events);
    var all := [gap] + events;
    TailIsContiguous(FuturesVenue, all, 1);
    assert all[1..] == events;
    var at := OnDeltas(FuturesVenue, limits, OnDelta(FuturesVenue, limits, view, gap), events);
    RecoverSucceedsIff(FuturesVenue, snap, at.book, events);
    if events != [] && gap.delta.finalUpdateId > snap.updateId {
      NewerThanGap(all, snap.updateId);
    }
  }

  lemma {:induction false} NewerThanGap(all: seq<BufferedDelta>, snapshotId: u64)
    requires Contiguous(FuturesVenue, all) && |all| > 1 && all[0].delta.finalUpdateId > snapshotId
    ensures var newer := After(all[1..], snapshotId);
            newer != [] && newer[0].delta.firstUpdateId > snapshotId + 1
  {
    var events := all[1..];
    TailIsContiguous(FuturesVenue, all, 1);
    assert Follows(FuturesVenue, all[0].delta.finalUpdateId, all[1].delta);
    var j := CandidatesAreTail(FuturesVenue, events, snapshotId);
    if j > 0 {
      FinalsIncrease(FuturesVenue, events, 0, j - 1);
    }
  }

  // --- A seeded stream -------------------------------------------------------

  function SeedingAll(events: seq<BufferedDelta>): seq<Input> {
    seq(|events|, i requires 0 <= i < |events| => DeltaSeeding(events[i]))
  }

  lemma {:induction false} FirstSeeds(limits: Limits, event: BufferedDelta)
    requires 0 < event.delta.firstUpdateId <= event.delta.finalUpdateId
    ensures Step(SpotVenue, limits, FRESH, DeltaSeeding(event))
         == FRESH.(book := Updated(FRESH.book, event.delta), state := Active(event.delta.finalUpdateId))
  {
  }

  lemma {:induction false} NextApplies(limits: Limits, view: SymbolView, event: BufferedDelta)
    requires view.state.Active? && Follows(SpotVenue, view.state.lastFinal, event.delta)
    ensures Step(SpotVenue, limits, view, DeltaSeeding(event))
         == view.(book := Updated(view.book, event.delta), state := Active(event.delta.finalUpdateId))
  {
    OneAfterWraps(view.state.lastFinal);
  }

  lemma {:induction false} SeedingSnoc(limits: Limits, events: seq<BufferedDelta>)
    requires events != []
    ensures Run(SpotVenue, limits, SeedingAll(events))
         == Step(SpotVenue, limits, Run(SpotVenue, limits, SeedingAll(events[..|events| - 1])),
                 DeltaSeeding(events[|events| - 1]))
  {
    assert SeedingAll(events)[..|events| - 1] == SeedingAll(events[..|events| - 1]);
  }

  // A complete stream keeps a seeded symbol live from its first delta on, with nothing buffered.
  lemma {:induction false} SeededStreamIsLive(limits: Limits, events: seq<BufferedDelta>)
    requires Contiguous(SpotVenue, events) && events != []
    ensures var view := Run(SpotVenue, limits, SeedingAll(events));
            && view.state == Active(events[|events| - 1].delta.finalUpdateId)
            && view.buffer == EMPTY && !view.book.stale
  {
    var before, last := events[..|events| - 1], events[|events| - 1];
    SeedingSnoc(limits, events);
    ContiguousFront(SpotVenue, events);
    if before == [] {
      assert Run(SpotVenue, limits, SeedingAll(before)) == FRESH;
      FirstSeeds(limits, last);
    } else {
      SeededStreamIsLive(limits, before);
      NextApplies(limits, Run(SpotVenue, limits, SeedingAll(before)), last);
    }
  }

  // Once seeded, seeding is over.
  lemma {:induction false} SeedingIsOver(limits: Limits, head: seq<BufferedDelta>, more: seq<BufferedDelta>)
    requires !Run(SpotVenue, limits, SeedingAll(head)).state.AwaitingSnapshot?
    ensures Run(SpotVenue, limits, SeedingAll(head + more))
         == OnDeltas(SpotVenue, limits, Run(SpotVenue, limits, SeedingAll(head)), more)
    ensures !Run(SpotVenue, limits, SeedingAll(head + more)).state.AwaitingSnapshot?
  {
    if more == [] {
      assert head + more == head;
    } else {
      var all := head + more;
      assert all[..|all| - 1] == head + more[..|more| - 1];
      SeedingIsOver(limits, head, more[..|more| - 1]);
      SeedingSnoc(limits, all);
    }
  }

  lemma {:induction false} OnDeltasFirst(venue: Venue, limits: Limits, view: SymbolView, first: BufferedDelta,
                                         events: seq<BufferedDelta>)
    ensures OnDeltas(venue, limits, view, [first] + events)
         == OnDeltas(venue, limits, OnDelta(venue, limits, view, first), events)
  {
    var all := [first] + events;
    if events == [] {
      assert all[..|all| - 1] == [];
      assert OnDeltas(venue, limits, view, []) == view;
    } else {
      assert all[..|all| - 1] == [first] + events[..|events| - 1];
      OnDeltasFirst(venue, limits, view, first, events[..|events| - 1]);
    }
  }

  lemma {:induction false} JumpGaps(last: u64, delta: BookDelta)
    requires delta.firstUpdateId > last + 1
    ensures Judge(SpotVenue, Active(last), delta).result.Gap?
  {
    OneAfterWraps(last);
  }

  // The spot loop from a new symbol through a gap: a complete stream, some deltas missing, a
  // complete stream again. The book is flagged, and a snapshot recovers it exactly when it reaches
  // the oldest delta held, which is the first one after the gap unless the buffer overflowed.
  lemma {:induction false} SpotStreamRecoversIff(limits: Limits, head: seq<BufferedDelta>, gap: BufferedDelta,
                                                 tail: seq<BufferedDelta>, snap: BookSnapshot)
    returns (held: seq<BufferedDelta>)
    requires Contiguous(SpotVenue, head) && head != [] && Contiguous(SpotVenue, [gap] + tail)
    requires gap.delta.firstUpdateId > head[|head| - 1].delta.finalUpdateId + 1
    ensures var at := Run(SpotVenue, limits, SeedingAll(head + ([gap] + tail)));
            && at.book.stale && at.buffer.events == held
            && (Recover(SpotVenue, snap, at.book, held).result.Success?
                <==> held == [] || held[0].delta.firstUpdateId <= snap.updateId + 1)
    ensures WithinLimits(limits, [gap] + tail) ==> held == [gap] + tail
  {
    SeededStreamIsLive(limits, head);
    var live := Run(SpotVenue, limits, SeedingAll(head));
    JumpGaps(live.state.lastFinal, gap.delta);
    SeedingIsOver(limits, head, [gap] + tail);
    OnDeltasFirst(SpotVenue, limits, live, gap, tail);
    held := SpotGapClosesIff(limits, live, gap, tail, snap);
  }
}
