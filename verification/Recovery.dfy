/**
 * Depth recovery: install a REST snapshot, replay the buffered deltas through the
 * sequence validator, and clear the stale flag only when the replay met no gap.
 * Both venues run the same procedure over their own validator.
 */
module Recovery {
  import opened Exchange
  import opened Integers
  import opened Messages
  import opened OrderBooks
  import opened RecoveryBuffers
  import opened Sequence
  import opened Wrappers

  datatype Venue = SpotVenue | FuturesVenue

  datatype GapInReplay = GapInReplay(expected: u64, actual: u64)
  datatype RecoveryOutcome = RecoveryOutcome(snapshotId: u64, replayed: nat, discarded: nat)

  datatype Recovered = Recovered(
    book: Book,
    state: ValidationState,
    result: Result<RecoveryOutcome, GapInReplay>)

  function Judge(venue: Venue, state: ValidationState, delta: BookDelta): Validated {
    match venue
    case SpotVenue => ValidateSpot(state, delta.firstUpdateId, delta.finalUpdateId)
    case FuturesVenue => ValidateFutures(state, delta.firstUpdateId, delta.finalUpdateId, delta.prevUpdateId)
  }

  function Replay(venue: Venue, snapshotId: u64, book: Book, state: ValidationState,
                  events: seq<BufferedDelta>, replayed: nat, discarded: nat): Recovered
    decreases |events|
  {
    if events == [] then
      Recovered(book.(stale := false, staleReason := None), state,
                Success(RecoveryOutcome(snapshotId, replayed, discarded)))
    else
      var delta := events[0].delta;
      var judged := Judge(venue, state, delta);
      match judged.result
      case Apply => Replay(venue, snapshotId, Updated(book, delta), judged.state, events[1..], replayed + 1, discarded)
      case Discard => Replay(venue, snapshotId, book, judged.state, events[1..], replayed, discarded + 1)
      case Gap(expected, actual, _) => Recovered(book, judged.state, Failure(GapInReplay(expected, actual)))
      case Buffering => Replay(venue, snapshotId, book, judged.state, events[1..], replayed, discarded + 1)
  }

  function Recover(venue: Venue, snap: BookSnapshot, book: Book, events: seq<BufferedDelta>): Recovered {
    Replay(venue, snap.updateId, Snapshotted(book, snap), Bridging(snap.updateId),
           After(events, snap.updateId), 0, 0)
  }

  // --- The two recovery procedures -------------------------------------------

  method ApplySpotSnapshot(snap: BookSnapshot, book: OrderBook, validator: SequenceValidator, buf: RecoveryBuffer)
    returns (result: Result<RecoveryOutcome, GapInReplay>)
    requires buf.Valid()
    modifies book, validator, buf
    ensures Recovered(book.View(), validator.state, result)
         == Recover(SpotVenue, snap, old(book.View()), old(buf.events))
    ensures buf.Valid() && buf.View() == EMPTY
  {
    var snapshotId := snap.updateId;
    book.ApplySnapshot(snap);
    validator.OnSnapshot(snapshotId);
    var candidates := buf.DrainAfter(snapshotId);
    ghost var goal := Replay(SpotVenue, snapshotId, book.View(), validator.state, candidates, 0, 0);
    var replayed, discarded := 0, 0;
    for i := 0 to |candidates|
      modifies book, validator
      invariant replayed >= 0 && discarded >= 0
      invariant goal == Replay(SpotVenue, snapshotId, book.View(), validator.state, candidates[i..], replayed, discarded)
    {
      var delta := candidates[i].delta;
      assert candidates[i..][0] == candidates[i] && candidates[i..][1..] == candidates[i + 1..];
      var verdict := validator.Validate(delta.firstUpdateId, delta.finalUpdateId);
      match verdict {
        case Apply =>
          book.ApplyDelta(delta);
          replayed := replayed + 1;
        case Discard =>
          discarded := discarded + 1;
        case Gap(expected, actual, _) =>
          return Failure(GapInReplay(expected, actual));
        case Buffering =>
          discarded := discarded + 1;
      }
    }
    book.MarkRecovered();
    return Success(RecoveryOutcome(snapshotId, replayed, discarded));
  }

  method ApplyFuturesSnapshot(snap: BookSnapshot, book: OrderBook, validator: FuturesSequenceValidator,
                              buf: RecoveryBuffer)
    returns (result: Result<RecoveryOutcome, GapInReplay>)
    requires buf.Valid()
    modifies book, validator, buf
    ensures Recovered(book.View(), validator.state, result)
         == Recover(FuturesVenue, snap, old(book.View()), old(buf.events))
    ensures buf.Valid() && buf.View() == EMPTY
  {
    var snapshotId := snap.updateId;
    book.ApplySnapshot(snap);
    validator.OnSnapshot(snapshotId);
    var candidates := buf.DrainAfter(snapshotId);
    ghost var goal := Replay(FuturesVenue, snapshotId, book.View(), validator.state, candidates, 0, 0);
    var replayed, discarded := 0, 0;
    for i := 0 to |candidates|
      modifies book, validator
      invariant replayed >= 0 && discarded >= 0
      invariant goal == Replay(FuturesVenue, snapshotId, book.View(), validator.state, candidates[i..], replayed, discarded)
    {
      var delta := candidates[i].delta;
      assert candidates[i..][0] == candidates[i] && candidates[i..][1..] == candidates[i + 1..];
      var verdict := validator.Validate(delta.firstUpdateId, delta.finalUpdateId, delta.prevUpdateId);
      match verdict {
        case Apply =>
          book.ApplyDelta(delta);
          replayed := replayed + 1;
        case Discard =>
          discarded := discarded + 1;
        case Gap(expectedPu, actualPu, _) =>
          return Failure(GapInReplay(expectedPu, actualPu));
        case Buffering =>
          discarded := discarded + 1;
      }
    }
    book.MarkRecovered();
    return Success(RecoveryOutcome(snapshotId, replayed, discarded));
  }

  // --- Tracking the exchange -------------------------------------------------

  // The last update id before the span a delta speaks for.
  function SpanStart(venue: Venue, delta: BookDelta): int {
    match venue
    case SpotVenue => delta.firstUpdateId - 1
    case FuturesVenue => delta.prevUpdateId
  }

  // An exchange event reports every price changed since its predecessor. The exchange
  // numbers updates from 1.
  ghost predicate HonestDelta(venue: Venue, h: History, delta: BookDelta) {
    && 0 <= SpanStart(venue, delta) < delta.firstUpdateId <= delta.finalUpdateId
    && HonestSpan(h, delta, SpanStart(venue, delta))
  }

  // Once a snapshot was seen, the book shows the exchange's book at the validator's position.
  ghost predicate InSync(venue: Venue, h: History, cover: Cover, book: Book, state: ValidationState) {
    state.AwaitingSnapshot? || Shows(h, cover, book, LastValidId(state).value)
  }

  // The cover after judging a delta: applying it widens the cover, nothing else changes it.
  ghost function JudgedCover(venue: Venue, state: ValidationState, delta: BookDelta, cover: Cover): Cover {
    if Judge(venue, state, delta).result.Apply? then Widened(cover, delta) else cover
  }

  ghost function ReplayCover(venue: Venue, state: ValidationState, events: seq<BufferedDelta>, cover: Cover): Cover
    decreases |events|
  {
    if events == [] then cover
    else
      var judged := Judge(venue, state, events[0].delta);
      if judged.result.Gap? then cover
      else ReplayCover(venue, judged.state, events[1..], JudgedCover(venue, state, events[0].delta, cover))
  }

  // The validators' rules are sound: an accepted delta always starts at or before the current
  // position and ends after it, so it leads to the exchange's book at its final id; a refused
  // delta leaves the position alone.
  lemma {:induction false} JudgeTracks(venue: Venue, h: History, cover: Cover, book: Book, state: ValidationState,
                                       delta: BookDelta)
    requires WellFormed(h) && HonestDelta(venue, h, delta)
    requires InSync(venue, h, cover, book, state)
    ensures var judged := Judge(venue, state, delta);
            var after := if judged.result.Apply? then Updated(book, delta) else book;
            && InSync(venue, h, JudgedCover(venue, state, delta, cover), after, judged.state)
            && (judged.state.AwaitingSnapshot? <==> state.AwaitingSnapshot?)
            && (judged.state.Stale? <==> state.Stale? || judged.result.Gap?)
  {
    var judged := Judge(venue, state, delta);
    if judged.result.Apply? {
      Advance(h, cover, book, LastValidId(state).value, delta, SpanStart(venue, delta));
    }
  }

  lemma {:induction false} ReplayTracks(venue: Venue, h: History, cover: Cover, snapshotId: u64, book: Book,
                                        state: ValidationState, events: seq<BufferedDelta>,
                                        replayed: nat, discarded: nat)
    requires WellFormed(h)
    requires forall e | e in events :: HonestDelta(venue, h, e.delta)
    requires !state.AwaitingSnapshot? && InSync(venue, h, cover, book, state)
    ensures var r := Replay(venue, snapshotId, book, state, events, replayed, discarded);
            && InSync(venue, h, ReplayCover(venue, state, events, cover), r.book, r.state)
            && !r.state.AwaitingSnapshot?
            && (r.state.Stale? <==> state.Stale? || r.result.Failure?)
            && r.book.stale == (r.result.Failure? && book.stale)
    decreases |events|
  {
    if events != [] {
      var delta := events[0].delta;
      var judged := Judge(venue, state, delta);
      JudgeTracks(venue, h, cover, book, state, delta);
      var cover' := JudgedCover(venue, state, delta, cover);
      match judged.result
      case Apply =>
        ReplayTracks(venue, h, cover', snapshotId, Updated(book, delta), judged.state, events[1..],
                     replayed + 1, discarded);
      case Discard =>
        ReplayTracks(venue, h, cover', snapshotId, book, judged.state, events[1..], replayed, discarded + 1);
      case Gap(_, _, _) =>
      case Buffering =>
        ReplayTracks(venue, h, cover', snapshotId, book, judged.state, events[1..], replayed, discarded + 1);
    }
  }

  // --- What makes a replay gap -----------------------------------------------

  // The id a spot validator expects next, by wrapping addition.
  function OneAfter(last: u64): u64 {
    if last == U64_MAX then 0 else last + 1
  }

  lemma {:induction false} OneAfterWraps(last: u64)
    ensures OneAfter(last) == WrapU64(last + 1)
  {
  }

  predicate Follows(venue: Venue, last: u64, delta: BookDelta) {
    match venue
    case SpotVenue => delta.firstUpdateId == OneAfter(last)
    case FuturesVenue => delta.prevUpdateId == last
  }

  // Picking a chain of deltas out of a buffer: the first reaches back to the snapshot, each later
  // one follows the one picked before it. The end of the chain is its last final id.
  function Picked(venue: Venue, snapshotId: u64, end: Option<u64>, delta: BookDelta): Option<u64> {
    match end
    case None =>
      if delta.firstUpdateId <= snapshotId + 1 && delta.finalUpdateId > snapshotId then Some(delta.finalUpdateId)
      else None
    case Some(last) => if Follows(venue, last, delta) then Some(delta.finalUpdateId) else end
  }

  function ChainEnd(venue: Venue, snapshotId: u64, end: Option<u64>, events: seq<BufferedDelta>): Option<u64>
    decreases |events|
  {
    if events == [] then end
    else ChainEnd(venue, snapshotId, Picked(venue, snapshotId, end, events[0].delta), events[1..])
  }

  // A delta that starts beyond the end of the chain, or beyond the snapshot when there is none.
  predicate Ahead(venue: Venue, snapshotId: u64, end: Option<u64>, delta: BookDelta) {
    match end
    case None => delta.firstUpdateId > snapshotId + 1 && delta.finalUpdateId > snapshotId
    case Some(last) =>
      match venue
      case SpotVenue => delta.firstUpdateId > OneAfter(last)
      case FuturesVenue => delta.prevUpdateId > last
  }

  ghost predicate SkipsAhead(venue: Venue, snapshotId: u64, end: Option<u64>, events: seq<BufferedDelta>) {
    exists i :: 0 <= i < |events|
      && Ahead(venue, snapshotId, ChainEnd(venue, snapshotId, end, events[..i]), events[i].delta)
  }

  lemma {:induction false} SkipsAheadAtHead(venue: Venue, snapshotId: u64, end: Option<u64>, events: seq<BufferedDelta>)
    requires events != []
    ensures SkipsAhead(venue, snapshotId, end, events)
       <==> Ahead(venue, snapshotId, end, events[0].delta)
            || SkipsAhead(venue, snapshotId, Picked(venue, snapshotId, end, events[0].delta), events[1..])
  {
    var next, rest := Picked(venue, snapshotId, end, events[0].delta), events[1..];
    forall i | 0 <= i < |rest|
      ensures ChainEnd(venue, snapshotId, end, events[..i + 1]) == ChainEnd(venue, snapshotId, next, rest[..i])
      ensures events[i + 1] == rest[i]
    {
      assert events[..i + 1][0] == events[0] && events[..i + 1][1..] == rest[..i];
    }
    if Ahead(venue, snapshotId, end, events[0].delta) {
      assert events[..0] == [];
    }
    if SkipsAhead(venue, snapshotId, next, rest) {
      var i :| 0 <= i < |rest| && Ahead(venue, snapshotId, ChainEnd(venue, snapshotId, next, rest[..i]), rest[i].delta);
      assert Ahead(venue, snapshotId, ChainEnd(venue, snapshotId, end, events[..i + 1]), events[i + 1].delta);
    }
    if i :| 0 <= i < |events| && Ahead(venue, snapshotId, ChainEnd(venue, snapshotId, end, events[..i]), events[i].delta) {
      if i == 0 {
        assert events[..0] == [];
      } else {
        assert events[..(i - 1) + 1] == events[..i] && rest[i - 1] == events[i];
      }
    }
  }

  function StateAt(snapshotId: u64, end: Option<u64>): ValidationState {
    match end case None => Bridging(snapshotId) case Some(last) => Active(last)
  }

  // A replay meets a gap exactly when some delta starts beyond the chain picked before it.
  lemma {:induction false} ReplayGapsIff(venue: Venue, snapshotId: u64, book: Book, end: Option<u64>,
                                         events: seq<BufferedDelta>, replayed: nat, discarded: nat)
    ensures var r := Replay(venue, snapshotId, book, StateAt(snapshotId, end), events, replayed, discarded);
            && (r.result.Failure? <==> SkipsAhead(venue, snapshotId, end, events))
            && (r.state.Stale? <==> r.result.Failure?)
            && r.book.stale == (r.result.Failure? && book.stale)
    decreases |events|
  {
    if events != [] {
      var delta := events[0].delta;
      var judged, next := Judge(venue, StateAt(snapshotId, end), delta), Picked(venue, snapshotId, end, delta);
      SkipsAheadAtHead(venue, snapshotId, end, events);
      JudgeGapsIff(venue, snapshotId, end, delta);
      match judged.result
      case Apply =>
        ReplayGapsIff(venue, snapshotId, Updated(book, delta), next, events[1..], replayed + 1, discarded);
      case Discard =>
        ReplayGapsIff(venue, snapshotId, book, next, events[1..], replayed, discarded + 1);
      case Gap(_, _, _) =>
    }
  }

  lemma {:induction false} JudgeGapsIff(venue: Venue, snapshotId: u64, end: Option<u64>, delta: BookDelta)
    ensures var judged := Judge(venue, StateAt(snapshotId, end), delta);
            && !judged.result.Buffering?
            && (judged.result.Gap? <==> Ahead(venue, snapshotId, end, delta))
            && (if judged.result.Gap? then judged.state.Stale?
                else judged.state == StateAt(snapshotId, Picked(venue, snapshotId, end, delta)))
  {
    if end.Some? {
      OneAfterWraps(end.value);
    }
  }

  // --- What a replay reports -------------------------------------------------

  predicate Picks(venue: Venue, snapshotId: u64, end: Option<u64>, delta: BookDelta) {
    match end
    case None => delta.firstUpdateId <= snapshotId + 1 && delta.finalUpdateId > snapshotId
    case Some(last) => Follows(venue, last, delta)
  }

  // How many deltas the chain takes.
  function PickCount(venue: Venue, snapshotId: u64, end: Option<u64>, events: seq<BufferedDelta>): nat
    decreases |events|
  {
    if events == [] then 0
    else
      (if Picks(venue, snapshotId, end, events[0].delta) then 1 else 0)
      + PickCount(venue, snapshotId, Picked(venue, snapshotId, end, events[0].delta), events[1..])
  }

  // The last id a replay stands on.
  function PositionAt(snapshotId: u64, end: Option<u64>): u64 {
    match end case None => snapshotId case Some(last) => last
  }

  // What a delta beyond the chain shows to be missing: on spot the ids from the expected one up to
  // its own first, on futures the link from the position to the id it follows.
  predicate NamesGap(venue: Venue, snapshotId: u64, end: Option<u64>, delta: BookDelta, expected: u64, actual: u64) {
    match venue
    case SpotVenue => expected == OneAfter(PositionAt(snapshotId, end)) && actual == delta.firstUpdateId
    case FuturesVenue => expected == PositionAt(snapshotId, end) && actual == delta.prevUpdateId
  }

  // A gap names the position it was found at and what is missing there.
  lemma {:induction false} GapIsNamed(venue: Venue, snapshotId: u64, end: Option<u64>, delta: BookDelta)
    requires Judge(venue, StateAt(snapshotId, end), delta).result.Gap?
    ensures var judged := Judge(venue, StateAt(snapshotId, end), delta);
            && judged.result.lastValid == PositionAt(snapshotId, end)
            && judged.state == Stale(PositionAt(snapshotId, end))
            && NamesGap(venue, snapshotId, end, delta, judged.result.expected, judged.result.actual)
            && (venue.SpotVenue? ==> judged.result.expected < judged.result.actual)
  {
    if end.Some? {
      OneAfterWraps(end.value);
    }
  }

  // A validator asks to hold a delta exactly while it waits for a snapshot, on both venues.
  lemma {:induction false} BuffersIff(venue: Venue, state: ValidationState, delta: BookDelta)
    ensures Judge(venue, state, delta).result.Buffering? <==> state.AwaitingSnapshot? || state.Stale?
    ensures Judge(venue, state, delta).result.Buffering? ==> Judge(venue, state, delta).state == state
  {
  }

  lemma {:induction false} AppliesIff(venue: Venue, snapshotId: u64, end: Option<u64>, delta: BookDelta)
    ensures Judge(venue, StateAt(snapshotId, end), delta).result.Apply? <==> Picks(venue, snapshotId, end, delta)
  {
    if end.Some? {
      OneAfterWraps(end.value);
    }
  }

  // A replay without a gap counts the chain as replayed and the rest as discarded, and ends on the
  // chain's last id with the flag and its reason cleared.
  lemma {:induction false} ReplayCounts(venue: Venue, snapshotId: u64, book: Book, end: Option<u64>,
                                        events: seq<BufferedDelta>, replayed: nat, discarded: nat)
    ensures var r := Replay(venue, snapshotId, book, StateAt(snapshotId, end), events, replayed, discarded);
            var picks := PickCount(venue, snapshotId, end, events);
            r.result.Success? ==>
              && picks <= |events|
              && r.result.value == RecoveryOutcome(snapshotId, replayed + picks, discarded + (|events| - picks))
              && r.state == StateAt(snapshotId, ChainEnd(venue, snapshotId, end, events))
              && !r.book.stale && r.book.staleReason.None?
    decreases |events|
  {
    if events != [] {
      var delta := events[0].delta;
      var judged, next := Judge(venue, StateAt(snapshotId, end), delta), Picked(venue, snapshotId, end, delta);
      JudgeGapsIff(venue, snapshotId, end, delta);
      AppliesIff(venue, snapshotId, end, delta);
      match judged.result
      case Apply =>
        ReplayCounts(venue, snapshotId, Updated(book, delta), next, events[1..], replayed + 1, discarded);
      case Discard =>
        ReplayCounts(venue, snapshotId, book, next, events[1..], replayed, discarded + 1);
      case Gap(_, _, _) =>
    }
  }

  // A replay with one fails at the first delta beyond the chain, names what is missing there, and
  // leaves the validator stale at the position it had reached.
  lemma {:induction false} ReplayFailsAtFirst(venue: Venue, snapshotId: u64, book: Book, end: Option<u64>,
                                              events: seq<BufferedDelta>, replayed: nat, discarded: nat)
    returns (i: nat)
    requires Replay(venue, snapshotId, book, StateAt(snapshotId, end), events, replayed, discarded).result.Failure?
    ensures i < |events| && AheadAt(venue, snapshotId, end, events, i)
    ensures forall j | 0 <= j < i :: !AheadAt(venue, snapshotId, end, events, j)
    ensures var r := Replay(venue, snapshotId, book, StateAt(snapshotId, end), events, replayed, discarded);
            var at := ChainEnd(venue, snapshotId, end, events[..i]);
            && r.state == Stale(PositionAt(snapshotId, at))
            && NamesGap(venue, snapshotId, at, events[i].delta, r.result.error.expected, r.result.error.actual)
    decreases |events|
  {
    var delta := events[0].delta;
    var judged, next := Judge(venue, StateAt(snapshotId, end), delta), Picked(venue, snapshotId, end, delta);
    JudgeGapsIff(venue, snapshotId, end, delta);
    if judged.result.Gap? {
      i := 0;
      assert events[..0] == [];
      GapIsNamed(venue, snapshotId, end, delta);
    } else {
      var applied := judged.result.Apply?;
      var k := ReplayFailsAtFirst(venue, snapshotId, if applied then Updated(book, delta) else book, next, events[1..],
                                  if applied then replayed + 1 else replayed,
                                  if applied then discarded else discarded + 1);
      i := k + 1;
      ChainAtShift(venue, snapshotId, end, events, k);
      forall j | 0 <= j < i
        ensures !AheadAt(venue, snapshotId, end, events, j)
      {
        if j == 0 {
          assert events[..0] == [];
        } else {
          ChainAtShift(venue, snapshotId, end, events, j - 1);
        }
      }
    }
  }

  predicate AheadAt(venue: Venue, snapshotId: u64, end: Option<u64>, events: seq<BufferedDelta>, i: nat)
    requires i < |events|
  {
    Ahead(venue, snapshotId, ChainEnd(venue, snapshotId, end, events[..i]), events[i].delta)
  }

  lemma {:induction false} ChainAtShift(venue: Venue, snapshotId: u64, end: Option<u64>, events: seq<BufferedDelta>,
                                        k: nat)
    requires k + 1 < |events|
    ensures var next := Picked(venue, snapshotId, end, events[0].delta);
            && ChainEnd(venue, snapshotId, end, events[..k + 1]) == ChainEnd(venue, snapshotId, next, events[1..][..k])
            && events[k + 1] == events[1..][k]
            && (AheadAt(venue, snapshotId, end, events, k + 1) <==> AheadAt(venue, snapshotId, next, events[1..], k))
  {
    assert events[..k + 1][0] == events[0] && events[..k + 1][1..] == events[1..][..k];
  }

  // Recovery never leaves a stale validator behind a book that looks live.
  predicate KeepsFlag(venue: Venue, snap: BookSnapshot, book: Book, events: seq<BufferedDelta>) {
    var r := Recover(venue, snap, book, events);
    r.state.Stale? ==> r.book.stale
  }

  // For any buffer: a recovery fails exactly when a candidate starts beyond the chain before it, and
  // it keeps the flag honest exactly when that is not so or the book was flagged before the call.
  lemma {:induction false} FlagIsKeptIff(venue: Venue, snap: BookSnapshot, book: Book, events: seq<BufferedDelta>)
    ensures var skips := SkipsAhead(venue, snap.updateId, None, After(events, snap.updateId));
            && (Recover(venue, snap, book, events).result.Failure? <==> skips)
            && (KeepsFlag(venue, snap, book, events) <==> book.stale || !skips)
  {
    ReplayGapsIff(venue, snap.updateId, Snapshotted(book, snap), None, After(events, snap.updateId), 0, 0);
  }

  // Recovery always ends in sync, also when it returns early with GapInReplay; a validator left
  // Stale means a book left flagged exactly when the book was flagged before or no candidate
  // skips ahead.
  lemma {:induction false} RecoverTracks(venue: Venue, h: History, snap: BookSnapshot, snapCover: Cover, book: Book,
                      events: seq<BufferedDelta>)
    requires WellFormed(h) && HonestSnapshot(h, snap, snapCover)
    requires forall e | e in events :: HonestDelta(venue, h, e.delta)
    ensures var r := Recover(venue, snap, book, events);
            && InSync(venue, h, RecoverCover(venue, snap, events, snapCover), r.book, r.state)
            && !r.state.AwaitingSnapshot?
            && (r.state.Stale? <==> r.result.Failure?)
            && r.book.stale == (r.result.Failure? && book.stale)
            && ((r.state.Stale? ==> r.book.stale) <==>
                  book.stale || !SkipsAhead(venue, snap.updateId, None, After(events, snap.updateId)))
  {
    AfterKeeps(events, snap.updateId);
    SnapshotShows(h, snap, snapCover, book);
    ReplayTracks(venue, h, snapCover, snap.updateId, Snapshotted(book, snap), Bridging(snap.updateId),
                 After(events, snap.updateId), 0, 0);
    FlagIsKeptIff(venue, snap, book, events);
  }

  ghost function RecoverCover(venue: Venue, snap: BookSnapshot, events: seq<BufferedDelta>, snapCover: Cover): Cover {
    ReplayCover(venue, Bridging(snap.updateId), After(events, snap.updateId), snapCover)
  }

  // --- When recovery succeeds ------------------------------------------------

  // A buffered run with no event missing.
  ghost predicate Contiguous(venue: Venue, events: seq<BufferedDelta>) {
    && (forall i | 0 <= i < |events| ::
          0 <= SpanStart(venue, events[i].delta) < events[i].delta.firstUpdateId <= events[i].delta.finalUpdateId)
    && (forall i | 0 < i < |events| :: Follows(venue, events[i - 1].delta.finalUpdateId, events[i].delta))
  }

  // The candidates of a contiguous run are its tail after the last event the snapshot contains.
  lemma {:induction false} AfterSnoc(front: seq<BufferedDelta>, last: BufferedDelta, snapshotId: u64)
    ensures After(front + [last], snapshotId)
         == After(front, snapshotId) + if last.delta.finalUpdateId > snapshotId then [last] else []
  {
    assert (front + [last])[..|front|] == front;
  }

  lemma {:induction false} ContiguousFront(venue: Venue, events: seq<BufferedDelta>)
    requires Contiguous(venue, events) && events != []
    ensures Contiguous(venue, events[..|events| - 1])
    ensures |events| > 1 ==> Follows(venue, events[|events| - 2].delta.finalUpdateId, events[|events| - 1].delta)
  {
    var before := events[..|events| - 1];
    forall i | 0 < i < |before|
      ensures Follows(venue, before[i - 1].delta.finalUpdateId, before[i].delta)
    {
      assert Follows(venue, events[i - 1].delta.finalUpdateId, events[i].delta);
    }
  }

  lemma {:induction false} TailSnoc<T>(front: seq<T>, last: T, j: nat)
    requires j <= |front|
    ensures (front + [last])[j..] == front[j..] + [last]
    ensures j < |front| ==> (front + [last])[j] == front[j]
    ensures j > 0 ==> (front + [last])[j - 1] == front[j - 1]
  {
  }

  // Where the candidates begin.
  predicate StartsAt(events: seq<BufferedDelta>, snapshotId: u64, j: nat) {
    && j <= |events| && After(events, snapshotId) == events[j..]
    && (j > 0 ==> events[j - 1].delta.finalUpdateId <= snapshotId)
    && (j < |events| ==> events[j].delta.finalUpdateId > snapshotId)
  }

  lemma {:induction false} StartsGrow(front: seq<BufferedDelta>, last: BufferedDelta, snapshotId: u64, j: nat)
    requires StartsAt(front, snapshotId, j) && (j < |front| ==> last.delta.finalUpdateId > snapshotId)
    ensures StartsAt(front + [last], snapshotId, if last.delta.finalUpdateId > snapshotId then j else |front| + 1)
  {
    AfterSnoc(front, last, snapshotId);
    TailSnoc(front, last, j);
    assert (front + [last])[|front| + 1..] == [];
  }

  lemma {:induction false} CandidatesAreTail(venue: Venue, events: seq<BufferedDelta>, snapshotId: u64) returns (j: nat)
    requires Contiguous(venue, events)
    ensures StartsAt(events, snapshotId, j)
  {
    j := 0;
    if events != [] {
      var front, last := events[..|events| - 1], events[|events| - 1];
      ContiguousFront(venue, events);
      j := CandidatesAreTail(venue, front, snapshotId);
      if j < |front| {
        FinalsIncrease(venue, events, j, |front|);
      }
      StartsGrow(front, last, snapshotId, j);
      assert events == front + [last];
      j := if last.delta.finalUpdateId > snapshotId then j else |events|;
    }
  }

  lemma {:induction false} FinalsIncrease(venue: Venue, events: seq<BufferedDelta>, i: nat, j: nat)
    requires Contiguous(venue, events) && i <= j < |events|
    ensures events[i].delta.finalUpdateId <= events[j].delta.finalUpdateId
    decreases j
  {
    if i < j {
      FinalsIncrease(venue, events, i, j - 1);
      assert Follows(venue, events[j - 1].delta.finalUpdateId, events[j].delta);
    }
  }

  lemma {:induction false} ChainReplays(venue: Venue, snapshotId: u64, book: Book, last: u64,
                                        events: seq<BufferedDelta>, replayed: nat, discarded: nat)
    requires Contiguous(venue, events)
    requires events != [] ==> Follows(venue, last, events[0].delta)
    ensures var r := Replay(venue, snapshotId, book, Active(last), events, replayed, discarded);
            && r.result == Success(RecoveryOutcome(snapshotId, replayed + |events|, discarded))
            && r.state == Active(if events == [] then last else events[|events| - 1].delta.finalUpdateId)
            && !r.book.stale
    decreases |events|
  {
    if events != [] {
      var delta := events[0].delta;
      OneAfterWraps(last);
      ChainReplays(venue, snapshotId, Updated(book, delta), delta.finalUpdateId, events[1..], replayed + 1, discarded);
    }
  }

  lemma {:induction false} TailReplays(venue: Venue, snapshotId: u64, book: Book, tail: seq<BufferedDelta>)
    requires Contiguous(venue, tail)
    requires tail != [] ==> snapshotId < tail[0].delta.finalUpdateId
    ensures var r := Replay(venue, snapshotId, book, Bridging(snapshotId), tail, 0, 0);
            && (r.result.Success? <==> tail == [] || tail[0].delta.firstUpdateId <= snapshotId + 1)
            && (r.result.Success? ==>
                  && r.result.value == RecoveryOutcome(snapshotId, |tail|, 0)
                  && !r.book.stale
                  && LastValidId(r.state) == Some(if tail == [] then snapshotId else tail[|tail| - 1].delta.finalUpdateId))
            && (r.result.Failure? ==> r.state == Stale(snapshotId) && r.book == book)
  {
    if tail != [] && tail[0].delta.firstUpdateId <= snapshotId + 1 {
      var delta := tail[0].delta;
      ChainReplays(venue, snapshotId, Updated(book, delta), delta.finalUpdateId, tail[1..], 1, 0);
    }
  }

  // Recovery from a buffer with no event missing succeeds exactly when the first event the
  // snapshot does not contain bridges it; then every such event is replayed and none dropped.
  lemma {:induction false} RecoverSucceedsIff(venue: Venue, snap: BookSnapshot, book: Book, events: seq<BufferedDelta>)
    requires Contiguous(venue, events)
    ensures var s := snap.updateId;
            var tail := After(events, s);
            var r := Recover(venue, snap, book, events);
            && (r.result.Success? <==> tail == [] || tail[0].delta.firstUpdateId <= s + 1)
            && (r.result.Success? ==>
                  && r.result.value == RecoveryOutcome(s, |tail|, 0)
                  && !r.book.stale
                  && LastValidId(r.state) == Some(if tail == [] then s else events[|events| - 1].delta.finalUpdateId))
            && (r.result.Failure? ==> r.state == Stale(s) && r.book == Snapshotted(book, snap))
  {
    var j := CandidatesAreTail(venue, events, snap.updateId);
    TailIsContiguous(venue, events, j);
    TailReplays(venue, snap.updateId, Snapshotted(book, snap), events[j..]);
  }

  lemma {:induction false} TailIsContiguous(venue: Venue, events: seq<BufferedDelta>, j: nat)
    requires Contiguous(venue, events) && j <= |events|
    ensures Contiguous(venue, events[j..])
  {
    var tail := events[j..];
    forall i | 0 < i < |tail|
      ensures Follows(venue, tail[i - 1].delta.finalUpdateId, tail[i].delta)
    {
      assert Follows(venue, events[j + i - 1].delta.finalUpdateId, events[j + i].delta);
    }
  }

  // On spot, where ids are dense, that is a condition on the oldest buffered event alone.
  lemma {:induction false} SpotRecoverSucceedsIff(snap: BookSnapshot, book: Book, events: seq<BufferedDelta>)
    requires Contiguous(SpotVenue, events)
    ensures Recover(SpotVenue, snap, book, events).result.Success?
       <==> events == [] || events[0].delta.firstUpdateId <= snap.updateId + 1
  {
    var s := snap.updateId;
    RecoverSucceedsIff(SpotVenue, snap, book, events);
    var j := CandidatesAreTail(SpotVenue, events, s);
    if 0 < j < |events| {
      assert Follows(SpotVenue, events[j - 1].delta.finalUpdateId, events[j].delta);
    }
    if 0 < j {
      FinalsIncrease(SpotVenue, events, 0, j - 1);
    }
  }

  // With no event missing that is a condition on the first candidate alone.
  lemma {:induction false} ContiguousFlagIsKeptIff(venue: Venue, snap: BookSnapshot, book: Book,
                                                   events: seq<BufferedDelta>)
    requires Contiguous(venue, events)
    ensures var tail := After(events, snap.updateId);
            KeepsFlag(venue, snap, book, events)
            <==> book.stale || tail == [] || tail[0].delta.firstUpdateId <= snap.updateId + 1
  {
    RecoverSucceedsIff(venue, snap, book, events);
    FlagIsKeptIff(venue, snap, book, events);
  }

  lemma {:induction false} LoneEventSkips(venue: Venue, snap: BookSnapshot, book: Book, event: BufferedDelta)
    requires snap.updateId + 1 < event.delta.firstUpdateId <= event.delta.finalUpdateId
    requires 0 <= SpanStart(venue, event.delta) < event.delta.firstUpdateId && !book.stale
    ensures Contiguous(venue, [event]) && !KeepsFlag(venue, snap, book, [event])
  {
    assert [event][..0] == [] && After([event], snap.updateId) == [event];
    ContiguousFlagIsKeptIff(venue, snap, book, [event]);
  }

  lemma {:induction false} UnflaggedBookCanMissIt(venue: Venue, book: Book) returns (snap: BookSnapshot,
                                                  events: seq<BufferedDelta>)
    requires !book.stale
    ensures Contiguous(venue, events) && !KeepsFlag(venue, snap, book, events)
  {
    snap := BookSnapshot([], 0, 0, 1, [], []);
    var event := BufferedDelta(BookDelta([], 0, 0, 3, 3, 2, [], []), 0, 0);
    LoneEventSkips(venue, snap, book, event);
    events := [event];
  }

  // A caller who cannot look into the buffer is safe exactly with a flagged book: on an unflagged
  // one some snapshot and some gapless buffer lose the flag.
  lemma {:induction false} FlaggedBooksAreSafeIff(venue: Venue, book: Book)
    ensures book.stale
       <==> forall snap: BookSnapshot, events: seq<BufferedDelta> | Contiguous(venue, events) ::
              KeepsFlag(venue, snap, book, events)
  {
    if book.stale {
      forall snap: BookSnapshot, events: seq<BufferedDelta> | Contiguous(venue, events)
        ensures KeepsFlag(venue, snap, book, events)
      {
        ContiguousFlagIsKeptIff(venue, snap, book, events);
      }
    } else {
      var _, _ := UnflaggedBookCanMissIt(venue, book);
    }
  }
}
