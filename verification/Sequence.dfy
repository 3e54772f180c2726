/**
 * The two depth-update sequence validators. They share their states and their
 * verdicts; the spot rules read U and u, the futures rules read U, u and pu.
 */
module Sequence {
  import opened Integers
  import opened Wrappers

  datatype ValidationState =
    | AwaitingSnapshot
    | Bridging(snapshotId: u64)
    | Active(lastFinal: u64)
    | Stale(lastValid: u64)

  // A gap carries first-update-ids on spot and pu values on futures.
  datatype ValidateResult =
    | Apply
    | Discard
    | Gap(expected: u64, actual: u64, lastValid: u64)
    | Buffering

  datatype Validated = Validated(state: ValidationState, result: ValidateResult)

  function ValidateSpot(state: ValidationState, first: u64, final: u64): Validated {
    match state
    case AwaitingSnapshot => Validated(state, Buffering)
    case Bridging(snapshotId) =>
      if final <= snapshotId then Validated(state, Discard)
      else if first <= snapshotId + 1 then Validated(Active(final), Apply)
      else Validated(Stale(snapshotId), Gap(snapshotId + 1, first, snapshotId))
    case Active(lastFinal) =>
      var expected := WrapU64(lastFinal + 1);
      if first == expected then Validated(Active(final), Apply)
      else if first > expected then Validated(Stale(lastFinal), Gap(expected, first, lastFinal))
      else Validated(state, Discard)
    case Stale(_) => Validated(state, Buffering)
  }

  function ValidateFutures(state: ValidationState, first: u64, final: u64, prevFinal: u64): Validated {
    match state
    case AwaitingSnapshot => Validated(state, Buffering)
    case Bridging(snapshotId) =>
      if final <= snapshotId then Validated(state, Discard)
      else if first <= snapshotId + 1 then Validated(Active(final), Apply)
      else Validated(Stale(snapshotId), Gap(snapshotId, prevFinal, snapshotId))
    case Active(lastFinal) =>
      if prevFinal == lastFinal then Validated(Active(final), Apply)
      else if prevFinal < lastFinal then Validated(state, Discard)
      else Validated(Stale(lastFinal), Gap(lastFinal, prevFinal, lastFinal))
    case Stale(_) => Validated(state, Buffering)
  }

  function LastValidId(state: ValidationState): Option<u64> {
    match state
    case AwaitingSnapshot => None
    case Bridging(snapshotId) => Some(snapshotId)
    case Active(lastFinal) => Some(lastFinal)
    case Stale(lastValid) => Some(lastValid)
  }

  class SequenceValidator {
    var state: ValidationState

    constructor ()
      ensures state == AwaitingSnapshot
    {
      state := AwaitingSnapshot;
    }

    method OnSnapshot(lastUpdateId: u64)
      modifies this
      ensures state == Bridging(lastUpdateId)
    {
      state := Bridging(lastUpdateId);
    }

    method Validate(first: u64, final: u64) returns (result: ValidateResult)
      modifies this
      ensures Validated(state, result) == ValidateSpot(old(state), first, final)
    {
      match state {
        case AwaitingSnapshot =>
          result := Buffering;
        case Bridging(snapshotId) =>
          if final <= snapshotId {
            result := Discard;
          } else if first <= snapshotId + 1 {
            state := Active(final);
            result := Apply;
          } else {
            state := Stale(snapshotId);
            result := Gap(snapshotId + 1, first, snapshotId);
          }
        case Active(lastFinal) =>
          var expected := WrapU64(lastFinal + 1);
          if first == expected {
            state := Active(final);
            result := Apply;
          } else if first > expected {
            state := Stale(lastFinal);
            result := Gap(expected, first, lastFinal);
          } else {
            result := Discard;
          }
        case Stale(_) =>
          result := Buffering;
      }
    }

    method Reset()
      modifies this
      ensures state == AwaitingSnapshot
    {
      state := AwaitingSnapshot;
    }
  }

  class FuturesSequenceValidator {
    var state: ValidationState

    constructor ()
      ensures state == AwaitingSnapshot
    {
      state := AwaitingSnapshot;
    }

    method OnSnapshot(lastUpdateId: u64)
      modifies this
      ensures state == Bridging(lastUpdateId)
    {
      state := Bridging(lastUpdateId);
    }

    method Validate(first: u64, final: u64, prevFinal: u64) returns (result: ValidateResult)
      modifies this
      ensures Validated(state, result) == ValidateFutures(old(state), first, final, prevFinal)
    {
      match state {
        case AwaitingSnapshot =>
          result := Buffering;
        case Bridging(snapshotId) =>
          if final <= snapshotId {
            result := Discard;
          } else if first <= snapshotId + 1 {
            state := Active(final);
            result := Apply;
          } else {
            state := Stale(snapshotId);
            result := Gap(snapshotId, prevFinal, snapshotId);
          }
        case Active(lastFinal) =>
          if prevFinal == lastFinal {
            state := Active(final);
            result := Apply;
          } else if prevFinal < lastFinal {
            result := Discard;
          } else {
            state := Stale(lastFinal);
            result := Gap(lastFinal, prevFinal, lastFinal);
          }
        case Stale(_) =>
          result := Buffering;
      }
    }

    method Reset()
      modifies this
      ensures state == AwaitingSnapshot
    {
      state := AwaitingSnapshot;
    }
  }
}
