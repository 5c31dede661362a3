/** The retry loop of the pooled client (src/client/client.rs) over HTTP/1 connections. */
module Retry {
  import opened Bytes
  import opened Exchange
  import Dispatch

  /** How one turn of `send_request` ends: with a response, with an error, or with the request back,
      on a connection that was or was not reused. */
  datatype Turn = Answered | Normal | Canceled(connectionReused: bool)

  /** `ClientError::map_with_reused`. */
  function MapWithReused(requestBack: bool, reused: bool): Turn {
    if requestBack then Canceled(reused) else Normal
  }

  function Occurrences(ids: seq<nat>, id: nat): nat {
    if ids == [] then 0 else (if ids[0] == id then 1 else 0) + Occurrences(ids[1..], id)
  }

  lemma {:induction false} OccurrencesInIncreasing(ids: seq<nat>, id: nat)
    requires Dispatch.Increasing(ids)
    ensures Occurrences(ids, id) == if id in ids then 1 else 0
  {
    if ids != [] {
      OccurrencesInIncreasing(ids[1..], id);
    }
  }

  /** How the turn of a request that was given to a connection ends, if it does. */
  function TurnOf(settled: Dispatch.Settled, id: nat, reused: bool): Option<Turn> {
    if id in settled.answered then Some(Answered)
    else if id in settled.returned then Some(MapWithReused(true, reused))
    else if id in settled.failed then Some(MapWithReused(false, reused))
    else None
  }

  /** What finding a connection can come to: none, a pooled one that has closed, one that refuses the
      request at once, or one that takes it as its `id`th, in a run of so many polls. */
  datatype Connected =
    | ConnectFails
    | CheckoutClosed
    | Refuses(reused: bool)
    | Takes(reused: bool, id: nat, wire: seq<byte>, polls: nat)

  /** `send_request`: find a connection and put the request on it. `heads` counts how often the head of
      the request is then written. Only a request that comes back can be tried again, and the turn says
      whether the connection had been used before. */
  method SendRequest(found: Connected) returns (turn: Option<Turn>, heads: nat)
    ensures heads <= 1
    ensures turn.Some? && turn.value.Canceled? ==> heads == 0
    ensures turn == Some(Answered) ==> heads == 1
    ensures match found
            case ConnectFails => turn == Some(Normal)
            case CheckoutClosed => turn == Some(Canceled(true))
            case Refuses(reused) => turn == Some(Canceled(reused))
            case Takes(reused, _, _, _) => turn in {None, Some(Answered), Some(Normal), Some(Canceled(reused))}
  {
    match found
    case ConnectFails => return Some(Normal), 0;
    case CheckoutClosed => return Some(Canceled(true)), 0;
    case Refuses(reused) => return Some(MapWithReused(true, reused)), 0;
    case Takes(reused, id, wire, polls) =>
      var settled, _, _, _, _, history := Dispatch.Run(false, false, wire, polls);
      OccurrencesInIncreasing(WriteIds(history), id);
      return TurnOf(settled, id, reused), Occurrences(WriteIds(history), id);
  }

  /** A turn that a connection which took the request ends by handing it back: the loop tries again. */
  method QueuedThenReturned() returns (turn: Option<Turn>, heads: nat)
    ensures turn == Some(Canceled(true)) && heads == 0
  {
    var settled, history := Dispatch.HandedBack(0);
    return TurnOf(settled, 0, true), Occurrences(WriteIds(history), 0);
  }

  /** `retryably_send_request`: over any number of turns, on any connections, the head of the request
      is written at most once, and exactly once if a response comes back. Each turn but the last got the
      request back from a connection that had been used before, with retrying enabled; the loop ends
      only after another kind of turn, or when nobody waits for it any more, after `found`. */
  method RetryablySendRequest(retryCanceledRequests: bool, found: seq<Connected>) returns (turns: seq<Option<Turn>>, heads: nat)
    ensures heads <= 1 && |turns| <= |found|
    ensures turns != [] && turns[|turns| - 1] == Some(Answered) ==> heads == 1
    ensures forall i :: 0 <= i < |turns| - 1 ==> turns[i] == Some(Canceled(true))
    ensures |turns| > 1 ==> retryCanceledRequests
    ensures turns != [] && retryCanceledRequests && turns[|turns| - 1] == Some(Canceled(true)) ==> |turns| == |found|
    ensures turns == [] ==> found == []
  {
    heads, turns := 0, [];
    for i := 0 to |found|
      invariant heads == 0 && |turns| == i
      invariant forall k :: 0 <= k < i ==> turns[k] == Some(Canceled(true))
      invariant i > 0 ==> retryCanceledRequests
    {
      var turn, more := SendRequest(found[i]);
      heads, turns := heads + more, turns + [turn];
      match turn {
        case None => return;
        case Some(Answered) => return;
        case Some(Normal) => return;
        case Some(Canceled(reused)) =>
          if !retryCanceledRequests || !reused {
            return;
          }
      }
    }
  }
}
