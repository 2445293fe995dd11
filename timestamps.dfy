/**
 * `DateTime<Utc>` as an integer instant, and the guard that both `Remark` and
 * `Tag` apply before they accept a new `updated_at`.
 */
module Timestamps {
  import opened Outcomes
  import opened AppErrors

  type Timestamp = int

  const UPDATED_AT_BACKWARDS: string := "updated_at must be greater than current updated_at"

  /** The check of `set_updated_at`: only a time earlier than the current one is refused. */
  function CheckUpdatedAt(current: Timestamp, requested: Timestamp): (r: Result<(), ApplicationError>)
    ensures r.Ok? <==> current <= requested
    ensures r.Err? ==> r.error == InvalidArgumentError(UPDATED_AT_BACKWARDS)
  {
    if current > requested then Err(InvalidArgumentError(UPDATED_AT_BACKWARDS)) else Ok(())
  }

  /** The `updated_at` left after one `set_updated_at` call, successful or not. */
  function NextUpdatedAt(current: Timestamp, requested: Timestamp): (r: Timestamp)
    ensures current <= r
    ensures r == requested || r == current
    ensures CheckUpdatedAt(current, requested).Ok? <==> r == requested
  {
    if CheckUpdatedAt(current, requested).Ok? then requested else current
  }

  /**
   * The `updated_at` left after a series of `set_updated_at` calls: the
   * latest of the starting value and every requested time. Failed calls
   * change nothing, so the value never goes backwards.
   */
  function Replay(current: Timestamp, requests: seq<Timestamp>): (r: Timestamp)
    ensures current <= r
    ensures forall i :: 0 <= i < |requests| ==> requests[i] <= r
    ensures r == current || r in requests
    decreases |requests|
  {
    if requests == [] then current
    else
      var r := Replay(NextUpdatedAt(current, requests[0]), requests[1..]);
      assert forall i :: 1 <= i < |requests| ==> requests[i] == requests[1..][i - 1];
      r
  }

  /** Replaying more calls after some calls never moves `updated_at` back. */
  lemma {:induction false} ReplayAppend(current: Timestamp, a: seq<Timestamp>, b: seq<Timestamp>)
    ensures Replay(current, a + b) == Replay(Replay(current, a), b)
    decreases |a|
  {
    if a == [] {
      assert a + b == b;
    } else {
      assert (a + b)[0] == a[0] && (a + b)[1..] == a[1..] + b;
      ReplayAppend(NextUpdatedAt(current, a[0]), a[1..], b);
    }
  }
}
