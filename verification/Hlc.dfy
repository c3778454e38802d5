/** The Hybrid Logical Clock: a physical time and a uint64 logical counter that breaks ties. */
module Hlc {
  const MAX_UINT64: nat := 0xFFFF_FFFF_FFFF_FFFF

  type uint64 = x: nat | x <= MAX_UINT64

  /** A canonical UTC timestamp by rank; 0 stands for the empty string of an unset clock. */
  type Time = nat

  /** A time that was formatted or parsed, so never the empty string. */
  type Instant = t: nat | t > 0 witness 1

  datatype Timestamp = Timestamp(physical: Time, logical: uint64)

  predicate Before(a: Timestamp, b: Timestamp) {
    a.physical < b.physical || (a.physical == b.physical && a.logical < b.logical)
  }

  predicate AtMost(a: Timestamp, b: Timestamp) {
    a == b || Before(a, b)
  }

  function Max(a: nat, b: nat): nat {
    if a < b then b else a
  }

  datatype Tick = Ticked(stamp: Timestamp) | LogicalOverflow | RemoteUnset

  function IncrementLogical(physical: Time, logical: uint64): Tick {
    if logical == MAX_UINT64 then LogicalOverflow else Ticked(Timestamp(physical, logical + 1))
  }

  /** The stamp of a locally ingested event. */
  function NextLocal(state: Timestamp, wall: Instant): Tick {
    if state.physical == 0 || wall > state.physical then Ticked(Timestamp(wall, 0))
    else IncrementLogical(state.physical, state.logical)
  }

  /** The clock after receiving a remote stamp. */
  function Merge(local: Timestamp, remote: Timestamp, wall: Instant): Tick {
    if remote.physical == 0 then RemoteUnset else
      var physical := Max(Max(wall, local.physical), remote.physical);
      if physical == local.physical && physical == remote.physical then
        IncrementLogical(physical, Max(local.logical, remote.logical))
      else if physical == local.physical then IncrementLogical(physical, local.logical)
      else if physical == remote.physical then IncrementLogical(physical, remote.logical)
      else Ticked(Timestamp(physical, 0))
  }

  /** A stamp that is after every one in `seen` and not behind the wall clock. */
  predicate Ahead(stamp: Timestamp, seen: set<Timestamp>, wall: Instant) {
    stamp.physical >= wall && forall s :: s in seen ==> Before(s, stamp)
  }

  /** A local tick is the least stamp ahead of the clock and the wall; it fails exactly when no
      stamp with the larger of the two physical times is left. */
  lemma NextLocalIsLeastAhead(state: Timestamp, wall: Instant)
    ensures var physical := Max(state.physical, wall);
      match NextLocal(state, wall)
      case Ticked(stamp) =>
        && stamp.physical == physical
        && Ahead(stamp, {state}, wall)
        && (forall other :: Ahead(other, {state}, wall) ==> AtMost(stamp, other))
      case LogicalOverflow =>
        forall other :: Ahead(other, {state}, wall) ==> other.physical > physical
      case RemoteUnset => false
  {
    assert state in {state};
  }

  /** A merge is the least stamp ahead of both clocks and the wall; it fails exactly when the
      remote stamp is unset or no stamp with the greatest physical time is left. */
  lemma MergeIsLeastAhead(local: Timestamp, remote: Timestamp, wall: Instant)
    ensures var physical := Max(Max(local.physical, remote.physical), wall);
      match Merge(local, remote, wall)
      case Ticked(stamp) =>
        && remote.physical > 0
        && stamp.physical == physical
        && Ahead(stamp, {local, remote}, wall)
        && (forall other :: Ahead(other, {local, remote}, wall) ==> AtMost(stamp, other))
      case LogicalOverflow =>
        remote.physical > 0 && forall other :: Ahead(other, {local, remote}, wall) ==> other.physical > physical
      case RemoteUnset => remote.physical == 0
  {
    assert local in {local, remote} && remote in {local, remote};
  }

  lemma AtMostBefore(a: Timestamp, b: Timestamp, c: Timestamp)
    requires AtMost(a, b) && Before(b, c)
    ensures Before(a, c) && a != c
  {
  }

  /****** Runs of one clock ******/

  /** What drives a clock: local ingests and received stamps, each with a wall-clock reading. A
      restart reloads the persisted state, so it is no input at all. */
  datatype Input = LocalTick(wall: Instant) | Received(remote: Timestamp, wall: Instant)

  function Advance(state: Timestamp, input: Input): Tick {
    match input
    case LocalTick(wall) => NextLocal(state, wall)
    case Received(remote, wall) => Merge(state, remote, wall)
  }

  /** The clock after a run; a failed input leaves it where it was. */
  function RunClock(state: Timestamp, inputs: seq<Input>): Timestamp {
    if inputs == [] then state
    else
      var before := RunClock(state, inputs[..|inputs| - 1]);
      match Advance(before, inputs[|inputs| - 1])
      case Ticked(stamp) => stamp
      case _ => before
  }

  function Reading(input: Input): Time {
    match input
    case LocalTick(wall) => wall
    case Received(remote, wall) => Max(remote.physical, wall)
  }

  /** The inputs whose transaction committed. */
  predicate Accepted(state: Timestamp, inputs: seq<Input>, k: nat)
    requires k < |inputs|
  {
    Advance(RunClock(state, inputs[..k]), inputs[k]).Ticked?
  }

  ghost predicate IsReading(state: Timestamp, inputs: seq<Input>, t: Time) {
    t == state.physical || exists k :: 0 <= k < |inputs| && Accepted(state, inputs, k) && Reading(inputs[k]) == t
  }

  /** Over every run, whatever the wall clock does, the physical part is the greatest of the starting
      time and of the wall and remote times of the accepted inputs. */
  lemma {:induction false} PhysicalIsMaximum(state: Timestamp, inputs: seq<Input>)
    ensures IsReading(state, inputs, RunClock(state, inputs).physical)
    ensures forall t: Time :: IsReading(state, inputs, t) ==> t <= RunClock(state, inputs).physical
    decreases |inputs|
  {
    if inputs != [] {
      var prefix := inputs[..|inputs| - 1];
      PhysicalIsMaximum(state, prefix);
      AdvancePhysical(RunClock(state, prefix), inputs[|inputs| - 1]);
      forall t: Time
        ensures IsReading(state, inputs, t) <==>
          IsReading(state, prefix, t) || (Accepted(state, inputs, |prefix|) && t == Reading(inputs[|prefix|]))
      {
        ReadingsOfPrefix(state, inputs, t);
      }
    }
  }

  lemma ReadingsOfPrefix(state: Timestamp, inputs: seq<Input>, t: Time)
    requires inputs != []
    ensures var last := |inputs| - 1;
      IsReading(state, inputs, t) <==>
        IsReading(state, inputs[..last], t) || (Accepted(state, inputs, last) && t == Reading(inputs[last]))
  {
    hide RunClock;
    var last := |inputs| - 1;
    var prefix := inputs[..last];
    forall k | 0 <= k < last ensures Accepted(state, inputs, k) == Accepted(state, prefix, k) {
      assert inputs[..k] == prefix[..k];
    }
    if k :| 0 <= k < last && Accepted(state, prefix, k) && Reading(prefix[k]) == t {
      assert Accepted(state, inputs, k) && Reading(inputs[k]) == t;
    }
  }

  lemma AdvancePhysical(state: Timestamp, input: Input)
    ensures var tick := Advance(state, input); tick.Ticked? ==>
      Before(state, tick.stamp) && tick.stamp.physical == Max(state.physical, Reading(input))
  {
    match input
    case LocalTick(wall) =>
      NextLocalIsLeastAhead(state, wall);
      assert state in {state};
    case Received(remote, wall) =>
      MergeIsLeastAhead(state, remote, wall);
      assert state in {state, remote};
  }
}
