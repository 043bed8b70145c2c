/** The document viewer's zoom stepper: it starts at 100 percent and moves in steps of 25
    between 50 and 200. */
module Zoom {

  datatype Direction = In | Out

  const InitialZoom: int := 100
  const MinZoom: int := 50
  const MaxZoom: int := 200
  const Step: int := 25

  /** `handleZoom`: "in" adds a step below the maximum, "out" removes one above the minimum,
      anything else leaves the value alone. */
  function HandleZoom(z: int, d: Direction): (r: int)
    ensures d == In ==> (r == z + Step <==> z < MaxZoom) && (r == z <==> z >= MaxZoom)
    ensures d == Out ==> (r == z - Step <==> z > MinZoom) && (r == z <==> z <= MinZoom)
  {
    if d == In && z < MaxZoom then z + Step
    else if d == Out && z > MinZoom then z - Step
    else z
  }

  /** The zoom-out button is disabled at or below the minimum, zoom-in at or above the
      maximum. */
  predicate Enabled(z: int, d: Direction) {
    match d
    case Out => !(z <= MinZoom)
    case In => !(z >= MaxZoom)
  }

  /** The buttons are enabled exactly when pressing them would change the zoom. */
  lemma EnabledIffEffective(z: int, d: Direction)
    ensures Enabled(z, d) <==> HandleZoom(z, d) != z
  {
  }

  /** The zoom values the viewer can show: multiples of the step between the bounds. */
  predicate ValidZoom(z: int) {
    MinZoom <= z <= MaxZoom && z % Step == 0
  }

  /** The zoom after a sequence of button presses. */
  function Run(z: int, ds: seq<Direction>): int
    decreases |ds|
  {
    if |ds| == 0 then z else Run(HandleZoom(z, ds[0]), ds[1..])
  }

  /** One press keeps the zoom valid. */
  lemma StepKeepsValid(z: int, d: Direction)
    requires ValidZoom(z)
    ensures ValidZoom(HandleZoom(z, d))
  {
  }

  /** Every zoom reachable from a valid one is valid. */
  lemma {:induction false} RunKeepsValid(z: int, ds: seq<Direction>)
    requires ValidZoom(z)
    ensures ValidZoom(Run(z, ds))
    decreases |ds|
  {
    if |ds| > 0 {
      StepKeepsValid(z, ds[0]);
      RunKeepsValid(HandleZoom(z, ds[0]), ds[1..]);
    }
  }

  /** So every zoom the viewer ever shows lies in [50, 200] and is a multiple of 25. */
  lemma ReachableZoomsAreValid(ds: seq<Direction>)
    ensures ValidZoom(Run(InitialZoom, ds))
  {
    RunKeepsValid(InitialZoom, ds);
  }

  function Repeat(d: Direction, n: nat): (ds: seq<Direction>)
    ensures |ds| == n && forall i :: 0 <= i < n ==> ds[i] == d
  {
    if n == 0 then [] else [d] + Repeat(d, n - 1)
  }

  /** `n` presses of "in" from a value that leaves room for them. */
  lemma {:induction false} RunIn(z: int, n: nat)
    requires z + n * Step <= MaxZoom
    ensures Run(z, Repeat(In, n)) == z + n * Step
    decreases n
  {
    if n > 0 {
      assert Repeat(In, n)[1..] == Repeat(In, n - 1);
      RunIn(z + Step, n - 1);
    }
  }

  /** `n` presses of "out" from a value that leaves room for them. */
  lemma {:induction false} RunOut(z: int, n: nat)
    requires z - n * Step >= MinZoom
    ensures Run(z, Repeat(Out, n)) == z - n * Step
    decreases n
  {
    if n > 0 {
      assert Repeat(Out, n)[1..] == Repeat(Out, n - 1);
      RunOut(z - Step, n - 1);
    }
  }

  /** Conversely every valid zoom is reachable from the initial one. */
  lemma ValidZoomsAreReachable(z: int)
    requires ValidZoom(z)
    ensures exists ds :: Run(InitialZoom, ds) == z
  {
    if z >= InitialZoom {
      RunIn(InitialZoom, (z - InitialZoom) / Step);
      assert Run(InitialZoom, Repeat(In, (z - InitialZoom) / Step)) == z;
    } else {
      RunOut(InitialZoom, (InitialZoom - z) / Step);
      assert Run(InitialZoom, Repeat(Out, (InitialZoom - z) / Step)) == z;
    }
  }

  /** Below the maximum and from the minimum up, zooming in and then out is a round trip. */
  lemma InThenOut(z: int)
    requires MinZoom <= z < MaxZoom
    ensures HandleZoom(HandleZoom(z, In), Out) == z
  {
  }

  /** Above the minimum and up to the maximum, zooming out and then in is a round trip. */
  lemma OutThenIn(z: int)
    requires MinZoom < z <= MaxZoom
    ensures HandleZoom(HandleZoom(z, Out), In) == z
  {
  }

  /** At the bounds the steppers do nothing. */
  lemma BoundsAreFixed()
    ensures HandleZoom(MaxZoom, In) == MaxZoom && HandleZoom(MinZoom, Out) == MinZoom
  {
  }
}
