/** Zoom arithmetic of the selected view. Factors are integers in hundredths
    of the neutral factor 1.0, so the floating-point sums of the TypeScript code are
    exact here. */
module Zoom {

  type Positive = x: int | x > 0 witness 1

  /** ZOOM_FACTOR_MIN, ZOOM_FACTOR_MAX and ZOOM_FACTOR_INCREMENT, in
      hundredths. Their values live in a constants file that is not part of
      this model; the proofs rely only on Min <= Max and Increment > 0. */
  const ZoomFactorMin: nat
  const ZoomFactorSpan: nat
  const ZoomFactorMax: int := ZoomFactorMin + ZoomFactorSpan
  const ZoomFactorIncrement: Positive

  datatype Direction = In | Out

  predicate InRange(z: int) {
    ZoomFactorMin <= z <= ZoomFactorMax
  }

  /** The factor changeZoom proposes: one increment up or down. */
  function Candidate(z: int, dir: Direction): int
  {
    match dir
    case In => z + ZoomFactorIncrement
    case Out => z - ZoomFactorIncrement
  }

  /** The factor changeZoom leaves on the view: the candidate when it lies
      within the bounds, otherwise the old factor. */
  function Step(z: int, dir: Direction): (r: int)
    ensures r != z <==> InRange(Candidate(z, dir))
    ensures r == z || r == Candidate(z, dir)
    ensures InRange(z) ==> InRange(r)
  {
    var c := Candidate(z, dir);
    if c <= ZoomFactorMax && c >= ZoomFactorMin then c else z
  }

  /** n successive changeZoom requests in the same direction. */
  function StepN(z: int, dir: Direction, n: nat): int
    decreases n
  {
    if n == 0 then z else StepN(Step(z, dir), dir, n - 1)
  }

  function Offset(dir: Direction, k: nat): int {
    match dir
    case In => k * ZoomFactorIncrement
    case Out => -(k * ZoomFactorIncrement)
  }

  lemma {:induction false} StepNAtFixpoint(z: int, dir: Direction, n: nat)
    requires Step(z, dir) == z
    ensures StepN(z, dir, n) == z
    decreases n
  {
    if n > 0 {
      StepNAtFixpoint(z, dir, n - 1);
    }
  }

  /** Repeating a zoom request from a factor within the bounds moves it by
      whole increments, never leaves the bounds, and once a request is
      refused every further one leaves the factor where it is. The returned
      k is the number of requests that were applied. */
  lemma {:induction false} StepNSaturates(z: int, dir: Direction, n: nat) returns (k: nat)
    requires InRange(z)
    ensures k <= n
    ensures StepN(z, dir, n) == z + Offset(dir, k)
    ensures InRange(StepN(z, dir, n))
    ensures k < n ==> !InRange(Candidate(StepN(z, dir, n), dir))
    ensures k < n ==> Step(StepN(z, dir, n), dir) == StepN(z, dir, n)
    decreases n
  {
    if n == 0 {
      k := 0;
    } else if InRange(Candidate(z, dir)) {
      var z' := Candidate(z, dir);
      assert Step(z, dir) == z';
      var k' := StepNSaturates(z', dir, n - 1);
      k := k' + 1;
      assert Offset(dir, k) == Offset(dir, k') + Offset(dir, 1) by {
        assert (k' + 1) * ZoomFactorIncrement == k' * ZoomFactorIncrement + ZoomFactorIncrement;
      }
    } else {
      assert Step(z, dir) == z;
      StepNAtFixpoint(z, dir, n);
      k := 0;
    }
  }

  /** Zooming in from a factor within the bounds stops at the largest factor
      reachable in whole increments that does not exceed the maximum; one
      more request leaves it there. */
  lemma ZoomInStopsAtMax(z: int, n: nat)
    requires InRange(z)
    ensures StepN(z, In, n) <= ZoomFactorMax
    ensures || StepN(z, In, n) + ZoomFactorIncrement > ZoomFactorMax
            || StepN(z, In, n) == z + n * ZoomFactorIncrement
    ensures (StepN(z, In, n) + ZoomFactorIncrement > ZoomFactorMax) ==>
              Step(StepN(z, In, n), In) == StepN(z, In, n)
  {
    var k := StepNSaturates(z, In, n);
  }
}
