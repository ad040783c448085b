/** Geometry of the selected view and the retry rule of the bounds fit. */
module Bounds {
  import opened Views

  /** What one measurement of the toolbar element returns: its pixel height,
      or a fault when the script run in the window's page is rejected. */
  datatype Measurement = Fault | Height(px: int)

  /** The window as one fit step sees it: the content-area size and the
      toolbar measurement. */
  datatype Layout = Layout(width: int, height: int, toolbar: Measurement)

  /** Retries are scheduled while the count is below this cap. */
  const MaxRetries: nat := 40

  /** The rectangle fitted under a toolbar of height `toolbar`: the full
      content width, and a height that always reaches the bottom edge. */
  function NewBounds(fullscreen: bool, width: int, height: int, toolbar: int): (r: Rect)
    ensures r.x == 0 && r.width == width
    ensures r.y + r.height == height
    ensures fullscreen ==> r.y == 0 && r.height == height
    ensures !fullscreen ==> r.y == toolbar
  {
    Rect(0, if fullscreen then 0 else toolbar, width,
         if fullscreen then height else height - toolbar)
  }

  /** The retry left pending by a fit step run with `count`: any earlier one
      is cleared on entry, and a new one, carrying count + 1, is scheduled
      exactly when the measurement is not positive and the cap is not
      reached. A fault ends the step before anything is scheduled. */
  function RetryAfter(count: nat, m: Measurement): (r: Option<nat>)
    ensures r.Some? <==> m.Height? && m.px <= 0 && count < MaxRetries
    ensures r.Some? ==> r.value == count + 1 && 1 <= r.value <= MaxRetries
  {
    match m
    case Fault => None
    case Height(h) => if h <= 0 && count < MaxRetries then Some(count + 1) else None
  }

  /** The bounds a fit step leaves on the selected view: a fresh rectangle is
      written after every measurement, whether or not it equals `current`;
      a fault leaves `current`. */
  function FittedBounds(fullscreen: bool, layout: Layout, current: Option<Rect>): (r: Option<Rect>)
    ensures layout.toolbar.Fault? ==> r == current
    ensures layout.toolbar.Height? ==> r.Some?
    ensures layout.toolbar.Height? ==>
              r.value == NewBounds(fullscreen, layout.width, layout.height, layout.toolbar.px)
  {
    match layout.toolbar
    case Fault => current
    case Height(h) => Some(NewBounds(fullscreen, layout.width, layout.height, h))
  }

  /** Number of measurements one retry chain makes when it starts at `count`,
      the measurement taken with count c returns stub(c), and every scheduled
      retry fires with nothing else in between. */
  function ChainLength(stub: nat -> int, count: nat): (n: nat)
    ensures 1 <= n
    ensures count <= MaxRetries ==> n <= MaxRetries - count + 1
    decreases MaxRetries - count
  {
    match RetryAfter(count, Height(stub(count)))
    case None => 1
    case Some(next) => 1 + ChainLength(stub, next)
  }

  /** The toolbar height of the last measurement of that chain. */
  function ChainFinal(stub: nat -> int, count: nat): int
    decreases MaxRetries - count
  {
    match RetryAfter(count, Height(stub(count)))
    case None => stub(count)
    case Some(next) => ChainFinal(stub, next)
  }

  /** A chain that meets its first positive height at count i stops there:
      it makes i - count + 1 measurements and fits under that height. */
  lemma {:induction false} ChainStopsAtFirstValid(stub: nat -> int, count: nat, i: nat)
    requires count <= i <= MaxRetries
    requires stub(i) > 0
    requires forall j | count <= j < i :: stub(j) <= 0
    ensures ChainLength(stub, count) == i - count + 1
    ensures ChainFinal(stub, count) == stub(i)
    decreases i - count
  {
    if count < i {
      assert stub(count) <= 0;
      ChainStopsAtFirstValid(stub, count + 1, i);
    }
  }

  /** A chain whose every measurement is invalid stops at the cap: started at
      0 it makes MaxRetries + 1 measurements and keeps the last one. */
  lemma {:induction false} ChainGivesUp(stub: nat -> int, count: nat)
    requires count <= MaxRetries
    requires forall j | count <= j <= MaxRetries :: stub(j) <= 0
    ensures ChainLength(stub, count) == MaxRetries - count + 1
    ensures ChainFinal(stub, count) == stub(MaxRetries)
    decreases MaxRetries - count
  {
    if count < MaxRetries {
      assert stub(count) <= 0;
      ChainGivesUp(stub, count + 1);
    }
  }

  /** Five measurements of 0 and then 48: six measurements, and a windowed
      view fitted 48 pixels down. */
  lemma FiveZerosThen48(width: int, height: int)
    ensures var stub := (c: nat) => if c < 5 then 0 else 48;
            && ChainLength(stub, 0) == 6
            && NewBounds(false, width, height, ChainFinal(stub, 0)).y == 48
  {
    var stub := (c: nat) => if c < 5 then 0 else 48;
    ChainStopsAtFirstValid(stub, 0, 5);
  }

  /** A measurement that always returns 0: the chain gives up after
      MaxRetries + 1 measurements and fits the view at y = 0. */
  lemma AlwaysZero(width: int, height: int)
    ensures var stub := (c: nat) => 0;
            && ChainLength(stub, 0) == MaxRetries + 1
            && NewBounds(false, width, height, ChainFinal(stub, 0)) == Rect(0, 0, width, height)
  {
    var stub := (c: nat) => 0;
    ChainGivesUp(stub, 0);
  }
}
