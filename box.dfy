/** A single sealed box: a monetary value of at least DELTA and an open flag
    that only ever moves from closed to open. */
module Boxes {
  import opened Outcomes

  /** The smallest value a box may hold, and the tolerance of box equality. */
  const DELTA: real := 0.01

  /** What can be observed of a box: its value and whether it is open. */
  datatype BoxState = BoxState(value: real, open: bool)

  function Abs(x: real): (r: real)
    ensures 0.0 <= r && (r == x || r == -x)
  {
    if x < 0.0 then -x else x
  }

  /** Tolerance equality of two boxes: same open flag, values closer than DELTA. */
  predicate Matches(a: BoxState, b: BoxState) {
    a.open == b.open && Abs(a.value - b.value) < DELTA
  }

  /** Tolerance equality is reflexive and symmetric ... */
  lemma MatchesReflexiveSymmetric(a: BoxState, b: BoxState)
    ensures Matches(a, a)
    ensures Matches(a, b) == Matches(b, a)
  {
  }

  /** ... but not transitive: a chain of near-equal values drifts apart. */
  lemma MatchesNotTransitive()
    ensures exists a: BoxState, b: BoxState, c: BoxState ::
      Matches(a, b) && Matches(b, c) && !Matches(a, c)
  {
    var a, b, c := BoxState(10.0, false), BoxState(10.006, false), BoxState(10.012, false);
    assert Matches(a, b) && Matches(b, c) && !Matches(a, c);
  }

  class Box {
    /** The monetary value; only construction writes it. */
    const value: real
    var isOpen: bool

    /** The invariant every constructed box keeps. */
    ghost predicate Valid() {
      DELTA <= value
    }

    function State(): (r: BoxState)
      reads this
    {
      BoxState(value, isOpen)
    }

    /** The part of the Java constructor after its guard. */
    constructor (v: real)
      requires DELTA <= v
      ensures Valid() && State() == BoxState(v, false)
    {
      value := v;
      isOpen := false;
    }

    /** The Java constructor: a value below DELTA is refused, DELTA itself is
        accepted, and a new box is closed and holds exactly the given value. */
    static method Create(v: real) returns (r: Result<Box>)
      ensures r.Err? <==> v < DELTA
      ensures r.Err? ==> r.error == InvalidValue
      ensures r.Ok? ==> fresh(r.value) && r.value.Valid() && r.value.State() == BoxState(v, false)
    {
      if v < DELTA {
        return Err(InvalidValue);
      }
      var b := new Box(v);
      return Ok(b);
    }

    /** The stored value, open or not; it is never below DELTA. */
    function GetValue(): (r: real)
      requires Valid()
      ensures DELTA <= r && r == value
    {
      value
    }

    /** Whether the box has been opened. */
    predicate IsOpen(): (r: bool)
      reads this
      ensures r == State().open
    {
      isOpen
    }

    /** Opens the box. Opening an open box changes nothing and is no error;
        the value is never touched. */
    method Open()
      modifies this
      ensures State() == BoxState(value, true)
    {
      isOpen := true;
    }

    /** Tolerance equality against any object: false for null and for
        anything that is not a box. */
    function Equals(o: object?): (r: bool)
      reads this, o
      ensures r <==> o is Box && Matches(State(), (o as Box).State())
      ensures r ==> o != null && isOpen == (o as Box).isOpen
      ensures o == this ==> r
    {
      o is Box && Matches(State(), (o as Box).State())
    }
  }

  /** Box equality is symmetric. */
  lemma EqualsSymmetric(a: Box, b: Box)
    ensures a.Equals(b) == b.Equals(a)
  {
    MatchesReflexiveSymmetric(a.State(), b.State());
  }
}
