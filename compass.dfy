/** The LED compass of the embedded exercise: sixteen compass points shown
    on the border of the 5x5 LED matrix, the sector-to-direction match of the
    magnetometer reading, and the `Dial` that drives the row and column pins
    and blinks the current direction. */
module Compass {
  import W = Wrappers
  import opened Ints

  datatype Direction =
    | North | NorthNorthEast | NorthEast | EastNorthEast
    | East | EastSouthEast | SouthEast | SouthSouthEast
    | South | SouthSouthWest | SouthWest | WestSouthWest
    | West | WestNorthWest | NorthWest | NorthNorthWest
    | None

  /** Position of a compass point in clockwise order from North; `None` is 16. */
  function Ordinal(d: Direction): nat {
    match d
    case North => 0
    case NorthNorthEast => 1
    case NorthEast => 2
    case EastNorthEast => 3
    case East => 4
    case EastSouthEast => 5
    case SouthEast => 6
    case SouthSouthEast => 7
    case South => 8
    case SouthSouthWest => 9
    case SouthWest => 10
    case WestSouthWest => 11
    case West => 12
    case WestNorthWest => 13
    case NorthWest => 14
    case NorthNorthWest => 15
    case None => 16
  }

  /** The arms of the sector match, `0 => North` up to `15 => NorthNorthWest`. */
  function Clockwise(k: nat): (d: Direction)
    requires k < 16
    ensures d != None && Ordinal(d) == k
  {
    if k == 0 then North
    else if k == 1 then NorthNorthEast
    else if k == 2 then NorthEast
    else if k == 3 then EastNorthEast
    else if k == 4 then East
    else if k == 5 then EastSouthEast
    else if k == 6 then SouthEast
    else if k == 7 then SouthSouthEast
    else if k == 8 then South
    else if k == 9 then SouthSouthWest
    else if k == 10 then SouthWest
    else if k == 11 then WestSouthWest
    else if k == 12 then West
    else if k == 13 then WestNorthWest
    else if k == 14 then NorthWest
    else NorthNorthWest
  }

  /** Every compass point is reached by exactly one sector. */
  lemma ClockwiseInverse(d: Direction)
    requires d != None
    ensures Ordinal(d) < 16 && Clockwise(Ordinal(d)) == d
  {
  }

  /** `led_index`: (row, column) of the LED that shows a direction. */
  function LedIndex(d: Direction): (r: (nat, nat))
    ensures r.0 < 5 && r.1 < 5
  {
    match d
    case North => (0, 2)
    case NorthNorthEast => (0, 3)
    case NorthEast => (0, 4)
    case EastNorthEast => (1, 4)
    case East => (2, 4)
    case EastSouthEast => (3, 4)
    case SouthEast => (4, 4)
    case SouthSouthEast => (4, 3)
    case South => (4, 2)
    case SouthSouthWest => (4, 1)
    case SouthWest => (4, 0)
    case WestSouthWest => (3, 0)
    case West => (2, 0)
    case WestNorthWest => (1, 0)
    case NorthWest => (0, 0)
    case NorthNorthWest => (0, 1)
    case None => (2, 2)
  }

  predicate OnBorder(p: (nat, nat)) {
    p.0 == 0 || p.0 == 4 || p.1 == 0 || p.1 == 4
  }

  /** The compass points sit on the border and `None` in the centre. */
  lemma LedPlacement(d: Direction)
    ensures d == None <==> LedIndex(d) == (2, 2)
    ensures d != None ==> OnBorder(LedIndex(d))
  {
  }

  /** No two directions share an LED. */
  lemma LedIndexInjective(a: Direction, b: Direction)
    requires LedIndex(a) == LedIndex(b)
    ensures a == b
  {
  }

  function Dist(x: nat, y: nat): nat {
    if x <= y then y - x else x - y
  }

  /** Consecutive compass points light neighbouring LEDs, so the sixteen
      points go once around the border. */
  lemma RingNeighbours(k: nat)
    requires k < 16
    ensures var p, q := LedIndex(Clockwise(k)), LedIndex(Clockwise((k + 1) % 16));
      Dist(p.0, q.0) + Dist(p.1, q.1) == 1
  {
  }

  /** The match on `(part + 4) % 16` in `from_xy`, for the rounded angle
      `part`, as a build with overflow checks runs it: the `u32` addition
      panics on overflow. */
  function SectorDirection(part: u32): (r: W.Run<Direction>)
    ensures r.Abort? <==> part + 4 >= 0x1_0000_0000
    ensures r.Done? ==> r.value != None && Ordinal(r.value) == (part + 4) % 16
  {
    if part + 4 >= 0x1_0000_0000 then W.Abort("attempt to add with overflow")
    else W.Done(Clockwise((part + 4) % 16))
  }

  /** The same match in a build without overflow checks: `part + 4` wraps
      modulo 2^32. Since 2^32 is a multiple of 16, the wrap never changes the
      sector. */
  function SectorDirectionWrapping(part: u32): (d: Direction)
    ensures d != None && Ordinal(d) == (part + 4) % 16
  {
    var sum := (part + 4) % 0x1_0000_0000;
    WrapKeepsSector(part + 4);
    Clockwise(sum % 16)
  }

  lemma WrapKeepsSector(x: nat)
    ensures (x % 0x1_0000_0000) % 16 == x % 16
  {
    var q, r := x / 0x1_0000_0000, x % 0x1_0000_0000;
    var m, j := r / 16, r % 16;
    assert x == 16 * (0x1000_0000 * q + m) + j;
    SixteenthRemainder(0x1000_0000 * q + m, j);
  }

  lemma SixteenthRemainder(m: nat, j: nat)
    requires j < 16
    ensures (16 * m + j) % 16 == j
  {
  }

  /** Both builds agree wherever the checked addition does not panic. */
  lemma BuildsAgree(part: u32)
    ensures SectorDirection(part).Done? ==> SectorDirection(part).value == SectorDirectionWrapping(part)
    ensures SectorDirection(part).Abort? ==> SectorDirectionWrapping(part) == Clockwise((part + 4 - 0x1_0000_0000) % 16)
  {
    WrapKeepsSector(part + 4);
    if part + 4 >= 0x1_0000_0000 {
      WrapKeepsSector(part + 4 - 0x1_0000_0000);
      assert (part + 4) % 16 == (part + 4 - 0x1_0000_0000) % 16 by {
        assert part + 4 == (part + 4 - 0x1_0000_0000) + 0x1000_0000 * 16;
      }
      ClockwiseInverse(SectorDirectionWrapping(part));
    }
  }

  /** The rounded angle lies in 0..16 and both ends of that range give the
      same point, `East`, so the full circle wraps around. */
  lemma SectorWraps()
    ensures SectorDirection(0) == SectorDirection(16) == W.Done(East)
  {
  }

  /** Sixteen consecutive sectors reach sixteen different directions. */
  lemma SectorsDistinct(a: u32, b: u32)
    requires a < b < a + 16 && b + 4 < 0x1_0000_0000
    ensures SectorDirection(a) != SectorDirection(b)
  {
    assert (a + 4) % 16 != (b + 4) % 16;
  }

  /** Pin levels of one side of the matrix: `base` everywhere except at
      index `k`. `true` is a high level. */
  function Marked(k: int, base: bool): (s: seq<bool>)
    ensures |s| == 5 && forall i :: 0 <= i < 5 ==> s[i] == (if i == k then !base else base)
  {
    seq(5, i => if i == k then !base else base)
  }

  /** Rows the dial drives while it shows `d` (lit) or nothing. */
  function RowLevels(d: Direction, lit: bool): seq<bool> {
    if lit then Marked(LedIndex(d).0, false) else Marked(-1, false)
  }

  /** Columns the dial drives while it shows `d` (lit) or nothing. */
  function ColLevels(d: Direction, lit: bool): seq<bool> {
    if lit then Marked(LedIndex(d).1, true) else Marked(-1, true)
  }

  /** Exactly one LED is lit (row high and column low) while the dial shows
      a direction, and none while it is cleared. */
  lemma OneLedLit(d: Direction, lit: bool, i: nat, j: nat)
    requires i < 5 && j < 5
    ensures RowLevels(d, lit)[i] && !ColLevels(d, lit)[j] <==> lit && (i, j) == LedIndex(d)
  {
  }

  /** What the `run` loop waits for: a direction from the channel or a tick
      of the 500 ms ticker. */
  datatype Event = Received(dir: Direction) | Tick

  /** Direction and `is_on` after one iteration of the `run` loop. */
  function Next(state: (Direction, bool), ev: Event): (Direction, bool) {
    match ev
    case Received(d) => (d, state.1)
    case Tick => (state.0, !state.1)
  }

  /** Direction and `is_on` after a sequence of events. */
  function RunFrom(state: (Direction, bool), events: seq<Event>): (Direction, bool) {
    if |events| == 0 then state else Next(RunFrom(state, events[..|events| - 1]), events[|events| - 1])
  }

  function CountTicks(events: seq<Event>): nat {
    if |events| == 0 then 0
    else CountTicks(events[..|events| - 1]) + (if events[|events| - 1] == Tick then 1 else 0)
  }

  /** The dial is lit after the events exactly when it started lit and an
      even number of ticks came, or started dark and an odd number came. */
  lemma {:induction false} BlinkParity(state: (Direction, bool), events: seq<Event>)
    ensures RunFrom(state, events).1 == (state.1 != (CountTicks(events) % 2 == 1))
  {
    if |events| > 0 {
      BlinkParity(state, events[..|events| - 1]);
    }
  }

  /** Only ticks follow position `i`. */
  predicate LaterAllTicks(events: seq<Event>, i: nat) {
    forall j :: i < j < |events| ==> events[j] == Tick
  }

  /** The direction shown is the last one received, or the first one when
      nothing was received. */
  lemma {:induction false} LastReceived(state: (Direction, bool), events: seq<Event>)
    ensures (forall i :: 0 <= i < |events| ==> events[i] == Tick) ==> RunFrom(state, events).0 == state.0
    ensures forall i :: 0 <= i < |events| && events[i].Received? && LaterAllTicks(events, i) ==>
      RunFrom(state, events).0 == events[i].dir
  {
    if |events| > 0 {
      var init := events[..|events| - 1];
      LastReceived(state, init);
      forall i | 0 <= i < |events| - 1 && events[i].Received? && LaterAllTicks(events, i)
        ensures RunFrom(state, events).0 == events[i].dir
      {
        assert init[i] == events[i];
        assert forall j :: i < j < |init| ==> init[j] == events[j];
      }
      if forall i :: 0 <= i < |events| ==> events[i] == Tick {
        assert forall i :: 0 <= i < |init| ==> init[i] == events[i];
      }
    }
  }

  class Dial {
    /** Row pin levels; `true` is high. */
    var rows: array<bool>
    /** Column pin levels; `true` is high. */
    var cols: array<bool>
    var direction: Direction

    predicate Valid()
      reads this
    {
      rows.Length == 5 && cols.Length == 5 && rows != cols
    }

    /** The pins show `d` when `lit`, and no LED otherwise. */
    predicate Shows(d: Direction, lit: bool)
      reads this, rows, cols
      requires Valid()
    {
      rows[..] == RowLevels(d, lit) && cols[..] == ColLevels(d, lit)
    }

    /** `Dial::new`: outputs start with rows low and columns high. */
    constructor ()
      ensures Valid() && fresh(rows) && fresh(cols)
      ensures direction == None
      ensures Shows(None, false)
    {
      rows := new bool[5](_ => false);
      cols := new bool[5](_ => true);
      direction := None;
    }

    method Clear()
      requires Valid()
      modifies rows, cols
      ensures rows[..] == Marked(-1, false) && cols[..] == Marked(-1, true)
    {
      for i := 0 to 5
        invariant forall j :: 0 <= j < i ==> !rows[j]
      {
        rows[i] := false;
      }
      for i := 0 to 5
        invariant forall j :: 0 <= j < 5 ==> !rows[j]
        invariant forall j :: 0 <= j < i ==> cols[j]
      {
        cols[i] := true;
      }
    }

    method SetLightDirection(dir: Direction)
      requires Valid()
      modifies rows, cols
      ensures rows[..] == Marked(LedIndex(dir).0, false) && cols[..] == Marked(LedIndex(dir).1, true)
    {
      var (row, col) := LedIndex(dir);
      Clear();
      rows[row] := true;
      cols[col] := false;
    }

    /** One iteration of the `run` loop, `is_on` going in and coming out. */
    method Step(ev: Event, isOn: bool) returns (nowOn: bool)
      requires Valid()
      modifies this, rows, cols
      ensures Valid() && rows == old(rows) && cols == old(cols)
      ensures (direction, nowOn) == Next((old(direction), isOn), ev)
      ensures ev == Received(old(direction)) ==> rows[..] == old(rows[..]) && cols[..] == old(cols[..])
      ensures ev != Received(old(direction)) ==> Shows(direction, nowOn)
    {
      nowOn := isOn;
      match ev {
        case Received(newDir) =>
          if direction == newDir {
            return;
          }
          direction := newDir;
        case Tick =>
          nowOn := !isOn;
      }
      if nowOn {
        SetLightDirection(direction);
      } else {
        Clear();
      }
    }

    /** `Dial::run` over a finite prefix of what it receives; `is_on` starts
        false. A dial as `new` leaves it keeps showing its direction and
        blink state after every event. */
    method Run(events: seq<Event>) returns (isOn: bool)
      requires Valid()
      modifies this, rows, cols
      ensures Valid() && rows == old(rows) && cols == old(cols)
      ensures (direction, isOn) == RunFrom((old(direction), false), events)
      ensures old(Shows(direction, false)) ==> Shows(direction, isOn)
    {
      isOn := false;
      var i := 0;
      while i < |events|
        invariant 0 <= i <= |events|
        invariant Valid() && rows == old(rows) && cols == old(cols)
        invariant (direction, isOn) == RunFrom((old(direction), false), events[..i])
        invariant old(Shows(direction, false)) ==> Shows(direction, isOn)
      {
        isOn := Step(events[i], isOn);
        assert events[..i + 1][..i] == events[..i];
        i := i + 1;
      }
      assert events[..i] == events;
    }
  }
}
