/** The two adjacent screens, the cursor that crosses between them, and the
    coordinates sent to the bridge (linux/input-router/src/geometry.rs), over
    the reals. */
module Geometry {
  import opened Bytes

  datatype Screen = Screen(width: real, height: real)

  /** Screens of at least two pixels per axis. */
  type Display = s: Screen | s.width >= 2.0 && s.height >= 2.0 witness Screen(2.0, 2.0)

  datatype Target = Local | Remote
  datatype Edge = RightEdge | LeftEdge
  datatype Crossing = Stay | ToRemote | ToLocal

  /** x and y are in the current target's pixels. */
  datatype Cursor = Cursor(
    local: Display, remote: Display, edge: Edge, target: Target, x: real, y: real)

  function Clamp(v: real, lo: real, hi: real): real {
    if v < lo then lo else if v > hi then hi else v
  }

  function Centered(local: Display, remote: Display, edge: Edge): Cursor {
    Cursor(local, remote, edge, Local, local.width / 2.0, local.height / 2.0)
  }

  function Current(c: Cursor): Display {
    if c.target.Local? then c.local else c.remote
  }

  function Proportion(y: real, a: real, b: real): real
    requires a != 0.0
  {
    y / a * b
  }

  /** The row of one screen at the relative height of a row of another. */
  function MapY(from: Display, to: Display, y: real): real {
    Clamp(Proportion(y, from.height, to.height), 0.0, to.height - 1.0)
  }

  function CrossingAt(c: Cursor, nx: real): Crossing {
    match (c.target, c.edge)
    case (Local, RightEdge) => if nx > c.local.width - 1.0 then ToRemote else Stay
    case (Local, LeftEdge) => if nx < 0.0 then ToRemote else Stay
    case (Remote, RightEdge) => if nx < 0.0 then ToLocal else Stay
    case (Remote, LeftEdge) => if nx > c.remote.width - 1.0 then ToLocal else Stay
  }

  /** At the shared edge of the other screen, keeping the relative height of y. */
  function SeatRemote(c: Cursor, y: real): Cursor {
    c.(target := Remote, y := MapY(c.local, c.remote, y),
       x := if c.edge.RightEdge? then 0.0 else c.remote.width - 1.0)
  }

  function SeatLocal(c: Cursor, y: real): Cursor {
    c.(target := Local, y := MapY(c.remote, c.local, y),
       x := if c.edge.RightEdge? then c.local.width - 1.0 else 0.0)
  }

  function ApplyDelta(c: Cursor, dx: real, dy: real): (Cursor, Crossing) {
    var s := Current(c);
    var nx, ny := c.x + dx, Clamp(c.y + dy, 0.0, s.height - 1.0);
    var crossing := CrossingAt(c, nx);
    (match crossing
     case Stay => c.(x := Clamp(nx, 0.0, s.width - 1.0), y := ny)
     case ToRemote => SeatRemote(c, ny)
     case ToLocal => SeatLocal(c, ny),
     crossing)
  }

  function EnterRemote(c: Cursor, localY: real): Cursor {
    SeatRemote(c, Clamp(localY, 0.0, c.local.height - 1.0))
  }

  function ForceLocal(c: Cursor): Cursor {
    if c.target.Remote? then SeatLocal(c, c.y) else c
  }

  /** Half away from zero, on non-negative values. */
  function Round(v: real): int { (v + 0.5).Floor }

  /** One axis of the canonical 0..65535 coordinates. */
  function Scale(v: real, extent: real): (n: u16)
    requires extent >= 2.0
  {
    Round(Clamp(v / (extent - 1.0) * 65535.0, 0.0, 65535.0))
  }

  function Canonical(c: Cursor): (u16, u16) {
    (Scale(c.x, c.remote.width), Scale(c.y, c.remote.height))
  }

  class Space {
    const local: Display
    const remote: Display
    const edge: Edge
    var target: Target
    var x: real
    var y: real

    ghost function C(): Cursor
      reads this
    {
      Cursor(local, remote, edge, target, x, y)
    }

    constructor (local: Display, remote: Display, edge: Edge)
      ensures C() == Centered(local, remote, edge)
    {
      this.local, this.remote, this.edge := local, remote, edge;
      target := Local;
      x, y := local.width / 2.0, local.height / 2.0;
    }

    function Position(): (p: (u16, u16))
      reads this
      ensures p == Canonical(C())
    {
      (Scale(x, remote.width), Scale(y, remote.height))
    }

    method Move(dx: real, dy: real) returns (crossing: Crossing)
      modifies this
      ensures (C(), crossing) == ApplyDelta(old(C()), dx, dy)
    {
      var s := if target.Local? then local else remote;
      var nx := x + dx;
      y := Clamp(y + dy, 0.0, s.height - 1.0);
      crossing :=
        if target.Local? && edge.RightEdge? && nx > s.width - 1.0 then ToRemote
        else if target.Local? && edge.LeftEdge? && nx < 0.0 then ToRemote
        else if target.Remote? && edge.RightEdge? && nx < 0.0 then ToLocal
        else if target.Remote? && edge.LeftEdge? && nx > s.width - 1.0 then ToLocal
        else Stay;
      match crossing
      case Stay =>
        x := Clamp(nx, 0.0, s.width - 1.0);
      case ToRemote =>
        y := MapY(local, remote, y);
        x := if edge.RightEdge? then 0.0 else remote.width - 1.0;
        target := Remote;
      case ToLocal =>
        y := MapY(remote, local, y);
        x := if edge.RightEdge? then local.width - 1.0 else 0.0;
        target := Local;
    }

    method Enter(localY: real)
      modifies this
      ensures C() == EnterRemote(old(C()), localY)
    {
      y := MapY(local, remote, Clamp(localY, 0.0, local.height - 1.0));
      x := if edge.RightEdge? then 0.0 else remote.width - 1.0;
      target := Remote;
    }

    method Force()
      modifies this
      ensures C() == ForceLocal(old(C()))
    {
      if target.Remote? {
        y := MapY(remote, local, y);
        x := if edge.RightEdge? then local.width - 1.0 else 0.0;
        target := Local;
      }
    }
  }

  // ----- runs ------------------------------------------------------------------

  datatype Move = Delta(dx: real, dy: real) | Enter(localY: real) | Force

  function Step(c: Cursor, m: Move): Cursor {
    match m
    case Delta(dx, dy) => ApplyDelta(c, dx, dy).0
    case Enter(y) => EnterRemote(c, y)
    case Force => ForceLocal(c)
  }

  function Steps(c: Cursor, ms: seq<Move>): Cursor {
    if ms == [] then c else Step(Steps(c, ms[..|ms| - 1]), ms[|ms| - 1])
  }

  ghost predicate Inside(c: Cursor) {
    0.0 <= c.x <= Current(c).width - 1.0 && 0.0 <= c.y <= Current(c).height - 1.0
  }

  /** From the centre of the local screen, no sequence of motions, activations
      and forced returns takes the cursor outside the screen it is on. */
  lemma {:induction false} AlwaysInside(local: Display, remote: Display, edge: Edge, ms: seq<Move>)
    ensures Inside(Steps(Centered(local, remote, edge), ms))
  {
    if ms != [] {
      AlwaysInside(local, remote, edge, ms[..|ms| - 1]);
    }
  }

  /** The screens share one edge: wherever the cursor comes from, right after it
      has crossed over, the least motion back crosses back. */
  lemma EdgeIsShared(c: Cursor, dx: real, dy: real, back: real)
    requires back > 0.0
    ensures var (there, crossing) := ApplyDelta(c, dx, dy);
      var inwards := if c.edge.RightEdge? then back else -back;
      && (crossing.ToRemote? ==> ApplyDelta(there, -inwards, 0.0).1.ToLocal?)
      && (crossing.ToLocal? ==> ApplyDelta(there, inwards, 0.0).1.ToRemote?)
    ensures ApplyDelta(EnterRemote(c, dy), if c.edge.RightEdge? then -back else back, 0.0).1.ToLocal?
  {
    hide MapY;
  }

  // ----- how far a motion goes -----------------------------------------------------

  /** v is the place from 0 to last that is nearest to an aim. */
  ghost predicate Nearest(v: real, aim: real, last: real) {
    && 0.0 <= v <= last
    && forall w: real :: 0.0 <= w <= last ==> Distance(v, aim) <= Distance(w, aim)
  }

  function Distance(v: real, w: real): real { if v <= w then w - v else v - w }

  /** The aim lies beyond the edge that the current screen shares. */
  predicate BeyondEdge(c: Cursor, x: real) {
    if c.target.Local? == c.edge.RightEdge? then x > Current(c).width - 1.0 else x < 0.0
  }

  /** A motion aims at the sum of position and motion. It crosses if and only if
      that lies beyond the shared edge; else the cursor goes to the place of its
      screen nearest to it, on each axis by itself. */
  lemma MotionExactly(c: Cursor, dx: real, dy: real)
    ensures var (after, crossing) := ApplyDelta(c, dx, dy);
      && (crossing != Stay <==> BeyondEdge(c, c.x + dx))
      && (crossing.ToRemote? ==> c.target.Local? && after.target.Remote?)
      && (crossing.ToLocal? ==> c.target.Remote? && after.target.Local?)
      && (crossing.Stay? ==>
            && after == c.(x := after.x, y := after.y)
            && Nearest(after.x, c.x + dx, Current(c).width - 1.0)
            && Nearest(after.y, c.y + dy, Current(c).height - 1.0))
  {
  }

  /** Only one place is nearest: the aim itself if it is on the screen, and else the
      border it lies beyond. */
  lemma NearestIs(v: real, aim: real, last: real)
    requires Nearest(v, aim, last)
    ensures v == if aim < 0.0 then 0.0 else if aim > last then last else aim
  {
    assert Distance(v, aim) <= Distance(if aim < 0.0 then 0.0 else if aim > last then last else aim, aim);
  }

  predicate OnlyDeltas(ms: seq<Move>) { forall i :: 0 <= i < |ms| ==> ms[i].Delta? }

  /** The sums of some motions. */
  function SumX(ms: seq<Move>): real
    requires OnlyDeltas(ms)
  {
    if ms == [] then 0.0 else SumX(ms[..|ms| - 1]) + ms[|ms| - 1].dx
  }

  function SumY(ms: seq<Move>): real
    requires OnlyDeltas(ms)
  {
    if ms == [] then 0.0 else SumY(ms[..|ms| - 1]) + ms[|ms| - 1].dy
  }

  /** On no part of the run do the sums leave the columns of the screen. */
  ghost predicate FreeX(c: Cursor, ms: seq<Move>)
    requires OnlyDeltas(ms)
  {
    forall k :: 0 <= k <= |ms| ==> 0.0 <= c.x + SumX(ms[..k]) <= Current(c).width - 1.0
  }

  ghost predicate FreeY(c: Cursor, ms: seq<Move>)
    requires OnlyDeltas(ms)
  {
    forall k :: 0 <= k <= |ms| ==> 0.0 <= c.y + SumY(ms[..k]) <= Current(c).height - 1.0
  }

  ghost predicate NoCrossing(c: Cursor, ms: seq<Move>) {
    forall k :: 0 <= k <= |ms| ==> Steps(c, ms[..k]).target == c.target
  }

  lemma FreeBefore(c: Cursor, ms: seq<Move>)
    requires ms != [] && OnlyDeltas(ms)
    ensures FreeX(c, ms) ==> FreeX(c, ms[..|ms| - 1]) && 0.0 <= c.x + SumX(ms) <= Current(c).width - 1.0
    ensures FreeY(c, ms) ==> FreeY(c, ms[..|ms| - 1]) && 0.0 <= c.y + SumY(ms) <= Current(c).height - 1.0
    ensures NoCrossing(c, ms) ==> NoCrossing(c, ms[..|ms| - 1])
  {
    hide Steps, SumX, SumY;
    var n := |ms| - 1;
    assert ms[..|ms|] == ms;
    forall k | 0 <= k <= n ensures ms[..n][..k] == ms[..k] {
    }
  }

  /** Motions that never leave the columns of the screen do not cross, and move the
      cursor sideways by the sum of the motions, whatever happens to its height. */
  lemma {:induction false} MovesBySumX(c: Cursor, ms: seq<Move>)
    requires OnlyDeltas(ms) && FreeX(c, ms)
    ensures var s := Steps(c, ms); s == c.(x := c.x + SumX(ms), y := s.y) && NoCrossing(c, ms)
  {
    if ms != [] {
      var n := |ms| - 1;
      FreeBefore(c, ms);
      MovesBySumX(c, ms[..n]);
      CrossingLast(c, ms);
      hide FreeX, NoCrossing;
    } else {
      assert ms[..0] == [];
    }
  }

  lemma CrossingLast(c: Cursor, ms: seq<Move>)
    requires ms != [] && NoCrossing(c, ms[..|ms| - 1])
    ensures Steps(c, ms).target == c.target ==> NoCrossing(c, ms)
  {
    hide Steps;
    var n := |ms| - 1;
    assert ms[..|ms|] == ms;
    forall k | 0 <= k <= n ensures ms[..n][..k] == ms[..k] {
    }
  }

  /** Motions that never leave the rows of the screen move the cursor down by the
      sum of the motions, also along a border, as long as none crosses. */
  lemma {:induction false} MovesBySumY(c: Cursor, ms: seq<Move>)
    requires OnlyDeltas(ms) && FreeY(c, ms) && NoCrossing(c, ms)
    ensures var s := Steps(c, ms); s == c.(x := s.x, y := c.y + SumY(ms))
  {
    if ms != [] {
      var n := |ms| - 1;
      FreeBefore(c, ms);
      MovesBySumY(c, ms[..n]);
      assert ms[..|ms|] == ms;
    }
  }

  /** Crossing and forced return keep the height relative to the screens', except
      that no row is below the last. */
  lemma HeightKept(c: Cursor, y: real)
    requires 0.0 <= y <= c.local.height - 1.0
    ensures var there := EnterRemote(c, y).y;
      there * c.local.height == y * c.remote.height
      || (there == c.remote.height - 1.0 && there * c.local.height < y * c.remote.height)
    ensures 0.0 <= y <= c.remote.height - 1.0 ==>
      var back := ForceLocal(c.(target := Remote, y := y)).y;
      || back * c.remote.height == y * c.local.height
      || (back == c.local.height - 1.0 && back * c.remote.height < y * c.local.height)
  {
    MapKeepsHeight(c.local, c.remote, y);
    if y <= c.remote.height - 1.0 {
      MapKeepsHeight(c.remote, c.local, y);
    }
    hide MapY;
  }

  lemma MapKeepsHeight(from: Display, to: Display, y: real)
    requires 0.0 <= y
    ensures var there := MapY(from, to, y);
      || there * from.height == y * to.height
      || (there == to.height - 1.0 && there * from.height < y * to.height)
  {
    var h, g := from.height, to.height;
    var k := g / h;
    assert k * h == g && y / h * g == y * k && (y * k) * h == y * g;
    TimesLess(g - 1.0, y * k, h);
    TimesLess(y * k, 0.0, h);
  }

  // ----- vertical continuity ---------------------------------------------------

  function ThereAndBack(c: Cursor, y: real): real {
    MapY(c.remote, c.local, MapY(c.local, c.remote, y))
  }

  lemma ScaleBack(y: real, a: real, b: real)
    requires a > 0.0 && b > 0.0
    ensures Proportion(Proportion(y, a, b), b, a) == y
  {
  }

  lemma ScaleKeepsOrder(y: real, z: real, a: real, b: real)
    requires a > 0.0 && b > 0.0
    ensures y <= z <==> Proportion(y, a, b) <= Proportion(z, a, b)
    ensures Proportion(0.0, a, b) == 0.0
  {
    var k := b / a;
    assert Proportion(y, a, b) == y * k && Proportion(z, a, b) == z * k && k > 0.0;
    TimesLess(y, z, k);
    TimesLess(z, y, k);
  }

  lemma TimesLess(a: real, b: real, d: real)
    requires d > 0.0
    ensures a < b <==> a * d < b * d
  {
  }

  function Ratio(g: real, h: real): real
    requires h != 0.0
  {
    g / h
  }

  /** The last row of a screen of height h, seen from one of height g. */
  lemma LastRow(h: real, g: real)
    requires h >= 2.0 && g >= 2.0
    ensures Proportion(h - 1.0, h, g) == g - Ratio(g, h)
    ensures Ratio(g, h) <= 1.0 <==> g <= h
    ensures Ratio(g, h) >= 1.0 <==> g >= h
  {
    assert (h - 1.0) / h == 1.0 - 1.0 / h;
    assert g * (1.0 / h) == Ratio(g, h);
    assert Ratio(g, h) * h == g;
    TimesLess(1.0, Ratio(g, h), h);
    TimesLess(Ratio(g, h), 1.0, h);
  }

  /** A round trip keeps y, except for the rows that fall below the last row of
      a lower remote screen; those come back at that row. */
  lemma RoundTrip(c: Cursor, y: real)
    requires 0.0 <= y <= c.local.height - 1.0
    ensures var h, g := c.local.height, c.remote.height;
      ThereAndBack(c, y) == if g >= h || y <= h - Ratio(h, g) then y else h - Ratio(h, g)
    ensures MapY(c.local, c.remote, ThereAndBack(c, y)) == MapY(c.local, c.remote, y)
  {
    hide Proportion, Ratio;
    var h, g := c.local.height, c.remote.height;
    var z := Proportion(y, h, g);
    LastRow(h, g);
    LastRow(g, h);
    ScaleBack(y, h, g);
    ScaleBack(g - 1.0, g, h);
    ScaleKeepsOrder(0.0, y, h, g);
    ScaleKeepsOrder(y, h - 1.0, h, g);
    ScaleKeepsOrder(z, g - 1.0, g, h);
    ScaleKeepsOrder(0.0, g - 1.0, g, h);
  }

  /** No vertical motion: motion sideways, forced returns, and activations at
      the height the local cursor has. */
  predicate Level(c: Cursor, m: Move) {
    match m
    case Delta(_, dy) => dy == 0.0
    case Enter(y) => c.target.Local? && y == c.y
    case Force => true
  }

  ghost predicate LevelRun(c: Cursor, ms: seq<Move>) {
    forall i :: 0 <= i < |ms| ==> Level(Steps(c, ms[..i]), ms[i])
  }

  ghost predicate SameHeight(c: Cursor, s: Cursor) {
    && s.local == c.local && s.remote == c.remote && s.edge == c.edge
    && if s.target.Local? then s.y == c.y || s.y == ThereAndBack(c, c.y)
       else s.y == MapY(c.local, c.remote, c.y)
  }

  lemma LevelStep(c: Cursor, s: Cursor, m: Move)
    requires Inside(c) && c.target.Local? && SameHeight(c, s) && Inside(s) && Level(s, m)
    ensures SameHeight(c, Step(s, m)) && Inside(Step(s, m))
  {
    RoundTrip(c, c.y);
    hide MapY, ThereAndBack;
    StepInside(s, m);
    BackIs(c, c.y);
  }

  lemma StepInside(s: Cursor, m: Move)
    requires Inside(s)
    ensures Inside(Step(s, m))
  {
  }

  lemma BackIs(c: Cursor, y: real)
    ensures ThereAndBack(c, y) == MapY(c.remote, c.local, MapY(c.local, c.remote, y))
  {
  }

  lemma {:induction false} LevelSteps(c: Cursor, ms: seq<Move>)
    requires Inside(c) && c.target.Local? && LevelRun(c, ms)
    ensures SameHeight(c, Steps(c, ms)) && Inside(Steps(c, ms))
  {
    hide MapY, ThereAndBack, Step;
    if ms != [] {
      var n := |ms| - 1;
      assert LevelRun(c, ms[..n]) by {
        forall i | 0 <= i < n ensures Level(Steps(c, ms[..n][..i]), ms[..n][i]) {
          assert ms[..n][..i] == ms[..i];
        }
      }
      LevelSteps(c, ms[..n]);
      LevelStep(c, Steps(c, ms[..n]), ms[n]);
    }
  }

  /** Any number of crossings without vertical motion moves the local cursor
      up by nothing if the remote screen is at least as high, and otherwise by
      at most local height / remote height - 1 in total; never down. */
  lemma NoDrift(c: Cursor, ms: seq<Move>)
    requires Inside(c) && c.target.Local? && LevelRun(c, ms)
    requires Steps(c, ms).target.Local?
    ensures var h, g := c.local.height, c.remote.height;
      var y := Steps(c, ms).y;
      if g >= h then y == c.y else c.y - (Ratio(h, g) - 1.0) <= y <= c.y
  {
    LevelSteps(c, ms);
    RoundTrip(c, c.y);
    LastRow(c.remote.height, c.local.height);
    hide Steps, ThereAndBack, MapY, Ratio, Proportion;
  }

  // ----- pixels ------------------------------------------------------------------

  /** Where the bridge's report puts integer pixel p of a w-pixel axis. */
  function HidCoord(w: int, p: int): int
    requires w >= 2
  {
    Scale(p as real, w as real) / 2
  }

  function Position(w: int, p: int): real
    requires w >= 2
  {
    p as real * (65535.0 / (w - 1) as real)
  }

  lemma Unclamped(w: int, p: int)
    requires 2 <= w && 0 <= p < w
    ensures 0.0 <= Position(w, p) <= 65535.0
    ensures Scale(p as real, w as real) == Round(Position(w, p))
    ensures Position(w, 0) == 0.0 && Position(w, w - 1) == 65535.0
  {
    var d, q := (w - 1) as real, p as real;
    var k := 65535.0 / d;
    assert w as real - 1.0 == d && d * k == 65535.0;
    assert q / d * 65535.0 == q * k;
    TimesLess(d, q, k);
  }

  lemma PositionStep(w: int, p: int)
    requires 2 <= w && 0 <= p < w - 1
    ensures Position(w, p) <= Position(w, p + 1)
    ensures w <= 32768 ==> Position(w, p) + 2.0 <= Position(w, p + 1)
  {
    var d := (w - 1) as real;
    var k := 65535.0 / d;
    assert k * d == 65535.0;
    TimesLess(k, 2.0, d);
    assert (p + 1) as real * k == p as real * k + k;
  }

  lemma PixelStep(w: int, p: int)
    requires 2 <= w && 0 <= p < w - 1
    ensures HidCoord(w, p) <= HidCoord(w, p + 1)
    ensures w <= 32768 ==> HidCoord(w, p) < HidCoord(w, p + 1)
  {
    hide Position, Scale;
    Unclamped(w, p);
    Unclamped(w, p + 1);
    PositionStep(w, p);
    if w <= 32768 {
      RoundGap(Position(w, p), Position(w, p + 1));
    }
  }

  lemma RoundGap(a: real, b: real)
    requires b >= a + 2.0
    ensures Round(b) >= Round(a) + 2
  {
  }

  lemma {:induction false} PixelsSpread(w: int, p: int, q: int)
    requires 2 <= w && 0 <= p <= q < w
    ensures HidCoord(w, p) <= HidCoord(w, q)
    ensures w <= 32768 ==> HidCoord(w, p) + (q - p) <= HidCoord(w, q)
    decreases q
  {
    hide HidCoord;
    if p < q {
      PixelsSpread(w, p, q - 1);
      PixelStep(w, q - 1);
    }
  }

  lemma EndPixels(w: int)
    requires 2 <= w
    ensures HidCoord(w, 0) == 0 && HidCoord(w, w - 1) == 32767
  {
    hide Position, Scale;
    Unclamped(w, 0);
    Unclamped(w, w - 1);
  }

  /** A place on a screen is sent as the nearest of 65536 steps from border to border,
      and halfway between two as the higher. */
  lemma ScaleIsNearest(v: real, extent: real)
    requires extent >= 2.0 && 0.0 <= v <= extent - 1.0
    ensures var n, last := Scale(v, extent) as real, extent - 1.0;
      (2.0 * n - 1.0) * last <= 2.0 * (65535.0 * v) < (2.0 * n + 1.0) * last
  {
    hide Scale, Round;
    var last := extent - 1.0;
    var q := v / last * 65535.0;
    ScaleRounds(v, extent);
    RoundIsNearest(q);
    Halves(Round(q) as real, q, last, 65535.0 * v);
  }

  lemma ScaleRounds(v: real, extent: real)
    requires extent >= 2.0 && 0.0 <= v <= extent - 1.0
    ensures Scale(v, extent) == Round(v / (extent - 1.0) * 65535.0)
    ensures v / (extent - 1.0) * 65535.0 * (extent - 1.0) == 65535.0 * v
  {
    hide Round;
    var last := extent - 1.0;
    var k := v / last;
    assert k * last == v;
    TimesLess(k, 0.0, last);
    TimesLess(1.0, k, last);
    assert k * 65535.0 * last == 65535.0 * (k * last);
  }

  lemma RoundIsNearest(q: real)
    ensures Round(q) as real - 0.5 <= q < Round(q) as real + 0.5
  {
  }

  lemma Halves(n: real, q: real, last: real, p: real)
    requires last > 0.0 && q * last == p && n - 0.5 <= q < n + 0.5
    ensures (2.0 * n - 1.0) * last <= 2.0 * p < (2.0 * n + 1.0) * last
  {
    var above, below := q - (n - 0.5), n + 0.5 - q;
    TimesLess(0.0, below, last);
    TimesLess(above, 0.0, last);
    var m := n * last;
    assert above * last == p - m + 0.5 * last;
    assert below * last == m + 0.5 * last - p;
    assert (2.0 * n - 1.0) * last == 2.0 * m - last;
    assert (2.0 * n + 1.0) * last == 2.0 * m + last;
  }

  ghost predicate PixelsDistinct(w: int)
    requires w >= 2
  {
    forall p: int, q: int :: 0 <= p < q < w ==> HidCoord(w, p) != HidCoord(w, q)
  }

  lemma {:induction false} DistinctSpread(w: int, p: int)
    requires 2 <= w && 0 <= p < w && PixelsDistinct(w)
    ensures HidCoord(w, p) >= p
    decreases p
  {
    hide HidCoord;
    if p == 0 {
      EndPixels(w);
    } else {
      DistinctSpread(w, p - 1);
      PixelStep(w, p - 1);
      assert HidCoord(w, p - 1) != HidCoord(w, p);
    }
  }

  /** Rounding to canonical coordinates and halving at the bridge keeps every
      pixel of an axis apart exactly when the axis has at most 32768; then it is
      strictly increasing from 0 to 32767. */
  lemma PixelsDistinctIff(w: int)
    requires w >= 2
    ensures PixelsDistinct(w) <==> w <= 32768
    ensures HidCoord(w, 0) == 0 && HidCoord(w, w - 1) == 32767
    ensures forall p: int, q: int :: 0 <= p < q < w ==> 0 <= HidCoord(w, p) <= HidCoord(w, q) <= 32767
  {
    hide HidCoord;
    EndPixels(w);
    forall p: int, q: int | 0 <= p < q < w
      ensures 0 <= HidCoord(w, p) <= HidCoord(w, q) <= 32767
      ensures w <= 32768 ==> HidCoord(w, p) != HidCoord(w, q)
    {
      PixelsSpread(w, 0, p);
      PixelsSpread(w, p, q);
      PixelsSpread(w, q, w - 1);
    }
    if PixelsDistinct(w) {
      DistinctSpread(w, w - 1);
    }
  }
}
