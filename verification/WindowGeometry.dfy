/** Display-space geometry of the main window: finding a display and fitting a frame onto it, over reals. */
module WindowGeometry {
  import opened Common

  const U32_MAX: int := 0xFFFF_FFFF

  /** Display factors are positive: any other reported value is replaced by one. */
  type Factor = r: real | r > 0.0 witness 1.0
  type U32 = n: int | 0 <= n <= U32_MAX

  datatype PhysicalRect = PhysicalRect(x: int, y: int, width: U32, height: U32)
  datatype LogicalRect = LogicalRect(x: real, y: real, width: real, height: real)
  datatype Monitor = Monitor(rect: PhysicalRect, factor: Factor)

  /** Rounding half away from zero. */
  function Round(x: real): int {
    if x >= 0.0 then (x + 0.5).Floor else -((0.5 - x).Floor)
  }

  function ToLogical(rect: PhysicalRect, factor: Factor): LogicalRect {
    LogicalRect(rect.x as real / factor, rect.y as real / factor, rect.width as real / factor,
        rect.height as real / factor)
  }

  function Bounds(m: Monitor): LogicalRect { ToLogical(m.rect, m.factor) }

  // ---------------------------------------------------------------- searches

  /** Index `i` holds the first element that satisfies the test. */
  predicate IsFirst<T>(s: seq<T>, test: T -> bool, i: int) {
    0 <= i < |s| && test(s[i]) && forall j :: 0 <= j < i ==> !test(s[j])
  }

  function Find<T>(s: seq<T>, test: T -> bool): (r: Option<T>)
    ensures r.None? ==> forall i :: 0 <= i < |s| ==> !test(s[i])
    ensures r.Some? ==> exists i :: IsFirst(s, test, i) && r.value == s[i]
  {
    if s == [] then None
    else if test(s[0]) then Some(s[0])
    else
      var r := Find(s[1..], test);
      assert forall i :: 1 <= i < |s| ==> s[i] == s[1..][i - 1];
      assert forall i :: 0 <= i < |s[1..]| && IsFirst(s[1..], test, i) ==> IsFirst(s, test, i + 1);
      r
  }

  /** Index `i` holds the last largest key. */
  predicate IsLastMax<T>(s: seq<T>, key: T -> int, i: int) {
    && 0 <= i < |s|
    && (forall j :: 0 <= j <= i ==> key(s[j]) <= key(s[i]))
    && (forall j :: i < j < |s| ==> key(s[j]) < key(s[i]))
  }

  function LastMax<T>(s: seq<T>, key: T -> int): (i: nat)
    requires s != []
    ensures IsLastMax(s, key, i)
  {
    if |s| == 1 then 0
    else
      var i := LastMax(s[1..], key);
      assert forall j :: 1 <= j < |s| ==> s[j] == s[1..][j - 1];
      if key(s[0]) > key(s[i + 1]) then 0 else i + 1
  }

  /** Index `i` holds the first smallest key. */
  predicate IsFirstMin<T>(s: seq<T>, key: T -> int, i: int) {
    && 0 <= i < |s|
    && (forall j :: 0 <= j < i ==> key(s[j]) > key(s[i]))
    && (forall j :: i <= j < |s| ==> key(s[j]) >= key(s[i]))
  }

  function FirstMin<T>(s: seq<T>, key: T -> int): (i: nat)
    requires s != []
    ensures IsFirstMin(s, key, i)
  {
    if |s| == 1 then 0
    else
      var i := FirstMin(s[1..], key);
      assert forall j :: 1 <= j < |s| ==> s[j] == s[1..][j - 1];
      if key(s[0]) <= key(s[i + 1]) then 0 else i + 1
  }

  function Filter<T(!new)>(s: seq<T>, test: T -> bool): (r: seq<T>)
    ensures forall x :: x in r <==> x in s && test(x)
  {
    if s == [] then []
    else
      assert forall x :: x in s <==> x == s[0] || x in s[1..];
      (if test(s[0]) then [s[0]] else []) + Filter(s[1..], test)
  }

  // ---------------------------------------------------------------- physical rectangles

  const MIN_WIDTH: U32 := 900
  const MIN_HEIGHT: U32 := 600
  const DEFAULT_WIDTH: U32 := 1280
  const DEFAULT_HEIGHT: U32 := 800

  predicate ContainsPoint(m: Monitor, x: int, y: int) {
    m.rect.x <= x < m.rect.x + m.rect.width && m.rect.y <= y < m.rect.y + m.rect.height
  }

  predicate Plausible(rect: PhysicalRect, m: Monitor) {
    rect.width as real / m.factor >= MIN_WIDTH as real && rect.height as real / m.factor >= MIN_HEIGHT as real
  }

  function Shared(start: int, length: int, otherStart: int, otherLength: int): nat {
    Max(Min(start + length, otherStart + otherLength) - Max(start, otherStart), 0)
  }

  function Overlap(rect: PhysicalRect, m: Monitor): nat {
    Shared(rect.x, rect.width, m.rect.x, m.rect.width) * Shared(rect.y, rect.height, m.rect.y, m.rect.height)
  }

  function Gap(start: int, length: int, otherStart: int, otherLength: int): nat {
    Max(Max(otherStart - (start + length), start - (otherStart + otherLength)), 0)
  }

  function Distance(rect: PhysicalRect, m: Monitor): int {
    var gx, gy := Gap(rect.x, rect.width, m.rect.x, m.rect.width), Gap(rect.y, rect.height, m.rect.y, m.rect.height);
    gx * gx + gy * gy
  }

  function OverlapWith(rect: PhysicalRect): Monitor -> int { m => Overlap(rect, m) }

  function Overlapped(rect: PhysicalRect): Monitor -> bool { m => Overlap(rect, m) > 0 }

  function DistanceTo(rect: PhysicalRect): Monitor -> int { m => Distance(rect, m) }

  function MostOverlapped(rect: PhysicalRect, monitors: seq<Monitor>): (r: Option<Monitor>)
    ensures r.None? ==> forall m :: m in monitors ==> Overlap(rect, m) <= 0
    ensures r.Some? ==>
              && r.value in monitors && Overlap(rect, r.value) > 0
              && forall m :: m in monitors ==> Overlap(rect, m) <= Overlap(rect, r.value)
  {
    hide Overlap;
    var overlapping := Filter(monitors, Overlapped(rect));
    assert forall m :: m in monitors && Overlap(rect, m) > 0 ==> m in overlapping;
    if overlapping == [] then None else Some(overlapping[LastMax(overlapping, OverlapWith(rect))])
  }

  function Nearest(rect: PhysicalRect, monitors: seq<Monitor>): (r: Option<Monitor>)
    ensures r.None? <==> monitors == []
    ensures r.Some? ==>
              r.value in monitors && forall m :: m in monitors ==> Distance(rect, r.value) <= Distance(rect, m)
  {
    hide Distance;
    if monitors == [] then None else Some(monitors[FirstMin(monitors, DistanceTo(rect))])
  }

  /** `matching_monitor`: containing and plausible, containing, most overlapped, nearest. */
  function MatchingMonitor(rect: PhysicalRect, monitors: seq<Monitor>): (r: Option<Monitor>)
    ensures r.None? <==> monitors == []
    ensures r.Some? ==> r.value in monitors
  {
    hide Overlap, Distance, Plausible, ContainsPoint;
    var best := Find(monitors, m => Plausible(rect, m) && ContainsPoint(m, rect.x, rect.y));
    if best.Some? then best
    else
      var containing := Find(monitors, m => ContainsPoint(m, rect.x, rect.y));
      if containing.Some? then containing
      else
        var overlapped := MostOverlapped(rect, monitors);
        if overlapped.Some? then overlapped else Nearest(rect, monitors)
  }

  // ---------------------------------------------------------------- logical rectangles

  predicate Holds(b: LogicalRect, x: real, y: real) {
    b.x <= x < b.x + b.width && b.y <= y < b.y + b.height
  }

  predicate Overlaps(a: LogicalRect, b: LogicalRect) {
    a.x < b.x + b.width && a.x + a.width > b.x && a.y < b.y + b.height && a.y + a.height > b.y
  }

  predicate Inside(a: LogicalRect, b: LogicalRect) {
    b.x <= a.x && a.x + a.width <= b.x + b.width && b.y <= a.y && a.y + a.height <= b.y + b.height
  }

  /** `monitor_for_logical`: the first display that holds the origin, else the first it overlaps, else the first. */
  function MonitorFor(rect: LogicalRect, monitors: seq<Monitor>): (r: Option<Monitor>)
    ensures r.None? <==> monitors == []
    ensures r.Some? ==> r.value in monitors
  {
    var holding := Find(monitors, m => Holds(Bounds(m), rect.x, rect.y));
    if holding.Some? then holding
    else
      var overlapping := Find(monitors, m => Overlaps(rect, Bounds(m)));
      if overlapping.Some? then overlapping
      else if monitors != [] then Some(monitors[0])
      else None
  }

  /** Which display that is: no earlier one holds the origin, or, when none does, no earlier one overlaps. */
  lemma MonitorForIsFirst(rect: LogicalRect, monitors: seq<Monitor>)
    requires monitors != []
    ensures exists i :: 0 <= i < |monitors| && MonitorFor(rect, monitors).value == monitors[i] &&
              if Holds(Bounds(monitors[i]), rect.x, rect.y) then
                forall j :: 0 <= j < i ==> !Holds(Bounds(monitors[j]), rect.x, rect.y)
              else
                && (forall j :: 0 <= j < |monitors| ==> !Holds(Bounds(monitors[j]), rect.x, rect.y))
                && (forall j :: 0 <= j < i ==> !Overlaps(rect, Bounds(monitors[j])))
                && (Overlaps(rect, Bounds(monitors[i]))
                   || (i == 0 && forall j :: 0 <= j < |monitors| ==> !Overlaps(rect, Bounds(monitors[j]))))
  {
    hide Bounds, Holds, Overlaps;
    var p := (m: Monitor) => Holds(Bounds(m), rect.x, rect.y);
    var q := (m: Monitor) => Overlaps(rect, Bounds(m));
    if Find(monitors, p).Some? {
      var i :| IsFirst(monitors, p, i) && Find(monitors, p).value == monitors[i];
      assert Holds(Bounds(monitors[i]), rect.x, rect.y);
    } else {
      assert forall j :: 0 <= j < |monitors| ==> !p(monitors[j]);
      if Find(monitors, q).Some? {
        var i :| IsFirst(monitors, q, i) && Find(monitors, q).value == monitors[i];
        assert Overlaps(rect, Bounds(monitors[i]));
      } else {
        assert forall j :: 0 <= j < |monitors| ==> !q(monitors[j]);
        assert MonitorFor(rect, monitors).value == monitors[0];
      }
    }
  }

  function MinReal(a: real, b: real): real { if a <= b then a else b }
  function MaxReal(a: real, b: real): real { if a >= b then a else b }

  /** `centered_axis`. */
  function CenteredAxis(start: real, length: real, displayStart: real, displayLength: real): (r: real)
    ensures length <= displayLength ==> displayStart <= r && r + length <= displayStart + displayLength
    ensures length <= displayLength ==>
            (r == start <==> displayStart <= start && start + length <= displayStart + displayLength)
    ensures length <= displayLength && r != start ==>
            -0.5 < (r + length / 2.0) - (displayStart + displayLength / 2.0) <= 0.5
  {
    var slack := MaxReal(displayLength - length, 0.0);
    if start < displayStart || start > displayStart + slack then displayStart + Round(slack / 2.0) as real else start
  }

  /** `fit_logical`. */
  function Fit(rect: LogicalRect, monitors: seq<Monitor>): LogicalRect {
    match MonitorFor(rect, monitors)
    case None => rect
    case Some(m) =>
      var b := Bounds(m);
      var width, height := MinReal(rect.width, b.width), MinReal(rect.height, b.height);
      LogicalRect(CenteredAxis(rect.x, width, b.x, b.width), CenteredAxis(rect.y, height, b.y, b.height), width, height)
  }

  /** A fitted frame lies inside the display it was fitted to, and only a frame that already did is left alone. */
  lemma FitInside(rect: LogicalRect, monitors: seq<Monitor>)
    requires monitors != []
    ensures Inside(Fit(rect, monitors), Bounds(MonitorFor(rect, monitors).value))
    ensures Fit(rect, monitors) == rect <==> Inside(rect, Bounds(MonitorFor(rect, monitors).value))
  {
    hide MonitorFor, Bounds, CenteredAxis;
  }
}
