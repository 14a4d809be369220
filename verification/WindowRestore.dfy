/** Restoring the main window: what a restored frame is, and when restoring it again changes nothing. */
module WindowRestore {
  import opened Common
  import opened WindowGeometry

  /** `PersistedWindowState`, the part that restoring reads. */
  datatype SavedState = SavedState(width: U32, height: U32, x: int, y: int, prevX: int, prevY: int, maximized: bool)

  /** `WindowGeometry`: a frame in points and the factor the window reported. */
  datatype Geometry = Geometry(frame: LogicalRect, factor: real)

  predicate Usable(g: Geometry) { g.frame.width > 0.0 && g.frame.height > 0.0 && g.factor > 0.0 }

  function SanePoints(value: real, min: U32, default: U32): real {
    if value >= min as real then value else default as real
  }

  function SaturateU32(n: int): U32 { Max(0, Min(n, U32_MAX)) }

  function Scale(factor: Factor): Factor { if factor >= 1.0 then factor else 1.0 }

  /** The points read from saved pixels, before the size is replaced by the default. */
  function SavedPoints(saved: U32, factor: Factor): U32 {
    SaturateU32(Round(saved as real / Scale(factor)))
  }

  function Exact(points: U32, factor: Factor): (r: real)
    ensures r >= 0.0
  {
    points as real * factor
  }

  function Pixels(points: U32, factor: Factor): U32 { SaturateU32(Round(Exact(points, factor))) }

  /** One axis of `sane_window_size`. */
  function SanePixels(saved: U32, factor: Factor, min: U32, default: U32): U32 {
    var points := SavedPoints(saved, factor);
    Pixels(if points >= min then points else default, Scale(factor))
  }

  function SavedRect(s: SavedState): PhysicalRect {
    if s.maximized then PhysicalRect(s.prevX, s.prevY, s.width, s.height) else PhysicalRect(s.x, s.y, s.width, s.height)
  }

  /** `point_frame`. */
  function PointFrame(rect: PhysicalRect, factor: Factor, m: Monitor): LogicalRect {
    var origin := Bounds(m);
    LogicalRect(origin.x + (rect.x as real / factor - origin.x), origin.y + (rect.y as real / factor - origin.y),
                rect.width as real / factor, rect.height as real / factor)
  }

  /** The frame to fit when there is a usable entry in points. */
  function StoredFrame(g: Geometry): LogicalRect {
    LogicalRect(g.frame.x, g.frame.y, SanePoints(g.frame.width, MIN_WIDTH, DEFAULT_WIDTH),
        SanePoints(g.frame.height, MIN_HEIGHT, DEFAULT_HEIGHT))
  }

  /** The frame to fit when only pixels were saved, read at the factor of the matching display. */
  function LegacyFrame(s: SavedState, m: Monitor): LogicalRect {
    var pixels := SavedRect(s);
    var rect := PhysicalRect(pixels.x, pixels.y, SanePixels(pixels.width, m.factor, MIN_WIDTH, DEFAULT_WIDTH),
                             SanePixels(pixels.height, m.factor, MIN_HEIGHT, DEFAULT_HEIGHT));
    PointFrame(rect, m.factor, m)
  }

  /** The frame that restoring fits onto a display, and the factor it records. */
  function Target(stored: Option<Geometry>, state: Option<SavedState>, monitors: seq<Monitor>): Option<Geometry> {
    if stored.Some? && Usable(stored.value) then Some(Geometry(StoredFrame(stored.value), stored.value.factor))
    else if state.None? then None
    else
      match MatchingMonitor(SavedRect(state.value), monitors)
      case None => None
      case Some(m) => Some(Geometry(LegacyFrame(state.value, m), m.factor))
  }

  /** `restore_geometry`. */
  function RestoreGeometry(stored: Option<Geometry>, state: Option<SavedState>, monitors: seq<Monitor>)
      : Option<Geometry>
  {
    match Target(stored, state, monitors)
    case None => None
    case Some(t) =>
      var g := Geometry(Fit(t.frame, monitors), t.factor);
      if Usable(g) then Some(g) else None
  }

  // ---------------------------------------------------------------- displays

  predicate Positive(monitors: seq<Monitor>) {
    forall m :: m in monitors ==> m.rect.width > 0 && m.rect.height > 0
  }

  predicate Apart(a: LogicalRect, b: LogicalRect) {
    a.x + a.width <= b.x || b.x + b.width <= a.x || a.y + a.height <= b.y || b.y + b.height <= a.y
  }

  /** Two displays cover the same points or none in common. */
  predicate Disjoint(monitors: seq<Monitor>) {
    forall m, n :: m in monitors && n in monitors ==> Bounds(m) == Bounds(n) || Apart(Bounds(m), Bounds(n))
  }

  lemma PositiveBounds(m: Monitor)
    requires m.rect.width > 0 && m.rect.height > 0
    ensures Bounds(m).width > 0.0 && Bounds(m).height > 0.0
  {
  }

  /** The display of a frame whose origin some display holds does not depend on the frame's size. */
  lemma OriginDecides(a: LogicalRect, b: LogicalRect, monitors: seq<Monitor>, m: Monitor)
    requires a.x == b.x && a.y == b.y && m in monitors && Holds(Bounds(m), a.x, a.y)
    ensures MonitorFor(a, monitors) == MonitorFor(b, monitors)
    ensures MonitorFor(a, monitors).Some? && Holds(Bounds(MonitorFor(a, monitors).value), a.x, a.y)
  {
    hide Bounds, Holds;
    SameFind(monitors, m => Holds(Bounds(m), a.x, a.y), m => Holds(Bounds(m), b.x, b.y));
  }

  lemma {:induction false} SameFind(monitors: seq<Monitor>, p: Monitor -> bool, q: Monitor -> bool)
    requires forall m :: m in monitors ==> p(m) == q(m)
    ensures Find(monitors, p) == Find(monitors, q)
  {
    if monitors != [] {
      SameFind(monitors[1..], p, q);
    }
  }

  // ---------------------------------------------------------------- the restored frame

  /** A restored frame lies inside one display. */
  lemma RestoredInside(stored: Option<Geometry>, state: Option<SavedState>, monitors: seq<Monitor>)
    requires RestoreGeometry(stored, state, monitors).Some? && monitors != []
    ensures exists m :: m in monitors && Inside(RestoreGeometry(stored, state, monitors).value.frame, Bounds(m))
  {
    hide Fit, MonitorFor, Bounds, Inside, Target;
    FitInside(Target(stored, state, monitors).value.frame, monitors);
  }

  /** One axis of the second restore keeps the length. */
  predicate KeepsLength(length: real, displayLength: real, min: U32) {
    length >= min as real || length == displayLength
  }

  /**
    Restoring a restored frame gives the same frame if and only if the first display that holds its
    origin holds all of it, and is exactly as long as the frame on every axis where the frame is below the minimum.
   */
  lemma FixedIff(g: Geometry, state: Option<SavedState>, monitors: seq<Monitor>, m: Monitor)
    requires Usable(g) && m in monitors && Holds(Bounds(m), g.frame.x, g.frame.y)
    ensures var d := MonitorFor(g.frame, monitors).value;
            RestoreGeometry(Some(g), state, monitors) == Some(g)
            <==> && Inside(g.frame, Bounds(d))
                 && KeepsLength(g.frame.width, Bounds(d).width, MIN_WIDTH)
                 && KeepsLength(g.frame.height, Bounds(d).height, MIN_HEIGHT)
  {
    hide MonitorFor, Bounds, CenteredAxis;
    OriginDecides(StoredFrame(g), g.frame, monitors, m);
  }

  lemma OriginHeld(f: LogicalRect, b: LogicalRect)
    requires Inside(f, b) && f.width > 0.0 && f.height > 0.0
    ensures Holds(b, f.x, f.y)
  {
  }

  /** On disjoint displays the first display that holds a frame's origin is the display the frame is inside. */
  lemma SameDisplay(g: Geometry, monitors: seq<Monitor>, m: Monitor)
    requires Usable(g) && Disjoint(monitors) && m in monitors && Inside(g.frame, Bounds(m))
    ensures MonitorFor(g.frame, monitors).Some? && Bounds(MonitorFor(g.frame, monitors).value) == Bounds(m)
    ensures Holds(Bounds(m), g.frame.x, g.frame.y)
  {
    hide MonitorFor, Bounds;
    OriginHeld(g.frame, Bounds(m));
    OriginDecides(g.frame, g.frame, monitors, m);
  }

  /** What is restored from any entry in points is restored unchanged ever after, whatever the other file says. */
  lemma StoredIsFixed(g: Geometry, state: Option<SavedState>, later: Option<SavedState>, monitors: seq<Monitor>)
    requires Usable(g) && Disjoint(monitors) && Positive(monitors)
    ensures RestoreGeometry(Some(g), state, monitors).Some?
    ensures var r := RestoreGeometry(Some(g), state, monitors); RestoreGeometry(r, later, monitors) == r
  {
    hide MonitorFor, Bounds, CenteredAxis, Disjoint;
    if monitors != [] {
      var m := MonitorFor(StoredFrame(g), monitors).value;
      PositiveBounds(m);
      FitInside(StoredFrame(g), monitors);
      var r := RestoreGeometry(Some(g), state, monitors).value;
      SameDisplay(r, monitors, m);
      FixedIff(r, later, monitors, m);
    }
  }

  // ---------------------------------------------------------------- frames from pixels

  /** Rounding gives a nearest whole number, and of two equally near ones the one further from zero, on both sides. */
  lemma RoundIsNearest(x: real)
    ensures -0.5 <= Round(x) as real - x <= 0.5 && Round(-x) == -Round(x)
    ensures Round(x) as real - x == 0.5 ==> x > 0.0
    ensures Round(x) as real - x == -0.5 ==> x < 0.0
  {
  }

  lemma RoundNear(x: real)
    requires x >= 0.0
    ensures x - 0.5 < Round(x) as real <= x + 0.5
  {
  }

  lemma RoundWhole(n: nat)
    ensures Round(n as real) == n
  {
  }

  /** Rounding to pixels loses part of a point exactly at the minimum. */
  predicate RoundsBelow(saved: U32, factor: Factor, min: U32) {
    factor >= 1.0 && SavedPoints(saved, factor) == min && (Round(Exact(min, factor)) as real) < Exact(min, factor)
  }

  lemma QuotientAtLeast(p: real, f: Factor, min: U32)
    ensures p / f >= min as real <==> p >= Exact(min, f)
  {
    assert p / f * f == p;
    if p / f >= min as real {
      assert (p / f - min as real) * f >= 0.0;
    } else {
      assert (min as real - p / f) * f > 0.0;
    }
  }

  lemma LargeRounds(w: U32, factor: Factor, min: U32)
    requires factor >= 1.0 && w > min
    ensures Round(Exact(w, factor)) as real >= Exact(min, factor)
  {
    assert (w - min) as real * factor >= factor by { assert (w - min - 1) as real * factor >= 0.0; }
    assert Exact(w, factor) == Exact(min, factor) + (w - min) as real * factor;
    RoundNear(Exact(w, factor));
  }

  lemma SaturateIff(n: nat, x: real)
    ensures SaturateU32(n) as real >= x <==> U32_MAX as real >= x && n as real >= x
  {
  }

  lemma PixelsIff(w: U32, factor: Factor, x: real)
    ensures Pixels(w, factor) as real >= x <==> U32_MAX as real >= x && Round(Exact(w, factor)) as real >= x
  {
    hide Round, SaturateU32, Exact;
    RoundNear(Exact(w, factor));
    SaturateIff(Round(Exact(w, factor)), x);
  }

  lemma PixelsReachIff(w: U32, factor: Factor, min: U32)
    requires factor >= 1.0 && w >= min
    ensures Pixels(w, factor) as real >= Exact(min, factor)
       <==> && Exact(min, factor) <= U32_MAX as real
            && (w > min || Round(Exact(min, factor)) as real >= Exact(min, factor))
  {
    hide Round, Pixels, Exact;
    PixelsIff(w, factor, Exact(min, factor));
    if w > min {
      LargeRounds(w, factor, min);
    }
  }

  lemma ProductNonNegative(a: real, b: real)
    requires a >= 0.0 && b >= 0.0
    ensures a * b >= 0.0
  {
  }

  lemma ShrinksBelow(min: U32, factor: Factor)
    requires factor < 1.0
    ensures Exact(min, factor) <= min as real
  {
    var rest := 1.0 - factor;
    ProductNonNegative(min as real, rest);
    assert min as real * rest == min as real - Exact(min, factor);
  }

  lemma UnitScale(w: U32)
    ensures Pixels(w, 1.0) == w && w as real / 1.0 == w as real
  {
    hide Round;
    RoundWhole(w);
    assert Exact(w, 1.0) == w as real;
  }

  lemma SmallFactorKeeps(saved: U32, factor: Factor, min: U32, default: U32)
    requires factor < 1.0 && min < default
    ensures SanePixels(saved, factor, min, default) >= min && min as real >= Exact(min, factor)
  {
    hide Round, Exact, Pixels;
    UnitScale(saved);
    RoundWhole(saved);
    UnitScale(if saved >= min then saved else default);
    ShrinksBelow(min, factor);
  }

  /**
    A size read from pixels is at least the minimum unless rounding loses part of it or the factor overflows 32 bits.
   */
  lemma PixelsKeepMinimumIff(saved: U32, factor: Factor, min: U32, default: U32)
    requires 0 < min < default
    ensures SanePixels(saved, factor, min, default) as real / factor >= min as real
       <==> Exact(min, factor) <= U32_MAX as real && !RoundsBelow(saved, factor, min)
  {
    hide Round, SaturateU32, Pixels, Exact;
    var p := SanePixels(saved, factor, min, default);
    QuotientAtLeast(p as real, factor, min);
    if factor < 1.0 {
      SmallFactorKeeps(saved, factor, min, default);
    } else {
      var v := SavedPoints(saved, factor);
      PixelsReachIff(if v >= min then v else default, factor, min);
    }
  }

  /** Whole factors lose nothing. */
  lemma WholeFactorsKeep(saved: U32, k: nat, min: U32)
    requires k > 0
    ensures !RoundsBelow(saved, k as real, min)
  {
    RoundWhole(min * k);
    assert (min * k) as real == Exact(min, k as real);
  }

  /**
    What restoring from pixels persists is restored unchanged if and only if no axis fell below the minimum by
    rounding with room to grow.
   */
  lemma LegacyIsFixedIff(stored: Option<Geometry>, state: SavedState, later: Option<SavedState>, monitors: seq<Monitor>)
    requires (stored.Some? ==> !Usable(stored.value)) && monitors != [] && Disjoint(monitors) && Positive(monitors)
    requires RestoreGeometry(stored, Some(state), monitors).Some?
    ensures var t := Target(stored, Some(state), monitors).value.frame;
            var b := Bounds(MonitorFor(t, monitors).value);
            var r := RestoreGeometry(stored, Some(state), monitors);
            RestoreGeometry(r, later, monitors) == r
            <==> && (t.width >= MIN_WIDTH as real || b.width <= t.width)
                 && (t.height >= MIN_HEIGHT as real || b.height <= t.height)
  {
    hide MonitorFor, Bounds, CenteredAxis, Disjoint, MatchingMonitor, LegacyFrame;
    var t := Target(stored, Some(state), monitors).value.frame;
    var m := MonitorFor(t, monitors).value;
    PositiveBounds(m);
    FitInside(t, monitors);
    var r := RestoreGeometry(stored, Some(state), monitors).value;
    SameDisplay(r, monitors, m);
    FixedIff(r, later, monitors, m);
  }

  /** The size of a frame read from pixels, in the terms of `LegacyIsFixedIff`. */
  lemma LegacySizeIff(state: SavedState, monitors: seq<Monitor>)
    requires monitors != []
    ensures var m := MatchingMonitor(SavedRect(state), monitors).value;
            var t := Target(None, Some(state), monitors).value.frame;
            && (t.width >= MIN_WIDTH as real
               <==> Exact(MIN_WIDTH, m.factor) <= U32_MAX as real && !RoundsBelow(state.width, m.factor, MIN_WIDTH))
            && (t.height >= MIN_HEIGHT as real
               <==> Exact(MIN_HEIGHT, m.factor) <= U32_MAX as real && !RoundsBelow(state.height, m.factor, MIN_HEIGHT))
  {
    hide MatchingMonitor, SanePixels, RoundsBelow, Bounds, Exact;
    var m := MatchingMonitor(SavedRect(state), monitors).value;
    PixelsKeepMinimumIff(state.width, m.factor, MIN_WIDTH, DEFAULT_WIDTH);
    PixelsKeepMinimumIff(state.height, m.factor, MIN_HEIGHT, DEFAULT_HEIGHT);
  }

  // ---------------------------------------------------------------- where it fails

  lemma FindOfTwo<T>(a: T, b: T, test: T -> bool)
    ensures Find([a, b], test) == if test(a) then Some(a) else if test(b) then Some(b) else None
  {
    assert [a, b][1..] == [b] && [b][1..] == [];
  }

  lemma MonitorOfTwo(rect: LogicalRect, a: Monitor, b: Monitor)
    ensures MonitorFor(rect, [a, b]).value
         == if Holds(Bounds(a), rect.x, rect.y) then a
            else if Holds(Bounds(b), rect.x, rect.y) then b
            else if Overlaps(rect, Bounds(a)) then a
            else if Overlaps(rect, Bounds(b)) then b
            else a
  {
    hide Bounds, Holds, Overlaps, Find;
    FindOfTwo(a, b, m => Holds(Bounds(m), rect.x, rect.y));
    FindOfTwo(a, b, m => Overlaps(rect, Bounds(m)));
  }

  /** With overlapping displays a second restore can move and shrink the frame. */
  lemma OverlapDrifts()
    ensures var monitors := [Monitor(PhysicalRect(1300, 2900, 200, 200), 1.0),
            Monitor(PhysicalRect(0, 0, 4000, 4000), 1.0)];
            var g := Geometry(LogicalRect(-100.0, 3000.0, 1280.0, 800.0), 1.0);
            var r := RestoreGeometry(Some(g), None, monitors);
            && r == Some(Geometry(LogicalRect(1360.0, 3000.0, 1280.0, 800.0), 1.0))
            && RestoreGeometry(r, None, monitors) == Some(Geometry(LogicalRect(1300.0, 2900.0, 200.0, 200.0), 1.0))
  {
    hide MonitorFor, Find, MatchingMonitor, LegacyFrame;
    var small, large := Monitor(PhysicalRect(1300, 2900, 200, 200), 1.0), Monitor(PhysicalRect(0, 0, 4000, 4000), 1.0);
    assert Bounds(small) == LogicalRect(1300.0, 2900.0, 200.0, 200.0);
    assert Bounds(large) == LogicalRect(0.0, 0.0, 4000.0, 4000.0);
    MonitorOfTwo(LogicalRect(-100.0, 3000.0, 1280.0, 800.0), small, large);
    MonitorOfTwo(LogicalRect(1360.0, 3000.0, 1280.0, 800.0), small, large);
  }

  /** With a factor that rounds a minimal width down, the second restore replaces it by the default. */
  lemma FractionalFactorGrows()
    ensures var monitors := [Monitor(PhysicalRect(0, 0, 4002, 2001), 1.0005)];
            var state := SavedState(900, 800, 0, 0, 0, 0, false);
            var r := RestoreGeometry(None, Some(state), monitors);
            && r.Some? && r.value.frame.width < 900.0
            && RestoreGeometry(r, None, monitors).Some?
               && RestoreGeometry(r, None, monitors).value.frame.width == 1280.0
  {
    hide MonitorFor, MatchingMonitor, CenteredAxis;
    var m := Monitor(PhysicalRect(0, 0, 4002, 2001), 1.0005);
    var state := SavedState(900, 800, 0, 0, 0, 0, false);
    assert Bounds(m).width == 4000.0 && Bounds(m).height == 2000.0;
    assert SanePixels(900, 1.0005, MIN_WIDTH, DEFAULT_WIDTH) == 900;
    assert SanePixels(800, 1.0005, MIN_HEIGHT, DEFAULT_HEIGHT) == 800;
    hide SanePixels, Bounds;
    assert MatchingMonitor(SavedRect(state), [m]) == Some(m);
    assert 0.0 < LegacyFrame(state, m).width < 900.0 && 0.0 < LegacyFrame(state, m).height < 2000.0;
  }
}
