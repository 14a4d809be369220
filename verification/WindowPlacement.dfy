/** Where a restored window stands and how large it is, in terms of what was saved and of the displays. */
module WindowPlacement {
  import opened Common
  import opened WindowGeometry
  import opened WindowRestore

  // ---------------------------------------------------------------- displays in points

  /** A display's bounds, multiplied by its factor, are what was reported for it. */
  lemma BoundsMean(m: Monitor)
    ensures Bounds(m).x * m.factor == m.rect.x as real && Bounds(m).y * m.factor == m.rect.y as real
    ensures Bounds(m).width * m.factor == m.rect.width as real && Bounds(m).height * m.factor == m.rect.height as real
  {
  }

  /** A size is possible on a display exactly when it is at least 900 by 600 points there. */
  lemma PlausibleIff(rect: PhysicalRect, m: Monitor)
    ensures Plausible(rect, m) <==> rect.width as real >= 900.0 * m.factor && rect.height as real >= 600.0 * m.factor
  {
    QuotientAtLeast(rect.width as real, m.factor, 900);
    QuotientAtLeast(rect.height as real, m.factor, 600);
  }

  /** Two frames overlap exactly when some point lies strictly inside both. */
  lemma OverlapsIff(a: LogicalRect, b: LogicalRect)
    requires a.width > 0.0 && a.height > 0.0 && b.width > 0.0 && b.height > 0.0
    ensures Overlaps(a, b)
       <==> exists x: real, y: real :: StrictlyInside(a, x, y) && StrictlyInside(b, x, y)
  {
    if Overlaps(a, b) {
      var left, right := MaxReal(a.x, b.x), MinReal(a.x + a.width, b.x + b.width);
      var top, bottom := MaxReal(a.y, b.y), MinReal(a.y + a.height, b.y + b.height);
      assert StrictlyInside(a, (left + right) / 2.0, (top + bottom) / 2.0);
      assert StrictlyInside(b, (left + right) / 2.0, (top + bottom) / 2.0);
    }
  }

  predicate StrictlyInside(r: LogicalRect, x: real, y: real) {
    r.x < x < r.x + r.width && r.y < y < r.y + r.height
  }

  // ---------------------------------------------------------------- overlap and distance in pixels

  predicate Pixel(r: PhysicalRect, x: int, y: int) {
    r.x <= x < r.x + r.width && r.y <= y < r.y + r.height
  }

  ghost function CommonPixels(a: PhysicalRect, b: PhysicalRect): set<(int, int)> {
    set x, y | a.x <= x < a.x + a.width && a.y <= y < a.y + a.height && Pixel(b, x, y) :: (x, y)
  }

  ghost function Column(x: int, top: int, bottom: int): (r: set<(int, int)>)
    ensures forall p: (int, int) :: p in r <==> p.0 == x && top <= p.1 < bottom
    ensures |r| == Max(bottom - top, 0)
    decreases bottom - top
  {
    if top >= bottom then {} else Column(x, top, bottom - 1) + {(x, bottom - 1)}
  }

  ghost function Block(left: int, right: int, top: int, bottom: int): (r: set<(int, int)>)
    ensures forall p: (int, int) :: p in r <==> left <= p.0 < right && top <= p.1 < bottom
    decreases right - left
  {
    if left >= right then {} else Block(left, right - 1, top, bottom) + Column(right - 1, top, bottom)
  }

  lemma OneMore(a: nat, b: nat)
    ensures (a + 1) * b == a * b + b
  {
  }

  lemma DisjointSize(a: set<(int, int)>, b: set<(int, int)>)
    requires a !! b
    ensures |a + b| == |a| + |b|
  {
  }

  lemma BlockStep(left: int, right: int, top: int, bottom: int)
    requires left < right
    ensures |Block(left, right, top, bottom)| == |Block(left, right - 1, top, bottom)| + Max(bottom - top, 0)
  {
    var rest, column := Block(left, right - 1, top, bottom), Column(right - 1, top, bottom);
    hide Column;
    assert Block(left, right, top, bottom) == rest + column;
    hide Block;
    DisjointSize(rest, column);
  }

  lemma NoColumns(left: int, right: int, top: int, bottom: int)
    requires left >= right
    ensures |Block(left, right, top, bottom)| == 0
  {
  }

  lemma {:induction false} BlockSize(left: int, n: nat, top: int, bottom: int, height: nat)
    requires height == Max(bottom - top, 0)
    ensures |Block(left, left + n, top, bottom)| == n * height
    decreases n
  {
    hide Block;
    if n == 0 {
      NoColumns(left, left, top, bottom);
    } else {
      BlockSize(left, n - 1, top, bottom, height);
      BlockStep(left, left + n, top, bottom);
      OneMore(n - 1, height);
    }
  }

  lemma CommonIsBlock(a: PhysicalRect, b: PhysicalRect)
    ensures CommonPixels(a, b) == Block(Max(a.x, b.x), Min(a.x + a.width, b.x + b.width),
                                        Max(a.y, b.y), Min(a.y + a.height, b.y + b.height))
  {
    hide Block;
    var block := Block(Max(a.x, b.x), Min(a.x + a.width, b.x + b.width),
                       Max(a.y, b.y), Min(a.y + a.height, b.y + b.height));
    forall p: (int, int) ensures p in CommonPixels(a, b) <==> p in block {
      assert p == (p.0, p.1);
    }
  }

  /** The overlap of a frame and a display is the number of pixels they share. */
  lemma OverlapCounts(rect: PhysicalRect, m: Monitor)
    ensures Overlap(rect, m) == |CommonPixels(rect, m.rect)|
  {
    var d := m.rect;
    var left, right := Max(rect.x, d.x), Min(rect.x + rect.width, d.x + d.width);
    var top, bottom := Max(rect.y, d.y), Min(rect.y + rect.height, d.y + d.height);
    CommonIsBlock(rect, d);
    hide Block, CommonPixels;
    if left < right {
      BlockSize(left, right - left, top, bottom, Max(bottom - top, 0));
    } else {
      NoColumns(left, right, top, bottom);
    }
  }

  /** A display contains a point exactly when it overlaps the pixel there. */
  lemma ContainsIff(m: Monitor, x: int, y: int)
    ensures ContainsPoint(m, x, y) <==> Overlap(PhysicalRect(x, y, 1, 1), m) > 0
  {
  }

  /** A point of a rectangle or of its right and lower edge. */
  predicate Touches(r: PhysicalRect, x: int, y: int) {
    r.x <= x <= r.x + r.width && r.y <= y <= r.y + r.height
  }

  function SquaredDistance(x: int, y: int, u: int, v: int): int { (x - u) * (x - u) + (y - v) * (y - v) }

  lemma SquareGrows(a: int, g: nat)
    requires a >= g || -a >= g
    ensures a * a >= g * g
  {
    if a >= g {
      assert a * a >= a * g >= g * g;
    } else {
      assert (-a) * (-a) >= (-a) * g >= g * g;
    }
  }

  /** The distance that decides the nearest display is the least squared distance between points of the two. */
  lemma DistanceIsLeast(rect: PhysicalRect, m: Monitor, x: int, y: int, u: int, v: int)
    requires Touches(rect, x, y) && Touches(m.rect, u, v)
    ensures Distance(rect, m) <= SquaredDistance(x, y, u, v)
  {
    var d := m.rect;
    SquareGrows(x - u, Gap(rect.x, rect.width, d.x, d.width));
    SquareGrows(y - v, Gap(rect.y, rect.height, d.y, d.height));
  }

  lemma DistanceIsReached(rect: PhysicalRect, m: Monitor) returns (x: int, y: int, u: int, v: int)
    ensures Touches(rect, x, y) && Touches(m.rect, u, v)
    ensures SquaredDistance(x, y, u, v) == Distance(rect, m)
  {
    var d := m.rect;
    x, u := ClosestPair(rect.x, rect.width, d.x, d.width);
    y, v := ClosestPair(rect.y, rect.height, d.y, d.height);
    SquareOfEither(x - u, Gap(rect.x, rect.width, d.x, d.width));
    SquareOfEither(y - v, Gap(rect.y, rect.height, d.y, d.height));
  }

  lemma SquareOfEither(a: int, g: int)
    requires a == g || -a == g
    ensures a * a == g * g
  {
  }

  lemma ClosestPair(start: int, length: nat, otherStart: int, otherLength: nat) returns (x: int, u: int)
    ensures start <= x <= start + length && otherStart <= u <= otherStart + otherLength
    ensures x - u == Gap(start, length, otherStart, otherLength) || u - x == Gap(start, length, otherStart, otherLength)
  {
    if otherStart > start + length {
      x, u := start + length, otherStart;
    } else if start > otherStart + otherLength {
      x, u := start, otherStart + otherLength;
    } else {
      x := Max(start, otherStart);
      u := x;
    }
  }

  // ---------------------------------------------------------------- ties

  function Best(s: seq<Monitor>, key: Monitor -> int): Monitor
    requires s != []
  {
    s[LastMax(s, key)]
  }

  lemma BestOfMore(m: Monitor, rest: seq<Monitor>, key: Monitor -> int)
    requires rest != []
    ensures Best([m] + rest, key) == if key(m) > key(Best(rest, key)) then m else Best(rest, key)
  {
    assert ([m] + rest)[1..] == rest;
  }

  lemma FilterStep(m: Monitor, rest: seq<Monitor>, test: Monitor -> bool)
    ensures Filter([m] + rest, test) == if test(m) then [m] + Filter(rest, test) else Filter(rest, test)
  {
    assert ([m] + rest)[1..] == rest;
  }

  lemma FilteredOut(s: seq<Monitor>, test: Monitor -> bool, key: Monitor -> int)
    requires s != [] && Filter(s, test) == [] && forall m :: test(m) <==> key(m) > 0
    ensures key(Best(s, key)) <= 0
  {
    var best := Best(s, key);
    assert best in s;
    assert best !in Filter(s, test);
  }

  lemma FilteredIn(s: seq<Monitor>, test: Monitor -> bool, key: Monitor -> int)
    requires Filter(s, test) != [] && forall m :: test(m) <==> key(m) > 0
    ensures key(Best(Filter(s, test), key)) > 0
  {
    assert Best(Filter(s, test), key) in Filter(s, test);
  }

  /** Leaving out displays without overlap does not change which display has the largest. */
  lemma {:induction false} FilterKeepsBest(s: seq<Monitor>, test: Monitor -> bool, key: Monitor -> int)
    requires s != [] && Filter(s, test) != [] && forall m :: test(m) <==> key(m) > 0
    ensures Best(Filter(s, test), key) == Best(s, key)
    decreases |s|
  {
    hide Filter, Best;
    var m, rest := s[0], s[1..];
    assert s == [m] + rest;
    FilterStep(m, rest, test);
    if rest == [] {
      NothingFiltered(test);
      assert [m] + [] == [m] == s;
    } else {
      BestOfMore(m, rest, key);
      if Filter(rest, test) == [] {
        FilteredOut(rest, test, key);
        BestOfOne(m, key);
        assert [m] + [] == [m];
      } else {
        FilterKeepsBest(rest, test, key);
        FilteredIn(rest, test, key);
        BestOfMore(m, Filter(rest, test), key);
      }
    }
  }

  lemma NothingFiltered(test: Monitor -> bool)
    ensures Filter([], test) == []
  {
  }

  lemma BestOfOne(m: Monitor, key: Monitor -> int)
    ensures Best([m], key) == m
  {
  }

  /**
    Which display saved pixels belong to: the first one that holds their origin at a possible size, or the first that
    holds it, or the last of those they share most pixels with, or the first of the nearest.
   */
  lemma MatchingIsFirst(rect: PhysicalRect, monitors: seq<Monitor>)
    requires monitors != []
    ensures exists i :: 0 <= i < |monitors| && MatchingMonitor(rect, monitors) == Some(monitors[i]) &&
              if exists j :: 0 <= j < |monitors| && Plausible(rect, monitors[j])
                             && ContainsPoint(monitors[j], rect.x, rect.y)
              then && Plausible(rect, monitors[i]) && ContainsPoint(monitors[i], rect.x, rect.y)
                   && forall j :: 0 <= j < i && Plausible(rect, monitors[j]) ==>
                        !ContainsPoint(monitors[j], rect.x, rect.y)
              else if exists j :: 0 <= j < |monitors| && ContainsPoint(monitors[j], rect.x, rect.y)
              then && ContainsPoint(monitors[i], rect.x, rect.y)
                   && forall j :: 0 <= j < i ==> !ContainsPoint(monitors[j], rect.x, rect.y)
              else if exists j :: 0 <= j < |monitors| && Overlap(rect, monitors[j]) > 0
              then IsLastMax(monitors, OverlapWith(rect), i)
              else IsFirstMin(monitors, DistanceTo(rect), i)
  {
    hide Overlap, Distance, Plausible, ContainsPoint;
    var p := (m: Monitor) => Plausible(rect, m) && ContainsPoint(m, rect.x, rect.y);
    var q := (m: Monitor) => ContainsPoint(m, rect.x, rect.y);
    if Find(monitors, p).Some? {
      var i :| 0 <= i < |monitors| && Find(monitors, p).value == monitors[i] && p(monitors[i])
               && forall j :: 0 <= j < i ==> !p(monitors[j]);
      assert MatchingMonitor(rect, monitors) == Some(monitors[i]);
    } else {
      assert forall j :: 0 <= j < |monitors| ==> !p(monitors[j]);
      if Find(monitors, q).Some? {
        var i :| 0 <= i < |monitors| && Find(monitors, q).value == monitors[i] && q(monitors[i])
                 && forall j :: 0 <= j < i ==> !q(monitors[j]);
        assert MatchingMonitor(rect, monitors) == Some(monitors[i]);
      } else {
        assert forall j :: 0 <= j < |monitors| ==> !q(monitors[j]);
        if MostOverlapped(rect, monitors).Some? {
          var i := OverlappedAt(rect, monitors);
          assert MatchingMonitor(rect, monitors) == Some(monitors[i]);
        } else {
          var i := FirstMin(monitors, DistanceTo(rect));
          assert MatchingMonitor(rect, monitors) == Some(monitors[i]);
        }
      }
    }
  }

  lemma OverlappedAt(rect: PhysicalRect, monitors: seq<Monitor>) returns (i: nat)
    requires MostOverlapped(rect, monitors).Some?
    ensures IsLastMax(monitors, OverlapWith(rect), i) && MostOverlapped(rect, monitors).value == monitors[i]
  {
    hide Overlap, IsLastMax;
    FilterKeepsBest(monitors, Overlapped(rect), OverlapWith(rect));
    i := LastMax(monitors, OverlapWith(rect));
  }

  // ---------------------------------------------------------------- placement

  /**
    One axis of a frame fitted onto a display: as long as the display allows, inside it, and where it was if it was
    inside, centred to within half a point if not, where half a point goes towards the end of the display.
   */
  predicate PlacedAxis(r: real, rLength: real, start: real, length: real, display: real, displayLength: real) {
    && (if length <= displayLength then rLength == length else rLength == displayLength)
    && display <= r && r + rLength <= display + displayLength
    && if display <= start && start + rLength <= display + displayLength then r == start
       else -0.5 < (r + rLength / 2.0) - (display + displayLength / 2.0) <= 0.5
  }

  predicate Placed(r: LogicalRect, rect: LogicalRect, display: LogicalRect) {
    && PlacedAxis(r.x, r.width, rect.x, rect.width, display.x, display.width)
    && PlacedAxis(r.y, r.height, rect.y, rect.height, display.y, display.height)
  }

  lemma FitPlaces(rect: LogicalRect, monitors: seq<Monitor>)
    requires monitors != []
    ensures Placed(Fit(rect, monitors), rect, Bounds(MonitorFor(rect, monitors).value))
  {
    hide MonitorFor, Bounds, CenteredAxis;
  }

  /**
    A frame in points is restored with its factor, at least 900 by 600 or else the default length on that axis,
    placed on the display found for it.
   */
  lemma StoredPlacement(g: Geometry, state: Option<SavedState>, monitors: seq<Monitor>)
    requires g.frame.width > 0.0 && g.frame.height > 0.0 && g.factor > 0.0
    requires monitors != [] && Positive(monitors)
    ensures var rect := LogicalRect(g.frame.x, g.frame.y, if g.frame.width >= 900.0 then g.frame.width else 1280.0,
                                    if g.frame.height >= 600.0 then g.frame.height else 800.0);
            var r := RestoreGeometry(Some(g), state, monitors);
            && r.Some? && r.value.factor == g.factor
            && Placed(r.value.frame, rect, Bounds(MonitorFor(rect, monitors).value))
  {
    hide MonitorFor, Bounds, Fit, Placed;
    var rect := StoredFrame(g);
    FitPlaces(rect, monitors);
    PositiveBounds(MonitorFor(rect, monitors).value);
    PlacedIsUsable(Fit(rect, monitors), rect, Bounds(MonitorFor(rect, monitors).value));
  }

  lemma PlacedIsUsable(r: LogicalRect, rect: LogicalRect, display: LogicalRect)
    requires Placed(r, rect, display)
    requires rect.width > 0.0 && rect.height > 0.0 && display.width > 0.0 && display.height > 0.0
    ensures r.width > 0.0 && r.height > 0.0
  {
  }

  /**
    One length read from saved pixels. Where it is not below the minimum by half a point it is kept: exactly if it is a
    whole number of points, and to within a point otherwise. A smaller one gives way to the default.
   */
  predicate ReadLength(w: real, saved: U32, factor: Factor, min: U32, default: U32) {
    var points := saved as real / factor;
    if factor < 1.0 then w == (if saved >= min then saved else default) as real / factor
    else if points >= min as real - 0.5 then
      && -1.0 <= w - points <= 1.0
      && (points == points.Floor as real && points >= min as real ==> w == points)
    else default as real * factor <= U32_MAX as real ==> -0.5 <= w - default as real <= 0.5
  }

  lemma SaturateNear(n: int, x: real, d: real)
    requires 0.0 <= x <= U32_MAX as real && x - d <= n as real <= x + d && d >= 0.0
    ensures x - d <= SaturateU32(n) as real <= x + d
  {
  }

  /** Comparing a quotient is comparing its dividend. */
  lemma QuotientAtMost(a: real, factor: Factor, x: real)
    ensures a / factor <= x <==> a <= x * factor
  {
    assert a / factor * factor == a;
    if a / factor <= x {
      assert (x - a / factor) * factor >= 0.0;
    } else {
      assert (a / factor - x) * factor > 0.0;
    }
  }

  lemma SmallQuotient(saved: U32, factor: Factor)
    requires factor >= 1.0
    ensures 0.0 <= saved as real / factor <= saved as real
  {
    QuotientAtMost(saved as real, factor, saved as real);
    assert saved as real * (factor - 1.0) >= 0.0;
  }

  lemma PointsNear(saved: U32, factor: Factor)
    requires factor >= 1.0
    ensures var p := saved as real / factor; p - 0.5 < SavedPoints(saved, factor) as real <= p + 0.5
    ensures var p := saved as real / factor; p == p.Floor as real ==> SavedPoints(saved, factor) as real == p
  {
    var p := saved as real / factor;
    hide Round, SaturateU32;
    SmallQuotient(saved, factor);
    RoundNear(p);
    if p == p.Floor as real {
      RoundWhole(p.Floor);
    }
    RoundsInRange(p, saved);
  }

  lemma RoundsInRange(p: real, n: U32)
    requires 0.0 <= p <= n as real
    ensures SaturateU32(Round(p)) == Round(p)
  {
  }

  lemma DifferenceDivided(a: real, b: real, factor: Factor)
    ensures (a - b) / factor == a / factor - b / factor
  {
  }

  /** Two numbers of pixels at most `x * factor` apart are at most `x` points apart. */
  lemma DividedNear(a: real, b: real, factor: Factor, x: real)
    requires a - b <= x * factor && b - a <= x * factor
    ensures -x <= a / factor - b / factor <= x
  {
    QuotientAtMost(a - b, factor, x);
    QuotientAtMost(b - a, factor, x);
    DifferenceDivided(a, b, factor);
    DifferenceDivided(b, a, factor);
  }

  lemma DividedBack(points: U32, factor: Factor)
    ensures Exact(points, factor) / factor == points as real
  {
  }

  lemma ExactNear(points: U32, saved: U32, factor: Factor)
    requires factor >= 1.0 && -0.5 <= points as real - saved as real / factor <= 0.5
    ensures -(factor / 2.0) <= Exact(points, factor) - saved as real <= factor / 2.0
    ensures points as real == saved as real / factor ==> Exact(points, factor) == saved as real
  {
    var e, s := Exact(points, factor), saved as real;
    DividedBack(points, factor);
    DifferenceDivided(e, s, factor);
    DifferenceDivided(s, e, factor);
    QuotientAtMost(e - s, factor, 0.5);
    QuotientAtMost(s - e, factor, 0.5);
    QuotientAtMost(e - s, factor, 0.0);
    QuotientAtMost(s - e, factor, 0.0);
  }

  lemma KeptNear(points: U32, saved: U32, factor: Factor)
    requires factor >= 1.0 && -0.5 <= points as real - saved as real / factor <= 0.5
    ensures -1.0 <= Pixels(points, factor) as real / factor - saved as real / factor <= 1.0
    ensures points as real == saved as real / factor ==> Pixels(points, factor) == saved
  {
    hide Round, Exact, SaturateU32;
    var e := Exact(points, factor);
    ExactNear(points, saved, factor);
    RoundNear(e);
    if points as real == saved as real / factor {
      RoundWhole(saved);
      SaturateNear(saved, saved as real, 0.0);
    }
    SaturateNear(Round(e), saved as real, factor / 2.0 + 0.5);
    DividedNear(Pixels(points, factor) as real, saved as real, factor, 1.0);
  }

  lemma DefaultNear(default: U32, factor: Factor)
    requires factor >= 1.0 && default as real * factor <= U32_MAX as real
    ensures -0.5 <= Pixels(default, factor) as real / factor - default as real <= 0.5
  {
    hide Round, SaturateU32;
    var e := Exact(default, factor);
    RoundNear(e);
    SaturateNear(Round(e), e, 0.5);
    DividedBack(default, factor);
    DividedNear(Pixels(default, factor) as real, e, factor, 0.5);
  }

  lemma LengthRead(saved: U32, factor: Factor, min: U32, default: U32)
    ensures ReadLength(SanePixels(saved, factor, min, default) as real / factor, saved, factor, min, default)
  {
    hide Round, Pixels;
    var v, p := SavedPoints(saved, factor), saved as real / factor;
    if factor < 1.0 {
      UnitScale(saved);
      RoundWhole(saved);
      assert v == saved;
      UnitScale(if v >= min then v else default);
    } else {
      PointsNear(saved, factor);
      hide SavedPoints;
      if v >= min {
        KeptNear(v, saved, factor);
      } else if default as real * factor <= U32_MAX as real {
        DefaultNear(default, factor);
      }
    }
  }

  /**
    Saved pixels are read at the factor of the display they belong to, from the fields of the saved state: the position
    before maximizing when it was maximized. The frame is placed on the display found for it.
   */
  lemma LegacyPlacement(stored: Option<Geometry>, s: SavedState, monitors: seq<Monitor>) returns (w: real, h: real)
    requires stored.Some? ==>
             stored.value.frame.width <= 0.0 || stored.value.frame.height <= 0.0 || stored.value.factor <= 0.0
    requires monitors != [] && Positive(monitors)
    ensures var x, y := if s.maximized then s.prevX else s.x, if s.maximized then s.prevY else s.y;
            var factor := MatchingMonitor(PhysicalRect(x, y, s.width, s.height), monitors).value.factor;
            var rect := LogicalRect(x as real / factor, y as real / factor, w, h);
            var r := RestoreGeometry(stored, Some(s), monitors);
            && ReadLength(w, s.width, factor, 900, 1280) && ReadLength(h, s.height, factor, 600, 800)
            && r.Some? && r.value.factor == factor
            && Placed(r.value.frame, rect, Bounds(MonitorFor(rect, monitors).value))
  {
    hide MatchingMonitor, MonitorFor, Fit, SanePixels, ReadLength, Placed;
    var m := MatchingMonitor(SavedRect(s), monitors).value;
    var rect := LegacyFrame(s, m);
    w, h := rect.width, rect.height;
    LengthRead(s.width, m.factor, 900, 1280);
    LengthRead(s.height, m.factor, 600, 800);
    LegacyIsPositive(s.width, m.factor, 900, 1280);
    LegacyIsPositive(s.height, m.factor, 600, 800);
    FitPlaces(rect, monitors);
    PositiveBounds(MonitorFor(rect, monitors).value);
    PlacedIsUsable(Fit(rect, monitors), rect, Bounds(MonitorFor(rect, monitors).value));
  }

  lemma LegacyIsPositive(saved: U32, factor: Factor, min: U32, default: U32)
    requires 0 < min < default
    ensures SanePixels(saved, factor, min, default) as real / factor > 0.0
  {
    hide Round, SavedPoints;
    var points := if SavedPoints(saved, factor) >= min then SavedPoints(saved, factor) else default;
    assert Exact(points, Scale(factor)) >= 1.0 by { assert (points - 1) as real * Scale(factor) >= 0.0; }
    RoundNear(Exact(points, Scale(factor)));
    assert SanePixels(saved, factor, min, default) >= 1;
  }

  /** Nothing is restored exactly when nothing usable was saved, or pixels were and there is no display. */
  lemma NothingRestoredIff(stored: Option<Geometry>, state: Option<SavedState>, monitors: seq<Monitor>)
    requires Positive(monitors)
    ensures RestoreGeometry(stored, state, monitors) == None
       <==> && (stored.None? || stored.value.frame.width <= 0.0 || stored.value.frame.height <= 0.0
                || stored.value.factor <= 0.0)
            && (state.None? || monitors == [])
  {
    hide MatchingMonitor, Fit, LegacyFrame, StoredFrame;
    if stored.Some? && Usable(stored.value) {
      if monitors != [] {
        StoredPlacement(stored.value, state, monitors);
      } else {
        WithoutDisplays(stored.value);
      }
    } else if state.Some? && monitors != [] {
      var w, h := LegacyPlacement(stored, state.value, monitors);
    }
  }

  lemma WithoutDisplays(g: Geometry)
    requires Usable(g)
    ensures RestoreGeometry(Some(g), None, []).Some? && Usable(Geometry(Fit(StoredFrame(g), []), g.factor))
  {
  }
}
