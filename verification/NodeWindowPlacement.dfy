/**
  Restoring a saved window placement onto the displays present now.  Coordinates are 32-bit: sums wrap.
 */
module NodeWindowPlacement {
  import opened Wrappers
  import opened MachineIntegers

  const DEFAULT_WIDTH: int32 := 960
  const DEFAULT_HEIGHT: int32 := 760
  const MINIMUM_WIDTH: int32 := 640
  const MINIMUM_HEIGHT: int32 := 480

  datatype Placement = Placement(x: int32, y: int32, width: int32, height: int32, isMaximized: bool)

  datatype WorkArea = WorkArea(x: int32, y: int32, width: int32, height: int32, isPrimary: bool)

  datatype PlacementError = NoUsableDisplay | ClampBoundsCrossed

  function Min(a: int, b: int): int {
    if a <= b then a else b
  }

  function Max(a: int, b: int): int {
    if a >= b then a else b
  }

  predicate Usable(d: WorkArea) {
    d.width > 0 && d.height > 0
  }

  function UsableDisplays(displays: seq<WorkArea>): (usable: seq<WorkArea>)
    ensures forall d :: d in usable <==> d in displays && Usable(d)
  {
    if displays == [] then []
    else (if Usable(displays[0]) then [displays[0]] else []) + UsableDisplays(displays[1..])
  }

  // Where the first primary display is, or the first display.
  function PrimaryIndex(usable: seq<WorkArea>): (i: nat)
    requires usable != []
    ensures i < |usable|
    ensures forall j :: 0 <= j < i ==> !usable[j].isPrimary
    ensures !usable[i].isPrimary ==> i == 0 && forall j :: 0 <= j < |usable| ==> !usable[j].isPrimary
  {
    if usable[0].isPrimary || |usable| == 1 then 0
    else
      var k := PrimaryIndex(usable[1..]);
      if usable[1..][k].isPrimary then k + 1 else 0
  }

  function Overlap(start: int, length: int, start': int, length': int): nat {
    Max(0, Min(start + length, start' + length') - Max(start, start'))
  }

  // Computed in 64 bits, which it never leaves.
  function IntersectionArea(p: Placement, d: WorkArea): (area: nat)
    requires p.width > 0 && p.height > 0 && Usable(d)
    ensures area < 0x4000_0000_0000_0000
  {
    var across, down := Overlap(p.x, p.width, d.x, d.width), Overlap(p.y, p.height, d.y, d.height);
    ProductBound(across, down, MAXIMUM, MAXIMUM);
    across * down
  }

  lemma ProductBound(a: nat, b: nat, c: nat, d: nat)
    requires a <= c && b <= d
    ensures a * b <= c * d
  {
  }

  // Earlier in the ordering by falling intersection, then primary first.
  predicate Precedes(p: Placement, d: WorkArea, e: WorkArea)
    requires p.width > 0 && p.height > 0 && Usable(d) && Usable(e)
  {
    var i, j := IntersectionArea(p, d), IntersectionArea(p, e);
    i > j || (i == j && d.isPrimary && !e.isPrimary)
  }

  // Nothing comes before the i-th display, by the ordering or else by the list.
  ghost predicate First(p: Placement, usable: seq<WorkArea>, i: nat)
    requires p.width > 0 && p.height > 0 && forall e :: e in usable ==> Usable(e)
  {
    && i < |usable|
    && (forall j :: 0 <= j < i ==> Precedes(p, usable[i], usable[j]))
    && (forall j :: 0 <= j < |usable| ==> !Precedes(p, usable[j], usable[i]))
  }

  // First of the stable ordering.
  function TargetIndex(p: Placement, usable: seq<WorkArea>): (i: nat)
    requires p.width > 0 && p.height > 0
    requires usable != [] && forall e :: e in usable ==> Usable(e)
    ensures First(p, usable, i)
  {
    var last := |usable| - 1;
    if last == 0 then 0
    else
      var init := usable[..last];
      var k := TargetIndex(p, init);
      assert forall j :: 0 <= j < last ==> init[j] == usable[j];
      if Precedes(p, usable[last], usable[k]) then last else k
  }

  function ClampDimension(value: int32, minimum: int32, available: int32): (n: int32)
    requires minimum > 0 && available > 0
    ensures Min(minimum, available) <= n <= available
    ensures Min(minimum, available) <= value <= available ==> n == value
  {
    Min(Max(value, Min(minimum, available)), available)
  }

  function CenterIn(d: WorkArea, requestedWidth: int32, requestedHeight: int32, isMaximized: bool): Placement
    requires Usable(d)
  {
    var width := ClampDimension(requestedWidth, MINIMUM_WIDTH, d.width);
    var height := ClampDimension(requestedHeight, MINIMUM_HEIGHT, d.height);
    Placement(
      Wrap(d.x + Max(0, (d.width - width) / 2)),
      Wrap(d.y + Max(0, (d.height - height) / 2)),
      width, height, isMaximized)
  }

  // Math.Clamp throws when its bounds cross.
  function Clamp(value: int32, low: int32, high: int32): Result<int32, PlacementError> {
    if low > high then Err(ClampBoundsCrossed)
    else Ok(if value < low then low else if value > high then high else value)
  }

  function ClampTo(d: WorkArea, p: Placement): Result<Placement, PlacementError>
    requires Usable(d)
  {
    var width := ClampDimension(p.width, MINIMUM_WIDTH, d.width);
    var height := ClampDimension(p.height, MINIMUM_HEIGHT, d.height);
    var x := Clamp(p.x, d.x, Wrap(Wrap(d.x + d.width) - width));
    if x.Err? then Err(x.error)
    else
      var y := Clamp(p.y, d.y, Wrap(Wrap(d.y + d.height) - height));
      if y.Err? then Err(y.error)
      else Ok(Placement(x.value, y.value, width, height, p.isMaximized))
  }

  function Normalize(saved: Option<Placement>, displays: seq<WorkArea>): Result<Placement, PlacementError> {
    var usable := UsableDisplays(displays);
    if usable == [] then Err(NoUsableDisplay)
    else if saved.None? || saved.value.width <= 0 || saved.value.height <= 0 then
      Ok(CenterIn(usable[PrimaryIndex(usable)], DEFAULT_WIDTH, DEFAULT_HEIGHT, false))
    else
      var p := saved.value;
      var d := usable[TargetIndex(p, usable)];
      if IntersectionArea(p, d) == 0 then
        Ok(CenterIn(usable[PrimaryIndex(usable)], p.width, p.height, p.isMaximized))
      else ClampTo(d, p)
  }

  // ----- Properties -----

  // The window lies within the work area and is no smaller than the minimum, or the area itself.
  predicate Placed(p: Placement, d: WorkArea) {
    && d.x <= p.x && p.x + p.width <= d.x + d.width
    && d.y <= p.y && p.y + p.height <= d.y + d.height
    && p.width >= Min(MINIMUM_WIDTH, d.width) && p.height >= Min(MINIMUM_HEIGHT, d.height)
  }

  lemma Wraps(n: int)
    requires -0x8000_0000 <= n < 0x1_8000_0000
    ensures Wrap(n) == if n <= MAXIMUM then n else n - 0x1_0000_0000
  {
  }

  // Centring is right exactly when half the slack beyond the area's origin is still a 32-bit coordinate.
  lemma CenterInExactly(d: WorkArea, requestedWidth: int32, requestedHeight: int32, isMaximized: bool)
    requires Usable(d)
    ensures var p := CenterIn(d, requestedWidth, requestedHeight, isMaximized);
            && p.isMaximized == isMaximized
            && (Placed(p, d) <==>
                  d.x + (d.width - p.width) / 2 <= MAXIMUM && d.y + (d.height - p.height) / 2 <= MAXIMUM)
  {
    var p := CenterIn(d, requestedWidth, requestedHeight, isMaximized);
    Wraps(d.x + (d.width - p.width) / 2);
    Wraps(d.y + (d.height - p.height) / 2);
  }

  // Clamping is right exactly when the far corner it allows is still a 32-bit coordinate; otherwise it throws.
  lemma ClampToExactly(d: WorkArea, p: Placement)
    requires Usable(d)
    ensures var width := ClampDimension(p.width, MINIMUM_WIDTH, d.width);
            var height := ClampDimension(p.height, MINIMUM_HEIGHT, d.height);
            var r := ClampTo(d, p);
            && (r.Ok? <==> d.x + (d.width - width) <= MAXIMUM && d.y + (d.height - height) <= MAXIMUM)
            && (r.Ok? ==> Placed(r.value, d) && r.value.isMaximized == p.isMaximized)
  {
    var width := ClampDimension(p.width, MINIMUM_WIDTH, d.width);
    var height := ClampDimension(p.height, MINIMUM_HEIGHT, d.height);
    WrapsBack(d.x, d.width, width);
    WrapsBack(d.y, d.height, height);
  }

  // The nearest of the allowed numbers.
  ghost predicate Nearest(n: int, wanted: int, low: int, high: int) {
    low <= n <= high && forall m :: low <= m <= high ==> Distance(n, wanted) <= Distance(m, wanted)
  }

  function Distance(a: int, b: int): int {
    if a < b then b - a else a - b
  }

  // A clamped window moves and changes its size as little as it can; a centred one has margins that differ by one at
  // most.
  lemma MovedAsLittleAsPossible(d: WorkArea, p: Placement)
    requires Usable(d)
    ensures var r := ClampTo(d, p);
            r.Ok? ==>
              && Nearest(r.value.width, p.width, Min(MINIMUM_WIDTH, d.width), d.width)
              && Nearest(r.value.height, p.height, Min(MINIMUM_HEIGHT, d.height), d.height)
              && Nearest(r.value.x, p.x, d.x, d.x + d.width - r.value.width)
              && Nearest(r.value.y, p.y, d.y, d.y + d.height - r.value.height)
  {
    var width := ClampDimension(p.width, MINIMUM_WIDTH, d.width);
    var height := ClampDimension(p.height, MINIMUM_HEIGHT, d.height);
    WrapsBack(d.x, d.width, width);
    WrapsBack(d.y, d.height, height);
  }

  lemma CentredInTheMiddle(d: WorkArea, width: int32, height: int32, isMaximized: bool)
    requires Usable(d) && Fits(d)
    ensures var r := CenterIn(d, width, height, isMaximized);
            && Nearest(r.width, width, Min(MINIMUM_WIDTH, d.width), d.width)
            && Nearest(r.height, height, Min(MINIMUM_HEIGHT, d.height), d.height)
            && 0 <= (d.x + d.width) - (r.x + r.width) - (r.x - d.x) <= 1
            && 0 <= (d.y + d.height) - (r.y + r.height) - (r.y - d.y) <= 1
  {
    CenterInExactly(d, width, height, isMaximized);
    Wraps(d.x + (d.width - ClampDimension(width, MINIMUM_WIDTH, d.width)) / 2);
    Wraps(d.y + (d.height - ClampDimension(height, MINIMUM_HEIGHT, d.height)) / 2);
  }

  // A window that no display shows any of is centred on the primary display, in its own size; one that was never saved,
  // or with an empty size, in the default size and not maximised.
  lemma LostWindowsAreCentred(saved: Option<Placement>, displays: seq<WorkArea>)
    requires UsableDisplays(displays) != []
    ensures var usable := UsableDisplays(displays);
            var primary, r := usable[PrimaryIndex(usable)], Normalize(saved, displays);
            && (saved.None? ==> r == Ok(CenterIn(primary, 960, 760, false)))
            && (saved.Some? && (saved.value.width <= 0 || saved.value.height <= 0) ==>
                  r == Ok(CenterIn(primary, 960, 760, false)))
            && (saved.Some? && saved.value.width > 0 && saved.value.height > 0
                && (forall d <- usable :: IntersectionArea(saved.value, d) == 0) ==>
                  r == Ok(CenterIn(primary, saved.value.width, saved.value.height, saved.value.isMaximized)))
            && (saved.Some? && saved.value.width > 0 && saved.value.height > 0
                && (exists d <- usable :: IntersectionArea(saved.value, d) > 0) ==>
                  r == ClampTo(usable[TargetIndex(saved.value, usable)], saved.value))
  {
    if saved.Some? && saved.value.width > 0 && saved.value.height > 0 {
      var p, usable := saved.value, UsableDisplays(displays);
      var i := TargetIndex(p, usable);
      assert usable[i] in usable;
      forall d <- usable ensures IntersectionArea(p, d) <= IntersectionArea(p, usable[i]) {
        var j :| 0 <= j < |usable| && usable[j] == d;
        assert !Precedes(p, usable[j], usable[i]);
      }
    }
  }

  // Two wraps make one.
  lemma WrapsBack(start: int32, length: int32, part: int32)
    requires 0 < part <= length
    ensures var far := Wrap(Wrap(start + length) - part);
            far == if start + length - part <= MAXIMUM then start + length - part
                   else start + length - part - 0x1_0000_0000
  {
    Wraps(start + length);
  }

  // The area's far edges are 32-bit coordinates too, as in a rectangle given by its corners.
  predicate Fits(d: WorkArea) {
    d.x + d.width <= MAXIMUM && d.y + d.height <= MAXIMUM
  }

  ghost predicate AllFit(displays: seq<WorkArea>) {
    forall d :: d in displays && Usable(d) ==> Fits(d)
  }

  // The display the result is placed on.
  function ChosenIndex(saved: Option<Placement>, usable: seq<WorkArea>): (i: nat)
    requires usable != [] && forall e :: e in usable ==> Usable(e)
    ensures i < |usable| && Usable(usable[i])
  {
    if saved.None? || saved.value.width <= 0 || saved.value.height <= 0 then PrimaryIndex(usable)
    else
      var i := TargetIndex(saved.value, usable);
      if IntersectionArea(saved.value, usable[i]) == 0 then PrimaryIndex(usable) else i
  }

  predicate Centred(saved: Option<Placement>, usable: seq<WorkArea>)
    requires usable != [] && forall e :: e in usable ==> Usable(e)
  {
    || saved.None? || saved.value.width <= 0 || saved.value.height <= 0
    || IntersectionArea(saved.value, usable[TargetIndex(saved.value, usable)]) == 0
  }

  // The furthest origin the placement may take on its display is still a 32-bit coordinate.
  predicate Reachable(saved: Option<Placement>, usable: seq<WorkArea>)
    requires usable != [] && forall e :: e in usable ==> Usable(e)
  {
    var d := usable[ChosenIndex(saved, usable)];
    var asked := saved.Some? && saved.value.width > 0 && saved.value.height > 0;
    var width := ClampDimension(if asked then saved.value.width else DEFAULT_WIDTH, MINIMUM_WIDTH, d.width);
    var height := ClampDimension(if asked then saved.value.height else DEFAULT_HEIGHT, MINIMUM_HEIGHT, d.height);
    var parts := if Centred(saved, usable) then 2 else 1;
    d.x + (d.width - width) / parts <= MAXIMUM && d.y + (d.height - height) / parts <= MAXIMUM
  }

  /**
    Whatever was saved, the window comes back inside the usable work area chosen for it, at a workable size,
    exactly when that area leaves its origin within 32 bits.
   */
  lemma ComesBackExactly(saved: Option<Placement>, displays: seq<WorkArea>)
    ensures var usable := UsableDisplays(displays);
            var r := Normalize(saved, displays);
            && (r == Err(NoUsableDisplay) <==> forall d :: d in displays ==> !Usable(d))
            && (usable != [] ==>
                  ((r.Ok? && Placed(r.value, usable[ChosenIndex(saved, usable)])) <==> Reachable(saved, usable)))
  {
    var usable := UsableDisplays(displays);
    if usable == [] {
      forall d | d in displays ensures !Usable(d) {
        assert d !in usable;
      }
    } else {
      assert usable[0] in displays;
      PlacedExactly(saved, displays);
    }
  }

  lemma PlacedExactly(saved: Option<Placement>, displays: seq<WorkArea>)
    requires UsableDisplays(displays) != []
    ensures var usable := UsableDisplays(displays);
            var r := Normalize(saved, displays);
            && r != Err(NoUsableDisplay)
            && ((r.Ok? && Placed(r.value, usable[ChosenIndex(saved, usable)])) <==> Reachable(saved, usable))
  {
    var usable := UsableDisplays(displays);
    var d := usable[ChosenIndex(saved, usable)];
    if saved.None? || saved.value.width <= 0 || saved.value.height <= 0 {
      CenterInExactly(d, DEFAULT_WIDTH, DEFAULT_HEIGHT, false);
    } else if Centred(saved, usable) {
      CenterInExactly(d, saved.value.width, saved.value.height, saved.value.isMaximized);
    } else {
      ClampToExactly(d, saved.value);
    }
  }

  // So it always does on displays whose corners are 32-bit coordinates.
  lemma ComesBackInView(saved: Option<Placement>, displays: seq<WorkArea>)
    requires AllFit(displays)
    ensures var usable := UsableDisplays(displays);
            var r := Normalize(saved, displays);
            && (r.Err? <==> forall d :: d in displays ==> !Usable(d))
            && (r.Ok? ==> && usable != [] && Placed(r.value, usable[ChosenIndex(saved, usable)])
                          && r.value.width > 0 && r.value.height > 0)
  {
    var usable := UsableDisplays(displays);
    ComesBackExactly(saved, displays);
    if usable != [] {
      assert usable[ChosenIndex(saved, usable)] in displays;
    }
  }

  // And a saved window on a display reaching past the last coordinate makes the restore throw.
  lemma FarDisplayThrows()
    ensures var d := WorkArea(MAXIMUM - 100, 0, 2000, 1000, true);
            Normalize(Some(Placement(MAXIMUM - 50, 0, 960, 760, false)), [d]) == Err(ClampBoundsCrossed)
  {
    var d := WorkArea(MAXIMUM - 100, 0, 2000, 1000, true);
    var saved := Placement(MAXIMUM - 50, 0, 960, 760, false);
    assert UsableDisplays([d]) == [d];
    assert IntersectionArea(saved, d) == 960 * 760;
  }

  // ----- Idempotence -----

  lemma FullOverlap(a: nat, b: nat, c: nat, d: nat)
    requires a <= c && b <= d && c > 0 && d > 0
    ensures a * b >= c * d <==> a == c && b == d
  {
    if a < c {
      ProductBound(a, b, c - 1, d);
      assert (c - 1) * d == c * d - d;
    } else if b < d {
      ProductBound(a, b, c, d - 1);
      assert c * (d - 1) == c * d - c;
    }
  }

  predicate Inside(p: Placement, d: WorkArea) {
    d.x <= p.x && p.x + p.width <= d.x + d.width && d.y <= p.y && p.y + p.height <= d.y + d.height
  }

  // The intersection is the whole window exactly when the window is inside, and never more.
  lemma WholeExactlyInside(p: Placement, d: WorkArea)
    requires p.width > 0 && p.height > 0 && Usable(d)
    ensures IntersectionArea(p, d) <= p.width * p.height
    ensures IntersectionArea(p, d) == p.width * p.height <==> Inside(p, d)
    ensures Inside(p, d) ==> IntersectionArea(p, d) > 0
  {
    var across, down := Overlap(p.x, p.width, d.x, d.width), Overlap(p.y, p.height, d.y, d.height);
    FullOverlap(across, down, p.width, p.height);
    ProductBound(across, down, p.width, p.height);
    ProductBound(1, 1, p.width, p.height);
  }

  // A placed window is clamped to itself, or Math.Clamp throws.
  lemma PlacedIsFixed(p: Placement, d: WorkArea)
    requires Usable(d) && Placed(p, d) && p.width > 0 && p.height > 0
    ensures ClampTo(d, p) == if FarOriginFits(p, d) then Ok(p) else Err(ClampBoundsCrossed)
  {
    WrapsBack(d.x, d.width, p.width);
    WrapsBack(d.y, d.height, p.height);
  }

  // The furthest origin a window of this size may take in the area is a 32-bit coordinate.
  predicate FarOriginFits(p: Placement, d: WorkArea) {
    d.x + (d.width - p.width) <= MAXIMUM && d.y + (d.height - p.height) <= MAXIMUM
  }

  // Clamping a window into d keeps all of it that was in d, so an area around the result held no less of it.
  lemma ClampCovers(d: WorkArea, saved: Placement, e: WorkArea)
    requires Usable(d) && Usable(e) && saved.width > 0 && saved.height > 0
    requires ClampTo(d, saved).Ok? && Inside(ClampTo(d, saved).value, e)
    ensures IntersectionArea(saved, d) <= IntersectionArea(saved, e)
  {
    var width := ClampDimension(saved.width, MINIMUM_WIDTH, d.width);
    var height := ClampDimension(saved.height, MINIMUM_HEIGHT, d.height);
    ClampToExactly(d, saved);
    WrapsBack(d.x, d.width, width);
    WrapsBack(d.y, d.height, height);
    ProductBound(Overlap(saved.x, saved.width, d.x, d.width), Overlap(saved.y, saved.height, d.y, d.height),
                 Overlap(saved.x, saved.width, e.x, e.width), Overlap(saved.y, saved.height, e.y, e.height));
  }

  lemma OnlyOneFirst(p: Placement, usable: seq<WorkArea>, i: nat, j: nat)
    requires p.width > 0 && p.height > 0 && forall e :: e in usable ==> Usable(e)
    requires First(p, usable, i) && j < |usable| && j != i
    ensures !First(p, usable, j)
  {
    if i < j {
      assert !Precedes(p, usable[j], usable[i]);
    } else {
      assert Precedes(p, usable[i], usable[j]);
    }
  }

  lemma ResultHasArea(saved: Option<Placement>, displays: seq<WorkArea>)
    requires UsableDisplays(displays) != [] && Reachable(saved, UsableDisplays(displays))
    ensures var r := Normalize(saved, displays);
            && r.Ok? && r.value.width > 0 && r.value.height > 0
            && Placed(r.value, UsableDisplays(displays)[ChosenIndex(saved, UsableDisplays(displays))])
  {
    ComesBackExactly(saved, displays);
  }

  // The display a window was placed on claims it again.
  lemma SameTarget(saved: Option<Placement>, displays: seq<WorkArea>)
    requires UsableDisplays(displays) != [] && Reachable(saved, UsableDisplays(displays))
    requires var r := Normalize(saved, displays); r.Ok? && r.value.width > 0 && r.value.height > 0
    ensures var usable := UsableDisplays(displays);
            TargetIndex(Normalize(saved, displays).value, usable) == ChosenIndex(saved, usable)
  {
    ResultHasArea(saved, displays);
    var usable := UsableDisplays(displays);
    var i := ChosenIndex(saved, usable);
    var p := Normalize(saved, displays).value;
    WholeExactlyInside(p, usable[i]);
    forall j | 0 <= j < |usable|
      ensures !Precedes(p, usable[j], usable[i]) && (j < i ==> Precedes(p, usable[i], usable[j]))
    {
      WholeExactlyInside(p, usable[j]);
      if Inside(p, usable[j]) && i != PrimaryIndex(usable) {
        ClampCovers(usable[i], saved.value, usable[j]);
        assert First(saved.value, usable, i);
      }
    }
    if TargetIndex(p, usable) != i {
      OnlyOneFirst(p, usable, i, TargetIndex(p, usable));
    }
  }

  /**
    Restoring what was restored changes nothing, whether or not the displays overlap, exactly when the furthest
    origin for that size is a 32-bit coordinate; otherwise the second restore throws.  That can happen only to a
    window that was centred, which needs half the slack.
   */
  lemma IdempotentExactly(saved: Option<Placement>, displays: seq<WorkArea>)
    requires UsableDisplays(displays) != [] && Reachable(saved, UsableDisplays(displays))
    ensures var r := Normalize(saved, displays);
            var d := UsableDisplays(displays)[ChosenIndex(saved, UsableDisplays(displays))];
            && r.Ok?
            && Normalize(Some(r.value), displays) == (if FarOriginFits(r.value, d) then r else Err(ClampBoundsCrossed))
            && (!Centred(saved, UsableDisplays(displays)) ==> FarOriginFits(r.value, d))
  {
    ResultHasArea(saved, displays);
    SameTarget(saved, displays);
    var usable := UsableDisplays(displays);
    var p, d := Normalize(saved, displays).value, usable[ChosenIndex(saved, usable)];
    WholeExactlyInside(p, d);
    PlacedIsFixed(p, d);
  }

  // So it is idempotent on every list of displays with 32-bit corners.
  lemma Idempotent(saved: Option<Placement>, displays: seq<WorkArea>)
    requires AllFit(displays) && Normalize(saved, displays).Ok?
    ensures Normalize(Some(Normalize(saved, displays).value), displays) == Normalize(saved, displays)
  {
    ComesBackInView(saved, displays);
    ComesBackExactly(saved, displays);
    IdempotentExactly(saved, displays);
    var usable := UsableDisplays(displays);
    assert usable[ChosenIndex(saved, usable)] in displays;
  }

  // A display reaching past the last coordinate, and where it centres a window.
  function FarDisplay(): WorkArea {
    WorkArea(MAXIMUM - 700, 0, 2000, 1000, true)
  }

  function CentredFar(): Placement {
    Placement(MAXIMUM - 180, 120, 960, 760, false)
  }

  lemma FarDisplayCentres()
    ensures Normalize(None, [FarDisplay()]) == Ok(CentredFar())
  {
    assert UsableDisplays([FarDisplay()]) == [FarDisplay()];
    assert CenterIn(FarDisplay(), DEFAULT_WIDTH, DEFAULT_HEIGHT, false) == CentredFar();
  }

  // There it cannot be restored again.
  lemma CentredOnFarDisplayThrowsLater()
    ensures Normalize(None, [FarDisplay()]) == Ok(CentredFar())
    ensures Normalize(Some(CentredFar()), [FarDisplay()]) == Err(ClampBoundsCrossed)
  {
    FarDisplayCentres();
    assert UsableDisplays([FarDisplay()]) == [FarDisplay()];
    WholeExactlyInside(CentredFar(), FarDisplay());
    PlacedIsFixed(CentredFar(), FarDisplay());
  }
}
