/** The pass arithmetic of interlaced images (section 2.6 of RFC 2083). */
module PngInterlace {

  /** Where a pass starts and how far its pixels are apart. */
  datatype Lattice = Lattice(xStart: nat, yStart: nat, xStep: nat, yStep: nat)

  const PASS_COUNT: nat := 7

  function Pass(i: nat): (l: Lattice)
    requires i < PASS_COUNT
    ensures l.xStep > 0 && l.yStep > 0
  {
    if i == 0 then Lattice(0, 0, 8, 8)
    else if i == 1 then Lattice(4, 0, 8, 8)
    else if i == 2 then Lattice(0, 4, 4, 8)
    else if i == 3 then Lattice(2, 0, 4, 4)
    else if i == 4 then Lattice(0, 2, 2, 4)
    else if i == 5 then Lattice(1, 0, 2, 2)
    else Lattice(0, 1, 1, 2)
  }

  /** How many of `start`, `start + step`, ... lie below `n`. */
  function Count(start: nat, step: nat, n: nat): nat
    requires step > 0
  {
    if n <= start then 0 else (n - start + step - 1) / step
  }

  function PassWidth(i: nat, width: nat): nat
    requires i < PASS_COUNT
  {
    Count(Pass(i).xStart, Pass(i).xStep, width)
  }

  function PassHeight(i: nat, height: nat): nat
    requires i < PASS_COUNT
  {
    Count(Pass(i).yStart, Pass(i).yStep, height)
  }

  /** The passes that have pixels, among the first n. */
  function InterlacedPasses(width: nat, height: nat, n: nat): seq<(nat, nat)>
    requires n <= PASS_COUNT
  {
    if n == 0 then [] else
    var w, h := PassWidth(n - 1, width), PassHeight(n - 1, height);
    InterlacedPasses(width, height, n - 1) + (if w > 0 && h > 0 then [(w, h)] else [])
  }

  function Passes(width: nat, height: nat, interlace: nat): seq<(nat, nat)> {
    if interlace == 0 then [(width, height)] else InterlacedPasses(width, height, PASS_COUNT)
  }

  /** `_png_pass_dimensions`. */
  method PassDimensions(width: nat, height: nat, interlace: nat) returns (passes: seq<(nat, nat)>)
    ensures passes == Passes(width, height, interlace)
  {
    hide Pass;
    if interlace == 0 {
      return [(width, height)];
    }
    passes := [];
    for i := 0 to PASS_COUNT
      invariant passes == InterlacedPasses(width, height, i)
    {
      var pass := Pass(i);
      var passWidth := if width <= pass.xStart then 0 else (width - pass.xStart + pass.xStep - 1) / pass.xStep;
      var passHeight := if height <= pass.yStart then 0 else (height - pass.yStart + pass.yStep - 1) / pass.yStep;
      if passWidth > 0 && passHeight > 0 {
        passes := passes + [(passWidth, passHeight)];
      }
    }
  }

  // ----- The passes partition the pixel grid -----

  /** Pixel (x, y) is pixel (px, py) of pass i. */
  ghost predicate IsPixelOf(width: nat, height: nat, i: nat, px: nat, py: nat, x: nat, y: nat) {
    && i < PASS_COUNT && px < PassWidth(i, width) && py < PassHeight(i, height)
    && x == Pass(i).xStart + px * Pass(i).xStep && y == Pass(i).yStart + py * Pass(i).yStep
  }

  function PassOf(x: nat, y: nat): (i: nat)
    ensures i < PASS_COUNT
  {
    if y % 2 == 1 then 6
    else if x % 2 == 1 then 5
    else if y % 4 == 2 then 4
    else if x % 4 == 2 then 3
    else if y % 8 == 4 then 2
    else if x % 8 == 4 then 1
    else 0
  }

  /** Counting a lattice: its k-th point lies below n exactly for the k counted. */
  lemma CountIsExact(start: nat, step: nat, n: nat, k: nat)
    requires step in {1, 2, 4, 8}
    ensures k < Count(start, step, n) <==> start + k * step < n
  {
  }

  lemma OnLattice(start: nat, step: nat, x: nat) returns (k: nat)
    requires step in {1, 2, 4, 8} && start < step && x % step == start
    ensures x == start + k * step
  {
    k := x / step;
  }

  lemma LatticeResidue(start: nat, step: nat, k: nat)
    requires step in {1, 2, 4, 8} && start < step
    ensures (start + k * step) % step == start
  {
  }

  lemma SmallResidues(x: nat)
    ensures x % 8 in {0, 1, 2, 3, 4, 5, 6, 7} && x % 4 == x % 8 % 4 && x % 2 == x % 8 % 2 && x % 1 == 0
  {
    var k, r := x / 8, x % 8;
    assert x == 4 * (2 * k) + r && x == 2 * (4 * k) + r;
  }

  /** Whether a pixel lies on a pass's lattice, by its place in its 8 by 8 block. */
  predicate OnPass(r: nat, q: nat, i: nat)
    requires i < PASS_COUNT
  {
    r % Pass(i).xStep == Pass(i).xStart && q % Pass(i).yStep == Pass(i).yStart
  }

  lemma StepsDivideEight(x: nat, i: nat)
    requires i < PASS_COUNT
    ensures x % Pass(i).xStep == x % 8 % Pass(i).xStep && x % Pass(i).yStep == x % 8 % Pass(i).yStep
  {
    SmallResidues(x);
  }

  lemma PassOfResidues(x: nat, y: nat)
    ensures PassOf(x, y) == PassOf(x % 8, y % 8)
  {
    SmallResidues(x);
    SmallResidues(y);
  }

  lemma PassOfBlock(r: nat, q: nat, i: nat)
    requires r in {0, 1, 2, 3, 4, 5, 6, 7} && q in {0, 1, 2, 3, 4, 5, 6, 7} && i < PASS_COUNT
    ensures i == PassOf(r, q) <==> OnPass(r, q, i)
  {
  }

  lemma PassSteps(i: nat)
    requires i < PASS_COUNT
    ensures Pass(i).xStep in {1, 2, 4, 8} && Pass(i).yStep in {1, 2, 4, 8}
    ensures Pass(i).xStart < Pass(i).xStep && Pass(i).yStart < Pass(i).yStep
  {
  }

  lemma PassResidues(x: nat, y: nat, i: nat)
    requires i < PASS_COUNT
    ensures i == PassOf(x, y) <==> x % Pass(i).xStep == Pass(i).xStart && y % Pass(i).yStep == Pass(i).yStart
    ensures Pass(i).xStep in {1, 2, 4, 8} && Pass(i).yStep in {1, 2, 4, 8}
    ensures Pass(i).xStart < Pass(i).xStep && Pass(i).yStart < Pass(i).yStep
  {
    hide PassOf, Pass;
    SmallResidues(x);
    SmallResidues(y);
    StepsDivideEight(x, i);
    StepsDivideEight(y, i);
    PassOfResidues(x, y);
    PassOfBlock(x % 8, y % 8, i);
    PassSteps(i);
  }

  /** Every pixel of the image is a pixel of some pass. */
  lemma EveryPixelHasItsPass(width: nat, height: nat, x: nat, y: nat) returns (px: nat, py: nat)
    requires x < width && y < height
    ensures IsPixelOf(width, height, PassOf(x, y), px, py, x, y)
  {
    var i := PassOf(x, y);
    PassResidues(x, y, i);
    px := OnLattice(Pass(i).xStart, Pass(i).xStep, x);
    py := OnLattice(Pass(i).yStart, Pass(i).yStep, y);
    CountIsExact(Pass(i).xStart, Pass(i).xStep, width, px);
    CountIsExact(Pass(i).yStart, Pass(i).yStep, height, py);
  }

  /** Every pixel of every pass lies in the image, and no image pixel is two pass pixels. */
  lemma PassesPartitionTheGrid(width: nat, height: nat, x: nat, y: nat)
    ensures x < width && y < height <==> exists i, px, py :: IsPixelOf(width, height, i, px, py, x, y)
    ensures forall i, px, py, j, qx, qy ::
      IsPixelOf(width, height, i, px, py, x, y) && IsPixelOf(width, height, j, qx, qy, x, y) ==> i == j && px == qx && py == qy
  {
    hide PassOf, Pass, PassWidth, PassHeight;
    if x < width && y < height {
      var px, py := EveryPixelHasItsPass(width, height, x, y);
    }
    forall i, px, py | IsPixelOf(width, height, i, px, py, x, y)
      ensures i == PassOf(x, y) && x < width && y < height {
      PixelIsOnLattice(width, height, i, px, py, x, y);
    }
    forall i, px, py, j, qx, qy | IsPixelOf(width, height, i, px, py, x, y) && IsPixelOf(width, height, j, qx, qy, x, y)
      ensures i == j && px == qx && py == qy {
      PixelIsOnLattice(width, height, i, px, py, x, y);
      PixelIsOnLattice(width, height, j, qx, qy, x, y);
      PassResidues(x, y, i);
      SamePoint(Pass(i).xStart, Pass(i).xStep, px, qx);
      SamePoint(Pass(i).yStart, Pass(i).yStep, py, qy);
    }
  }

  lemma SamePoint(start: nat, step: nat, k: nat, m: nat)
    requires step in {1, 2, 4, 8} && start + k * step == start + m * step
    ensures k == m
  {
  }

  lemma PixelIsOnLattice(width: nat, height: nat, i: nat, px: nat, py: nat, x: nat, y: nat)
    requires IsPixelOf(width, height, i, px, py, x, y)
    ensures i == PassOf(x, y) && x < width && y < height
  {
    hide PassOf, Pass, Count;
    PassResidues(x, y, i);
    LatticeResidue(Pass(i).xStart, Pass(i).xStep, px);
    LatticeResidue(Pass(i).yStart, Pass(i).yStep, py);
    CountIsExact(Pass(i).xStart, Pass(i).xStep, width, px);
    CountIsExact(Pass(i).yStart, Pass(i).yStep, height, py);
  }

  // ----- Areas -----

  function Area(passes: seq<(nat, nat)>): nat {
    if passes == [] then 0 else Area(passes[..|passes| - 1]) + passes[|passes| - 1].0 * passes[|passes| - 1].1
  }

  function PassArea(i: nat, width: nat, height: nat): nat
    requires i < PASS_COUNT
  {
    PassWidth(i, width) * PassHeight(i, height)
  }

  lemma {:induction false} ListedArea(width: nat, height: nat, n: nat)
    requires n <= PASS_COUNT
    ensures Area(InterlacedPasses(width, height, n)) == SumOfAreas(width, height, n)
    ensures forall k | 0 <= k < |InterlacedPasses(width, height, n)| ::
      InterlacedPasses(width, height, n)[k].0 > 0 && InterlacedPasses(width, height, n)[k].1 > 0
  {
    hide PassWidth, PassHeight, Pass, Area;
    NoPasses();
    if n > 0 {
      ListedArea(width, height, n - 1);
      var w, h := PassWidth(n - 1, width), PassHeight(n - 1, height);
      if w > 0 && h > 0 {
        AreaOfAppend(InterlacedPasses(width, height, n - 1), w, h);
      } else {
        assert InterlacedPasses(width, height, n - 1) + [] == InterlacedPasses(width, height, n - 1);
        NoArea(w, h);
      }
    }
  }

  lemma NoPasses()
    ensures Area([]) == 0
  {
  }

  lemma AreaOfAppend(passes: seq<(nat, nat)>, w: nat, h: nat)
    ensures Area(passes + [(w, h)]) == Area(passes) + w * h
  {
    assert (passes + [(w, h)])[..|passes|] == passes;
  }

  lemma NoArea(w: nat, h: nat)
    requires w == 0 || h == 0
    ensures w * h == 0
  {
  }

  function SumOfAreas(width: nat, height: nat, n: nat): nat
    requires n <= PASS_COUNT
  {
    if n == 0 then 0 else SumOfAreas(width, height, n - 1) + PassArea(n - 1, width, height)
  }

  /** How many pixels of row y belong to pass i. */
  function RowShare(i: nat, width: nat, y: nat): nat
    requires i < PASS_COUNT
  {
    if y % Pass(i).yStep == Pass(i).yStart then PassWidth(i, width) else 0
  }

  function SumOfShares(width: nat, y: nat, n: nat): nat
    requires n <= PASS_COUNT
  {
    if n == 0 then 0 else SumOfShares(width, y, n - 1) + RowShare(n - 1, width, y)
  }

  lemma RowsCountUp(start: nat, step: nat, y: nat)
    requires step in {1, 2, 4, 8} && start < step
    ensures Count(start, step, y + 1) == Count(start, step, y) + if y % step == start then 1 else 0
  {
  }

  /** The next row adds to each pass that row's share. */
  lemma OneMoreRow(i: nat, width: nat, y: nat)
    requires i < PASS_COUNT
    ensures PassArea(i, width, y + 1) == PassArea(i, width, y) + RowShare(i, width, y)
  {
    hide PassWidth, Pass, Count;
    PassResidues(0, y, i);
    RowsCountUp(Pass(i).yStart, Pass(i).yStep, y);
    var w, h := PassWidth(i, width), PassHeight(i, y);
    assert w * (h + 1) == w * h + w;
  }

  lemma {:induction false} OneMoreRowOfAll(width: nat, y: nat, n: nat)
    requires n <= PASS_COUNT
    ensures SumOfAreas(width, y + 1, n) == SumOfAreas(width, y, n) + SumOfShares(width, y, n)
  {
    hide PassArea, RowShare;
    if n > 0 {
      OneMoreRowOfAll(width, y, n - 1);
      OneMoreRow(n - 1, width, y);
    }
  }

  /** The points of a lattice are those of the two lattices with twice the step. */
  lemma TwoLattices(step: nat, width: nat)
    requires step in {1, 2, 4}
    ensures Count(0, 2 * step, width) + Count(step, 2 * step, width) == Count(0, step, width)
  {
  }

  lemma EvenRow(width: nat)
    ensures Count(0, 2, width) + Count(1, 2, width) == width
    ensures Count(0, 4, width) + Count(2, 4, width) == Count(0, 2, width)
    ensures Count(0, 8, width) + Count(4, 8, width) == Count(0, 4, width)
    ensures Count(0, 1, width) == width
  {
    hide Count;
    TwoLattices(1, width);
    TwoLattices(2, width);
    TwoLattices(4, width);
    EveryPoint(width);
  }

  lemma EveryPoint(width: nat)
    ensures Count(0, 1, width) == width
  {
  }

  /** The shares of the seven passes, by the row's residue. */
  lemma Shares(width: nat, y: nat)
    ensures RowShare(0, width, y) == if y % 8 == 0 then Count(0, 8, width) else 0
    ensures RowShare(1, width, y) == if y % 8 == 0 then Count(4, 8, width) else 0
    ensures RowShare(2, width, y) == if y % 8 == 4 then Count(0, 4, width) else 0
    ensures RowShare(3, width, y) == if y % 4 == 0 then Count(2, 4, width) else 0
    ensures RowShare(4, width, y) == if y % 4 == 2 then Count(0, 2, width) else 0
    ensures RowShare(5, width, y) == if y % 2 == 0 then Count(1, 2, width) else 0
    ensures RowShare(6, width, y) == if y % 2 == 1 then Count(0, 1, width) else 0
  {
    hide Count;
  }

  lemma SevenShares(width: nat, y: nat)
    ensures SumOfShares(width, y, PASS_COUNT) == RowShare(0, width, y) + RowShare(1, width, y) + RowShare(2, width, y)
      + RowShare(3, width, y) + RowShare(4, width, y) + RowShare(5, width, y) + RowShare(6, width, y)
  {
    hide RowShare;
    assert SumOfShares(width, y, 1) == RowShare(0, width, y);
    assert SumOfShares(width, y, 3) == RowShare(0, width, y) + RowShare(1, width, y) + RowShare(2, width, y);
    assert SumOfShares(width, y, 5) == SumOfShares(width, y, 3) + RowShare(3, width, y) + RowShare(4, width, y);
    assert SumOfShares(width, y, 7) == SumOfShares(width, y, 5) + RowShare(5, width, y) + RowShare(6, width, y);
  }

  /** A row's shares add up to the row. */
  lemma SharesAreTheRow(width: nat, y: nat)
    ensures SumOfShares(width, y, PASS_COUNT) == width
  {
    hide Count, RowShare, SumOfShares;
    SevenShares(width, y);
    Shares(width, y);
    EvenRow(width);
    var r := y % 8;
    assert y % 4 == r % 4 && y % 2 == r % 2;
    if r == 0 {
    } else if r == 4 {
    } else if r == 2 || r == 6 {
    } else {
      assert r % 2 == 1;
    }
  }

  lemma {:induction false} AreasAreTheImage(width: nat, height: nat)
    ensures SumOfAreas(width, height, PASS_COUNT) == width * height
  {
    hide PassArea, SumOfShares, SumOfAreas;
    if height == 0 {
      NoAreas(width, PASS_COUNT);
    } else {
      AreasAreTheImage(width, height - 1);
      OneMoreRowOfAll(width, height - 1, PASS_COUNT);
      SharesAreTheRow(width, height - 1);
      assert width * height == width * (height - 1) + width;
    }
  }

  lemma {:induction false} NoAreas(width: nat, n: nat)
    requires n <= PASS_COUNT
    ensures SumOfAreas(width, 0, n) == 0
  {
    hide PassWidth;
    if n > 0 {
      NoAreas(width, n - 1);
      NoArea(PassWidth(n - 1, width), PassHeight(n - 1, 0));
    }
  }

  /** The listed passes have pixels, and together as many as the image. */
  lemma PassAreasAddUp(width: nat, height: nat, interlace: nat)
    requires width > 0 && height > 0
    ensures Area(Passes(width, height, interlace)) == width * height
    ensures forall k | 0 <= k < |Passes(width, height, interlace)| ::
      Passes(width, height, interlace)[k].0 > 0 && Passes(width, height, interlace)[k].1 > 0
  {
    hide InterlacedPasses, SumOfAreas;
    if interlace == 0 {
      assert [(width, height)][..0] == [];
      assert Area([(width, height)]) == width * height;
    } else {
      ListedArea(width, height, PASS_COUNT);
      AreasAreTheImage(width, height);
    }
  }

  // ----- The passes by their pixels -----

  /** The pass of each pixel of an 8 by 8 block, counted from 1, as the standard draws it (section 2.6 of RFC 2083). */
  function Drawn(x: nat, y: nat): char
    requires x < 8 && y < 8
  {
    match y
    case 0 => "16462646"[x]
    case 2 => "56565656"[x]
    case 4 => "36463646"[x]
    case 6 => "56565656"[x]
    case _ => '7'
  }

  lemma DrawnBlock(r: nat, q: nat)
    requires r in {0, 1, 2, 3, 4, 5, 6, 7} && q in {0, 1, 2, 3, 4, 5, 6, 7}
    ensures PassOf(r, q) + 1 == Drawn(r, q) as int - '0' as int
  {
  }

  lemma PassesAreAsDrawn(x: nat, y: nat)
    ensures PassOf(x, y) + 1 == Drawn(x % 8, y % 8) as int - '0' as int
  {
    hide PassOf, Drawn;
    SmallResidues(x);
    SmallResidues(y);
    PassOfResidues(x, y);
    DrawnBlock(x % 8, y % 8);
  }

  ghost predicate CrossesColumn(i: nat, x: nat) {
    exists y: nat :: PassOf(x, y) == i
  }

  ghost predicate CrossesRow(i: nat, y: nat) {
    exists x: nat :: PassOf(x, y) == i
  }

  /** The columns of the image that hold pixels of a pass. */
  ghost function Columns(i: nat, width: nat): set<nat> {
    set x: nat | x < width && CrossesColumn(i, x)
  }

  /** The rows of the image that hold pixels of a pass. */
  ghost function RowsIn(i: nat, height: nat): set<nat> {
    set y: nat | y < height && CrossesRow(i, y)
  }

  ghost predicate HasPixel(i: nat, width: nat, height: nat) {
    exists x: nat, y: nat :: x < width && y < height && PassOf(x, y) == i
  }

  /** The first n passes that have pixels, each with the number of its pixel columns and pixel rows. */
  ghost function PixelPasses(width: nat, height: nat, n: nat): seq<(nat, nat)> {
    if n == 0 then [] else
      PixelPasses(width, height, n - 1) +
      if HasPixel(n - 1, width, height) then [(|Columns(n - 1, width)|, |RowsIn(n - 1, height)|)] else []
  }

  function Residues(start: nat, step: nat, n: nat): set<nat>
    requires step > 0
  {
    set x: nat | x < n && x % step == start
  }

  lemma OneMoreResidue(start: nat, step: nat, n: nat)
    requires step > 0
    ensures Residues(start, step, n + 1) == if n % step == start then Residues(start, step, n) + {n} else Residues(start, step, n)
    ensures n !in Residues(start, step, n)
  {
  }

  lemma NothingCounted(start: nat, step: nat)
    requires step > 0
    ensures Count(start, step, 0) == 0 && Residues(start, step, 0) == {}
  {
  }

  lemma {:induction false} ResiduesAreCounted(start: nat, step: nat, n: nat)
    requires step in {1, 2, 4, 8} && start < step
    ensures |Residues(start, step, n)| == Count(start, step, n)
    decreases n
  {
    hide Count, Residues;
    if n > 0 {
      ResiduesAreCounted(start, step, n - 1);
      RowsCountUp(start, step, n - 1);
      OneMoreResidue(start, step, n - 1);
    } else {
      NothingCounted(start, step);
    }
  }

  lemma ColumnsAreCounted(i: nat, width: nat)
    requires i < PASS_COUNT
    ensures |Columns(i, width)| == PassWidth(i, width)
  {
    hide PassOf, Pass, Count;
    forall x: nat ensures CrossesColumn(i, x) <==> x % Pass(i).xStep == Pass(i).xStart {
      PassResidues(x, Pass(i).yStart, i);
      StartIsResidue(Pass(i).yStart, Pass(i).yStep);
      forall y: nat | PassOf(x, y) == i ensures x % Pass(i).xStep == Pass(i).xStart {
        PassResidues(x, y, i);
      }
    }
    PassResidues(0, 0, i);
    assert Columns(i, width) == Residues(Pass(i).xStart, Pass(i).xStep, width);
    ResiduesAreCounted(Pass(i).xStart, Pass(i).xStep, width);
  }

  lemma RowsAreCounted(i: nat, height: nat)
    requires i < PASS_COUNT
    ensures |RowsIn(i, height)| == PassHeight(i, height)
  {
    hide PassOf, Pass, Count;
    forall y: nat ensures CrossesRow(i, y) <==> y % Pass(i).yStep == Pass(i).yStart {
      PassResidues(Pass(i).xStart, y, i);
      StartIsResidue(Pass(i).xStart, Pass(i).xStep);
      forall x: nat | PassOf(x, y) == i ensures y % Pass(i).yStep == Pass(i).yStart {
        PassResidues(x, y, i);
      }
    }
    PassResidues(0, 0, i);
    assert RowsIn(i, height) == Residues(Pass(i).yStart, Pass(i).yStep, height);
    ResiduesAreCounted(Pass(i).yStart, Pass(i).yStep, height);
  }

  lemma StartIsResidue(start: nat, step: nat)
    requires start < step
    ensures start % step == start
  {
  }

  lemma PixelNeedsBoth(i: nat, width: nat, height: nat)
    requires i < PASS_COUNT
    ensures HasPixel(i, width, height) <==> PassWidth(i, width) > 0 && PassHeight(i, height) > 0
  {
    hide PassOf, Pass, Count;
    PassResidues(Pass(i).xStart, Pass(i).yStart, i);
    StartIsResidue(Pass(i).xStart, Pass(i).xStep);
    StartIsResidue(Pass(i).yStart, Pass(i).yStep);
    CountIsExact(Pass(i).xStart, Pass(i).xStep, width, 0);
    CountIsExact(Pass(i).yStart, Pass(i).yStep, height, 0);
    forall x: nat, y: nat | x < width && y < height && PassOf(x, y) == i
      ensures PassWidth(i, width) > 0 && PassHeight(i, height) > 0 {
      var px, py := EveryPixelHasItsPass(width, height, x, y);
    }
  }

  lemma {:induction false} InterlacedByPixels(width: nat, height: nat, n: nat)
    requires n <= PASS_COUNT
    ensures InterlacedPasses(width, height, n) == PixelPasses(width, height, n)
  {
    hide PassWidth, PassHeight, HasPixel, Columns, RowsIn;
    if n > 0 {
      InterlacedByPixels(width, height, n - 1);
      ColumnsAreCounted(n - 1, width);
      RowsAreCounted(n - 1, height);
      PixelNeedsBoth(n - 1, width, height);
    }
  }

  /** The passes of an image: the image itself, or each drawn pass that has pixels, with its pixel columns and pixel rows. */
  lemma PassesByPixels(width: nat, height: nat, interlace: nat)
    ensures Passes(width, height, interlace) == if interlace == 0 then [(width, height)] else PixelPasses(width, height, 7)
  {
    hide InterlacedPasses, PixelPasses;
    InterlacedByPixels(width, height, PASS_COUNT);
  }
}
