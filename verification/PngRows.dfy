// Shrinking a PNG a row at a time (mastomini_bots/src/preview.rs): the rows are summed into boxes as they come, and
// each output pixel is the mean of exactly the source pixels that fall on it.
module PngRows {
  import opened Scaling
  import Arith

  type Byte = b: nat | b < 256

  /** One source pixel: grey, grey and alpha, RGB or RGBA. */
  type Pixel = p: seq<Byte> | 1 <= |p| <= 4 witness [0]

  const MAX_SOURCE_PIXELS: nat := 24_000_000

  datatype Size = Size(width: nat, height: nat)

  function AtLeastOne(n: nat): (m: nat)
    ensures m >= 1
  {
    if n < 1 then 1 else n
  }

  function Longest(w: nat, h: nat): (longest: nat)
    ensures longest >= w && longest >= h && (longest == w || longest == h)
  {
    if w < h then h else w
  }

  /** The size to shrink to: at most `maxPx` on the longest side, and at least one pixel on each. */
  function Target(w: nat, h: nat, maxPx: nat): Size
    requires w > 0 && h > 0
  {
    var longest, max := Longest(w, h), AtLeastOne(maxPx);
    if longest <= max then Size(w, h)
    else Size(AtLeastOne(w * max / longest), AtLeastOne(h * max / longest))
  }

  /** A colour with its transparency laid on white. */
  function OnWhite(color: Byte, alpha: Byte): nat {
    var laid: nat := color as nat * alpha as nat + 255 * (255 - alpha);
    laid / 255
  }

  function Channel(p: Pixel, c: nat): nat {
    match |p|
    case 1 => OnWhite(p[0], 255)
    case 2 => OnWhite(p[0], p[1])
    case 3 => OnWhite(if c == 0 then p[0] else if c == 1 then p[1] else p[2], 255)
    case _ => OnWhite(if c == 0 then p[0] else if c == 1 then p[1] else p[2], p[3])
  }

  /** The decoded rows, and the size to shrink them to. */
  datatype Picture = Picture(rows: seq<seq<Pixel>>, width: nat, height: nat, dw: nat, dh: nat)

  ghost predicate Valid(p: Picture) {
    && 0 < p.dw <= p.width && 0 < p.dh <= p.height
    && |p.rows| == p.height && (forall y :: 0 <= y < p.height ==> |p.rows[y]| == p.width)
  }

  // ---------------------------------------------------------------------------
  // The batch average
  // ---------------------------------------------------------------------------

  function Column(p: Picture): nat -> nat {
    (x: nat) => if p.width == 0 then 0 else Scale(x, p.dw, p.width)
  }

  function Line(p: Picture): nat -> nat {
    (y: nat) => if p.height == 0 then 0 else Scale(y, p.dh, p.height)
  }

  function RowValues(p: Picture, y: nat, k: nat): nat -> nat {
    (x: nat) => if y < |p.rows| && x < |p.rows[y]| then Channel(p.rows[y][x], k % 3) else 0
  }

  function Ones(): nat -> nat {
    (x: nat) => 1
  }

  /** The sum of channel `k % 3` over the first `n` pixels of a row that fall on column `k / 3`. */
  function RowSum(p: Picture, y: nat, k: nat, n: nat): nat {
    SumWhere(n, Column(p), k / 3, RowValues(p, y, k))
  }

  /** How many of the first `n` pixels of a row fall on a column. */
  function RowCount(p: Picture, column: nat, n: nat): nat {
    SumWhere(n, Column(p), column, Ones())
  }

  function RowSums(p: Picture, k: nat): nat -> nat {
    (y: nat) => RowSum(p, y, k, p.width)
  }

  function RowCounts(p: Picture, column: nat): nat -> nat {
    (y: nat) => RowCount(p, column, p.width)
  }

  /** The same over the rows above `m` that fall on a line. */
  function BoxSum(p: Picture, line: nat, k: nat, m: nat): nat {
    SumWhere(m, Line(p), line, RowSums(p, k))
  }

  function BoxCount(p: Picture, line: nat, column: nat, m: nat): nat {
    SumWhere(m, Line(p), line, RowCounts(p, column))
  }

  /** The mean, rounded down. */
  function Mean(p: Picture, line: nat, k: nat): nat {
    var n := BoxCount(p, line, k / 3, p.height);
    if n == 0 then 255 else BoxSum(p, line, k, p.height) / n
  }

  function MeanLine(p: Picture, line: nat): (bytes: seq<nat>)
    ensures |bytes| == p.dw * 3
  {
    seq(p.dw * 3, k requires 0 <= k => Mean(p, line, k))
  }

  function MeanLines(p: Picture, n: nat): (bytes: seq<nat>)
    ensures |bytes| == n * (p.dw * 3)
  {
    if n == 0 then [] else
      assert (n - 1) * (p.dw * 3) + p.dw * 3 == n * (p.dw * 3);
      MeanLines(p, n - 1) + MeanLine(p, n - 1)
  }

  lemma ChannelIsByte(p: Pixel, c: nat)
    ensures Channel(p, c) <= 255
  {
    forall color: Byte, alpha: Byte ensures OnWhite(color, alpha) <= 255 {
      Arith.MulMonotone(color, 255, alpha);
    }
  }

  lemma RowValueIsByte(p: Picture, y: nat, k: nat, x: nat)
    ensures RowValues(p, y, k)(x) <= 255
  {
    if y < |p.rows| && x < |p.rows[y]| { ChannelIsByte(p.rows[y][x], k % 3); }
  }

  lemma RowSumIsBounded(p: Picture, y: nat, k: nat, n: nat)
    ensures RowSum(p, y, k, n) <= 255 * RowCount(p, k / 3, n)
  {
    forall x | 0 <= x < n ensures RowValues(p, y, k)(x) <= 255 * Ones()(x) { RowValueIsByte(p, y, k, x); }
    SumIsBounded(n, Column(p), k / 3, RowValues(p, y, k), Ones(), 255);
  }

  lemma BoxSumIsBounded(p: Picture, line: nat, k: nat, m: nat)
    ensures BoxSum(p, line, k, m) <= 255 * BoxCount(p, line, k / 3, m)
  {
    forall y | 0 <= y < m ensures RowSums(p, k)(y) <= 255 * RowCounts(p, k / 3)(y) { RowSumIsBounded(p, y, k, p.width); }
    SumIsBounded(m, Line(p), line, RowSums(p, k), RowCounts(p, k / 3), 255);
  }

  lemma Quotient(sum: nat, n: nat)
    requires n > 0 && sum <= 255 * n
    ensures 0 <= sum / n <= 255
  {
    Arith.DivMonotone(sum, 255 * n, n);
    Arith.MultipleOf(255, n);
  }

  /** Every output pixel has source pixels, and its means are bytes. */
  lemma BoxIsFilled(p: Picture, line: nat, k: nat)
    requires Valid(p) && line < p.dh && k < p.dw * 3
    ensures BoxCount(p, line, k / 3, p.height) > 0 && Mean(p, line, k) <= 255
  {
    var column := k / 3;
    var x := ScaleReaches(column, p.dw, p.width);
    SumIsPositive(p.width, Column(p), column, Ones(), x);
    var y := ScaleReaches(line, p.dh, p.height);
    SumIsPositive(p.height, Line(p), line, RowCounts(p, column), y);
    BoxSumIsBounded(p, line, k, p.height);
    Quotient(BoxSum(p, line, k, p.height), BoxCount(p, line, column, p.height));
  }

  // ---------------------------------------------------------------------------
  // Row by row
  // ---------------------------------------------------------------------------

  /** Line `line` got its last row before row `y`. */
  lemma BoxIsDone(p: Picture, line: nat, k: nat, y: nat)
    requires Valid(p) && y <= p.height && (y < p.height ==> Line(p)(y) > line)
    ensures BoxSum(p, line, k, y) == BoxSum(p, line, k, p.height)
    ensures BoxCount(p, line, k, y) == BoxCount(p, line, k, p.height)
  {
    forall i | y <= i < p.height ensures Line(p)(i) != line {
      ScaleMonotone(y, i, p.dh, p.height);
    }
    SumStays(y, p.height, Line(p), line, RowSums(p, k));
    SumStays(y, p.height, Line(p), line, RowCounts(p, k));
  }

  /** No row before `y` falls on line `line`. */
  lemma BoxIsEmpty(p: Picture, line: nat, k: nat, y: nat)
    requires Valid(p) && forall i :: 0 <= i < y ==> Line(p)(i) != line
    ensures BoxSum(p, line, k, y) == 0 && BoxCount(p, line, k, y) == 0
  {
    SumStays(0, y, Line(p), line, RowSums(p, k));
    SumStays(0, y, Line(p), line, RowCounts(p, k));
  }

  /** A mean as a byte, and white where nothing was counted. */
  function Rounded(sum: nat, n: nat): nat {
    if n == 0 then 255 else sum / n % 256
  }

  /** The means of the first `n` boxes, three channels each. */
  function Means(sums: seq<nat>, counts: seq<nat>, n: nat): (bytes: seq<nat>)
    requires |sums| == 3 * |counts| && n <= |counts|
    ensures |bytes| == 3 * n
  {
    if n == 0 then [] else Means(sums, counts, n - 1) + PixelMeans(sums, counts, n - 1)
  }

  function PixelMeans(sums: seq<nat>, counts: seq<nat>, x: nat): (bytes: seq<nat>)
    requires |sums| == 3 * |counts| && x < |counts|
    ensures |bytes| == 3
  {
    [Rounded(sums[3 * x], counts[x]), Rounded(sums[3 * x + 1], counts[x]), Rounded(sums[3 * x + 2], counts[x])]
  }

  class Rows {
    const width: nat
    const height: nat
    const dw: nat
    const dh: nat
    const sums: array<nat>
    const counts: array<nat>
    var current: nat
    var out: seq<nat>

    ghost predicate Fits(p: Picture) {
      && Valid(p) && width == p.width && height == p.height && dw == p.dw && dh == p.dh
      && sums.Length == dw * 3 && counts.Length == dw && sums != counts
    }

    /** The boxes of the current line hold the rows above `y`. */
    ghost predicate Summed(p: Picture, y: nat)
      reads this, sums, counts
    {
      && Fits(p)
      && (forall k :: 0 <= k < sums.Length ==> sums[k] == BoxSum(p, current, k, y))
      && (forall x :: 0 <= x < counts.Length ==> counts[x] == BoxCount(p, current, x, y))
    }

    constructor (p: Picture)
      requires Valid(p)
      ensures Summed(p, 0) && current == 0 && out == [] && fresh(sums) && fresh(counts)
    {
      width, height, dw, dh := p.width, p.height, p.dw, p.dh;
      sums := new nat[p.dw * 3](i => 0);
      counts := new nat[p.dw](i => 0);
      current, out := 0, [];
    }

    /** Appends one pixel's means and clears its box. */
    method FlushPixel(x: nat)
      requires x < counts.Length && sums.Length == 3 * counts.Length && sums != counts
      modifies this`out, sums, counts
      ensures out == old(out) + PixelMeans(old(sums[..]), old(counts[..]), x)
      ensures forall k :: 0 <= k < sums.Length ==> sums[k] == if k / 3 == x then 0 else old(sums[k])
      ensures forall i :: 0 <= i < counts.Length ==> counts[i] == if i == x then 0 else old(counts[i])
    {
      var n := counts[x];
      for c := 0 to 3
        invariant out == old(out) + PixelMeans(old(sums[..]), old(counts[..]), x)[..c]
        invariant forall k :: 0 <= k < sums.Length ==> sums[k] == if 3 * x <= k < 3 * x + c then 0 else old(sums[k])
        invariant counts[..] == old(counts[..])
      {
        out := out + [Rounded(sums[x * 3 + c], n)];
        sums[x * 3 + c] := 0;
      }
      counts[x] := 0;
    }

    /** Appends the means of the current line and clears its boxes, unless all lines are out. */
    method Flush()
      requires sums.Length == 3 * counts.Length && sums != counts
      modifies this`out, sums, counts
      ensures |old(out)| >= dw * dh * 3 ==> out == old(out) && sums[..] == old(sums[..]) && counts[..] == old(counts[..])
      ensures |old(out)| < dw * dh * 3 ==>
                && out == old(out) + Means(old(sums[..]), old(counts[..]), counts.Length)
                && (forall k :: 0 <= k < sums.Length ==> sums[k] == 0) && (forall x :: 0 <= x < counts.Length ==> counts[x] == 0)
    {
      if |out| >= dw * dh * 3 { return; }
      for x := 0 to counts.Length
        invariant out == old(out) + Means(old(sums[..]), old(counts[..]), x)
        invariant forall k :: 0 <= k < sums.Length ==> sums[k] == if k / 3 < x then 0 else old(sums[k])
        invariant forall i :: 0 <= i < counts.Length ==> counts[i] == if i < x then 0 else old(counts[i])
      {
        assert sums[..][3 * x..3 * x + 3] == old(sums[..])[3 * x..3 * x + 3];
        assert PixelMeans(sums[..], counts[..], x) == PixelMeans(old(sums[..]), old(counts[..]), x);
        FlushPixel(x);
      }
    }
  
    method AddPixel(column: nat, p: Pixel)
      requires column < counts.Length && sums.Length == 3 * counts.Length && sums != counts
      modifies sums, counts
      ensures forall k :: 0 <= k < sums.Length ==> sums[k] == old(sums[k]) + if k / 3 == column then Channel(p, k % 3) else 0
      ensures forall x :: 0 <= x < counts.Length ==> counts[x] == old(counts[x]) + if x == column then 1 else 0
    {
      sums[column * 3] := sums[column * 3] + Channel(p, 0);
      sums[column * 3 + 1] := sums[column * 3 + 1] + Channel(p, 1);
      sums[column * 3 + 2] := sums[column * 3 + 2] + Channel(p, 2);
      counts[column] := counts[column] + 1;
    }

    method AddPixels(y: nat, row: seq<Pixel>, ghost p: Picture)
      requires Fits(p) && y < p.height && row == p.rows[y]
      modifies sums, counts
      ensures forall k :: 0 <= k < sums.Length ==> sums[k] == old(sums[k]) + RowSum(p, y, k, p.width)
      ensures forall x :: 0 <= x < counts.Length ==> counts[x] == old(counts[x]) + RowCount(p, x, p.width)
    {
      for x := 0 to width
        invariant forall k :: 0 <= k < sums.Length ==> sums[k] == old(sums[k]) + RowSum(p, y, k, x)
        invariant forall i :: 0 <= i < counts.Length ==> counts[i] == old(counts[i]) + RowCount(p, i, x)
      {
        ScaleBelow(x, dw, width);
        AddPixel(Scale(x, dw, width), row[x]);
        assert Column(p)(x) == Scale(x, dw, width);
      }
    }
  
    /** The rows above `y` are in: whole lines out, the current one summed. */
    ghost predicate Holds(p: Picture, y: nat)
      reads this, sums, counts
    {
      && Summed(p, y) && y <= p.height && out == MeanLines(p, current)
      && current <= (if y < p.height then Line(p)(y) else dh - 1) < dh
      && forall i :: 0 <= i < y ==> Line(p)(i) <= current
    }

    /** The next line: its predecessor has all its rows. */
    method NextLine(ghost p: Picture, ghost y: nat)
      requires Holds(p, y) && y < p.height && Line(p)(y) > current
      modifies this, sums, counts
      ensures Holds(p, y) && current == old(current) + 1
    {
      LinesAreShort(p, current);
      MeansAreMeanLine(p, current, y, sums[..], counts[..]);
      Flush();
      current := current + 1;
      forall k | 0 <= k < dw * 3 ensures BoxSum(p, current, k, y) == 0 { BoxIsEmpty(p, current, k, y); }
      forall x | 0 <= x < dw ensures BoxCount(p, current, x, y) == 0 { BoxIsEmpty(p, current, x, y); }
    }
  
    /** One decoded row. */
    method Add(y: nat, row: seq<Pixel>, ghost p: Picture)
      requires Holds(p, y) && y < p.height && row == p.rows[y]
      modifies this, sums, counts
      ensures Holds(p, y + 1) && current == Line(p)(y)
    {
      var target := Scale(y, dh, height);
      while target > current
        invariant Holds(p, y)
        decreases target - current
      {
        NextLine(p, y);
      }
      AddPixels(y, row, p);
      ScaleEnds(dh, height);
      if y + 1 < height {
        ScaleMonotone(y, y + 1, dh, height);
        ScaleBelow(y + 1, dh, height);
      }
    }

    /** The last line. */
    method Finish(ghost p: Picture)
      requires Holds(p, p.height) && current == dh - 1
      modifies this, sums, counts
      ensures out == MeanLines(p, dh)
    {
      LinesAreShort(p, current);
      MeansAreMeanLine(p, current, p.height, sums[..], counts[..]);
      Flush();
    }
  }

  lemma LinesAreShort(p: Picture, line: nat)
    requires line < p.dh && p.dw > 0
    ensures |MeanLines(p, line)| < p.dw * p.dh * 3
  {
    Arith.MulMonotone(line + 1, p.dh, p.dw * 3);
    assert p.dh * (p.dw * 3) == p.dw * p.dh * 3;
    assert (line + 1) * (p.dw * 3) == line * (p.dw * 3) + p.dw * 3;
  }

  lemma MeansAre(sums: seq<nat>, counts: seq<nat>, n: nat, k: nat)
    requires |sums| == 3 * |counts| && n <= |counts| && k < 3 * n
    ensures Means(sums, counts, n)[k] == Rounded(sums[k], counts[k / 3])
  {
    if k < 3 * (n - 1) { MeansAre(sums, counts, n - 1, k); }
  }

  /** The means of the boxes are those of the whole picture, once the line has all its rows. */
  lemma MeansAreMeanLine(p: Picture, line: nat, y: nat, sums: seq<nat>, counts: seq<nat>)
    requires Valid(p) && line < p.dh && y <= p.height && (y < p.height ==> Line(p)(y) > line)
    requires |counts| == p.dw && |sums| == 3 * p.dw
    requires forall k :: 0 <= k < |sums| ==> sums[k] == BoxSum(p, line, k, y)
    requires forall x :: 0 <= x < |counts| ==> counts[x] == BoxCount(p, line, x, y)
    ensures Means(sums, counts, p.dw) == MeanLine(p, line)
  {
    forall k | 0 <= k < 3 * p.dw ensures Means(sums, counts, p.dw)[k] == MeanLine(p, line)[k] {
      MeansAre(sums, counts, p.dw, k);
      BoxIsDone(p, line, k, y);
      BoxIsDone(p, line, k / 3, y);
      BoxIsFilled(p, line, k);
    }
  }

  // ---------------------------------------------------------------------------
  // The whole picture
  // ---------------------------------------------------------------------------

  const MAX_PROGRESSIVE_PIXELS: nat := 2_000_000

  datatype Shrunk = TooLarge | Shrunk(bytes: seq<nat>, size: Size)

  predicate Acceptable(w: nat, h: nat, interlaced: bool) {
    0 < w * h <= MAX_SOURCE_PIXELS && w <= 65535 && h <= 65535 && (interlaced ==> w * h <= MAX_PROGRESSIVE_PIXELS)
  }

  /** A side of the source brought down by `max / longest`: rounded down, but at least one pixel. */
  predicate InProportion(side: nat, target: nat, max: nat, longest: nat) {
    1 <= target && side * max < (target + 1) * longest && (target * longest <= side * max || target == 1)
  }

  /** A picture whose longest side fits keeps its size; another is brought down in proportion, until its longest side fits exactly.
      A target has pixels, and no more than the source. */
  lemma TargetFits(w: nat, h: nat, maxPx: nat)
    requires w > 0 && h > 0
    ensures var t, max, longest := Target(w, h, maxPx), if maxPx == 0 then 1 else maxPx, if w < h then h else w;
            && 0 < t.width <= w && 0 < t.height <= h && t.width <= max && t.height <= max
            && (longest <= max ==> t == Size(w, h))
            && (longest > max ==>
                  && InProportion(w, t.width, max, longest) && InProportion(h, t.height, max, longest)
                  && (w == longest ==> t.width == max) && (h == longest ==> t.height == max))
  {
    var longest, max := Longest(w, h), AtLeastOne(maxPx);
    if longest > max {
      SideFits(w, longest, max);
      SideFits(h, longest, max);
    }
  }

  lemma SideFits(side: nat, longest: nat, max: nat)
    requires 0 < side <= longest && 1 <= max < longest
    ensures side * max / longest <= side && side * max / longest <= max && (side == longest ==> side * max / longest == max)
    ensures InProportion(side, AtLeastOne(side * max / longest), max, longest)
  {
    assert side * max == side * max / longest * longest + side * max % longest;
    assert (side * max / longest + 1) * longest == side * max / longest * longest + longest;
    Arith.MulMonotone(max, longest, side);
    Arith.DivMonotone(side * max, side * longest, longest);
    Arith.MultipleOf(side, longest);
    Arith.MulMonotone(side, longest, max);
    Arith.DivMonotone(side * max, max * longest, longest);
    Arith.MultipleOf(max, longest);
  }

  lemma PositiveSides(w: nat, h: nat)
    requires w * h > 0
    ensures w > 0 && h > 0
  {
  }

  /** Cut to a length, or filled up with white. */
  function Resized(bytes: seq<nat>, length: nat): seq<nat> {
    if |bytes| >= length then bytes[..length] else bytes + seq(length - |bytes|, i => 255)
  }

  /** The rows one after the other, and the output at its full length. */
  method ShrinkRows(p: Picture) returns (out: seq<nat>)
    requires Valid(p)
    ensures out == MeanLines(p, p.dh) && |out| == p.dw * p.dh * 3
  {
    var shrinker := new Rows(p);
    ScaleEnds(p.dh, p.height);
    for y := 0 to p.height
      invariant shrinker.Holds(p, y) && (y == p.height ==> shrinker.current == p.dh - 1)
      invariant fresh(shrinker) && fresh(shrinker.sums) && fresh(shrinker.counts)
    {
      shrinker.Add(y, p.rows[y], p);
    }
    shrinker.Finish(p);
    var length := p.dw * p.dh * 3;
    assert p.dh * (p.dw * 3) == length;
    out := Resized(shrinker.out, length);
  }

  method PngRgb(w: nat, h: nat, interlaced: bool, rows: seq<seq<Pixel>>, maxPx: nat) returns (r: Shrunk)
    requires |rows| == h && forall y :: 0 <= y < h ==> |rows[y]| == w
    ensures r.TooLarge? <==> w * h == 0 || w * h > 24000000 || w > 65535 || h > 65535 || (interlaced && w * h > 2000000)
    ensures !r.TooLarge? ==>
              var size := Target(w, h, maxPx);
              && r.size == size && r.bytes == MeanLines(Picture(rows, w, h, size.width, size.height), size.height)
              && |r.bytes| == size.width * size.height * 3
  {
    if w * h == 0 || w * h > MAX_SOURCE_PIXELS || w > 65535 || h > 65535 { return TooLarge; }
    if interlaced && w * h > MAX_PROGRESSIVE_PIXELS { return TooLarge; }
    PositiveSides(w, h);
    var size := Target(w, h, maxPx);
    TargetFits(w, h, maxPx);
    var out := ShrinkRows(Picture(rows, w, h, size.width, size.height));
    return Shrunk(out, size);
  }

  lemma {:induction false} LineStands(p: Picture, n: nat, line: nat, k: nat)
    requires line < n && k < p.dw * 3
    ensures line * (p.dw * 3) + k < n * (p.dw * 3) && MeanLines(p, n)[line * (p.dw * 3) + k] == Mean(p, line, k)
  {
    var size := p.dw * 3;
    assert (n - 1) * size + size == n * size;
    if line < n - 1 { LineStands(p, n - 1, line, k); }
  }

  /** Where a pixel's channel stands in the output, and that it is the mean of the pixels that fall there. */
  lemma MeanStands(p: Picture, line: nat, k: nat)
    requires Valid(p) && line < p.dh && k < p.dw * 3
    ensures line * (p.dw * 3) + k < p.dh * (p.dw * 3)
    ensures var n := BoxCount(p, line, k / 3, p.height);
            n > 0 && MeanLines(p, p.dh)[line * (p.dw * 3) + k] == BoxSum(p, line, k, p.height) / n <= 255
  {
    BoxIsFilled(p, line, k);
    LineStands(p, p.dh, line, k);
  }

  // ---------------------------------------------------------------------------
  // Which byte is which colour
  // ---------------------------------------------------------------------------

  /** Red, green and blue of a pixel, grey standing for all three, laid on white as far as it is transparent, rounded down. */
  lemma ChannelIsColourOnWhite(p: Pixel, c: nat)
    requires c < 3
    ensures var colour, alpha := if |p| < 3 then p[0] else p[c], if |p| % 2 == 0 then p[|p| - 1] else 255;
            && 255 * Channel(p, c) <= colour * alpha + 255 * (255 - alpha) < 255 * (Channel(p, c) + 1)
            && (alpha == 255 ==> Channel(p, c) == colour) && (alpha == 0 ==> Channel(p, c) == 255)
  {
  }

  lemma ScaleToItself(x: nat, n: nat)
    requires x < n
    ensures Scale(x, n, n) == x
  {
    Arith.MultipleOf(x, n);
  }

  lemma ItselfAlone(n: nat, place: nat -> nat, at: nat, value: nat -> nat)
    requires at < n && forall j: nat :: j < n ==> place(j) == j
    ensures SumWhere(n, place, at, value) == value(at)
  {
    SumOfOne(n, place, at, value, at);
  }

  /** A picture that is not shrunk: its pixels in order of lines and columns, each as red, green, blue. */
  lemma UnshrunkIsCopied(p: Picture, x: nat, y: nat, c: nat)
    requires Valid(p) && p.dw == p.width && p.dh == p.height && x < p.width && y < p.height && c < 3
    ensures y * (p.width * 3) + (x * 3 + c) < |MeanLines(p, p.height)|
    ensures MeanLines(p, p.height)[y * (p.width * 3) + (x * 3 + c)] == Channel(p.rows[y][x], c)
  {
    var k := x * 3 + c;
    forall j: nat | j < p.width ensures Column(p)(j) == j { ScaleToItself(j, p.width); }
    forall j: nat | j < p.height ensures Line(p)(j) == j { ScaleToItself(j, p.height); }
    ItselfAlone(p.height, Line(p), y, RowSums(p, k));
    ItselfAlone(p.width, Column(p), x, RowValues(p, y, k));
    ItselfAlone(p.height, Line(p), y, RowCounts(p, x));
    ItselfAlone(p.width, Column(p), x, Ones());
    LineStands(p, p.height, y, k);
  }

  // ---------------------------------------------------------------------------
  // No 32-bit sum overflows
  // ---------------------------------------------------------------------------

  const U32: nat := 0x1_0000_0000

  /** Places that fall together are counted at most once each between the first and the last. */
  lemma {:induction false} CountWithin(n: nat, place: nat -> nat, at: nat) returns (x: nat, y: nat)
    requires SumWhere(n, place, at, Ones()) > 0
    ensures x <= y < n && place(x) == at == place(y) && SumWhere(n, place, at, Ones()) <= y - x + 1
  {
    if SumWhere(n - 1, place, at, Ones()) > 0 {
      x, y := CountWithin(n - 1, place, at);
      if place(n - 1) == at { y := n - 1; }
    } else {
      x, y := n - 1, n - 1;
    }
  }

  lemma ScaleBounds(x: nat, d: nat, m: nat)
    requires m > 0
    ensures Scale(x, d, m) * m <= x * d < Scale(x, d, m) * m + m
  {
    assert x * d == (x * d) / m * m + (x * d) % m;
  }

  lemma SpanIsShort(count: nat, x: nat, y: nat, d: nat, start: nat, m: nat)
    requires 0 < count <= y - x + 1 && start <= x * d && y * d < start + m
    ensures (count - 1) * d < m
  {
    Arith.MulMonotone(count - 1, y - x, d);
    assert (y - x) * d == y * d - x * d;
  }

  /** Places that fall together span less than one output place. */
  lemma CountIsSmall(n: nat, d: nat, m: nat, place: nat -> nat, at: nat)
    requires 0 < d <= m && forall x: nat :: place(x) == Scale(x, d, m)
    ensures SumWhere(n, place, at, Ones()) == 0 || (SumWhere(n, place, at, Ones()) - 1) * d < m
  {
    var count := SumWhere(n, place, at, Ones());
    if count > 0 {
      var x, y := CountWithin(n, place, at);
      ScaleBounds(x, d, m);
      ScaleBounds(y, d, m);
      SpanIsShort(count, x, y, d, at * m, m);
    }
  }

  /** A box has as many pixels as its columns times its lines. */
  lemma BoxIsRectangle(p: Picture, line: nat, column: nat, m: nat)
    ensures BoxCount(p, line, column, m) == RowCount(p, column, p.width) * SumWhere(m, Line(p), line, Ones())
  {
    SumIsExact(m, Line(p), line, RowCounts(p, column), Ones(), RowCount(p, column, p.width));
  }

  /** At most half of the longer side, rounded up, times the other side. */
  lemma HalfBox(r: nat, l: nat, w: nat, h: nat)
    requires r == 0 || (r - 1) * 2 < w
    requires l <= h && h <= 65535 && w * h <= MAX_SOURCE_PIXELS
    ensures r * l <= 16_843_009
  {
    Arith.MulMonotone(l, h, r);
    assert 2 * r <= w + 1;
    Arith.MulMonotone(2 * r, w + 1, h);
    assert (w + 1) * h == w * h + h && 2 * r * h == 2 * (r * h);
  }

  lemma Narrowed(n: nat, d: nat, count: nat, least: nat)
    requires count == 0 || (count - 1) * d < n
    requires 1 <= least <= d
    ensures count == 0 || (count - 1) * least < n
  {
    if count > 0 { Arith.MulMonotone(least, d, count - 1); }
  }

  /** With a target of at least two pixels, no box of an acceptable picture has more pixels than a 32-bit sum holds. */
  lemma BoxIsSmall(p: Picture, maxPx: nat, line: nat, column: nat, m: nat)
    requires Valid(p) && Acceptable(p.width, p.height, false) && maxPx >= 2
    requires Size(p.dw, p.dh) == Target(p.width, p.height, maxPx)
    ensures BoxCount(p, line, column, m) <= 16_843_009
  {
    var w, h := p.width, p.height;
    var r, l := RowCount(p, column, w), SumWhere(m, Line(p), line, Ones());
    BoxIsRectangle(p, line, column, m);
    CountIsSmall(w, p.dw, w, Column(p), column);
    CountIsSmall(m, p.dh, h, Line(p), line);
    TargetFits(w, h, maxPx);
    Narrowed(w, p.dw, r, 1);
    Narrowed(h, p.dh, l, 1);
    if Longest(w, h) <= maxPx {
      assert r <= 1 && l <= 1 by {
        if r > 1 { Arith.MulMonotone(1, r - 1, w); }
        if l > 1 { Arith.MulMonotone(1, l - 1, h); }
      }
      Arith.MulMonotone(r, 1, l);
    } else if Longest(w, h) == w {
      Narrowed(w, p.dw, r, 2);
      HalfBox(r, l, w, h);
    } else {
      Narrowed(h, p.dh, l, 2);
      HalfBox(l, r, h, w);
      assert w * h == h * w && r * l == l * r;
    }
  }

  /** So every sum the rows build up stays below 2^32, also in the middle of a row. */
  lemma SumsFitU32(p: Picture, maxPx: nat, line: nat, k: nat, y: nat, n: nat)
    requires Valid(p) && Acceptable(p.width, p.height, false) && maxPx >= 2
    requires Size(p.dw, p.dh) == Target(p.width, p.height, maxPx)
    requires y < p.height && n <= p.width && Line(p)(y) == line
    ensures BoxSum(p, line, k, y) + RowSum(p, y, k, n) < U32
  {
    RowSumGrows(p, y, k, n);
    BoxSumIsBounded(p, line, k, y + 1);
    BoxIsSmall(p, maxPx, line, k / 3, y + 1);
    assert BoxSum(p, line, k, y + 1) == BoxSum(p, line, k, y) + RowSum(p, y, k, p.width);
  }

  lemma {:induction false} RowSumGrows(p: Picture, y: nat, k: nat, n: nat)
    requires n <= p.width
    ensures RowSum(p, y, k, n) <= RowSum(p, y, k, p.width)
    decreases p.width - n
  {
    if n < p.width { RowSumGrows(p, y, k, n + 1); }
  }

  ghost predicate White(p: Picture) {
    forall y: nat, x: nat, k: nat :: y < p.height && x < p.width ==> RowValues(p, y, k)(x) == 255
  }

  lemma WhiteRow(p: Picture, y: nat, k: nat)
    requires White(p) && y < p.height && forall x :: 0 <= x < p.width ==> Column(p)(x) == 0
    ensures k < 3 ==> RowSum(p, y, k, p.width) == 255 * p.width
  {
    assert forall x :: 0 <= x < p.width ==> RowValues(p, y, k)(x) == 255 * Ones()(x);
    SumIsExact(p.width, Column(p), 0, RowValues(p, y, k), Ones(), 255);
    CountAll(p.width, Column(p));
  }

  lemma WhiteRows(p: Picture, k: nat, each: nat)
    requires forall y :: 0 <= y < p.height ==> Line(p)(y) == 0 && RowSums(p, k)(y) == each
    ensures BoxSum(p, 0, k, p.height) == each * p.height
  {
    assert forall y :: 0 <= y < p.height ==> RowSums(p, k)(y) == each * Ones()(y);
    SumIsExact(p.height, Line(p), 0, RowSums(p, k), Ones(), each);
    CountAll(p.height, Line(p));
  }

  lemma WhiteSum(p: Picture, k: nat)
    requires Valid(p) && White(p) && k < 3 && p.dw == 1 && p.dh == 1
    ensures BoxSum(p, 0, k, p.height) == 255 * p.width * p.height
  {
    forall x | 0 <= x < p.width ensures Column(p)(x) == 0 { ScaleBelow(x, 1, p.width); }
    forall y | 0 <= y < p.height ensures Line(p)(y) == 0 { ScaleBelow(y, 1, p.height); }
    forall y | 0 <= y < p.height ensures RowSums(p, k)(y) == 255 * p.width { WhiteRow(p, y, k); }
    WhiteRows(p, k, 255 * p.width);
  }

  lemma WhiteArea(w: nat, h: nat)
    ensures 255 * w * h < U32 <==> w * h <= 16_843_009
  {
    assert 255 * w * h == 255 * (w * h);
  }

  function WhitePicture(w: nat, h: nat): Picture {
    Picture(seq(h, y => seq(w, x => [255])), w, h, 1, 1)
  }

  lemma WhitePictureIsWhite(w: nat, h: nat)
    ensures White(WhitePicture(w, h))
    ensures 0 < w && 0 < h ==> Valid(WhitePicture(w, h))
  {
    var p := WhitePicture(w, h);
    forall y: nat, x: nat, k: nat | y < h && x < w ensures RowValues(p, y, k)(x) == 255 {
      assert p.rows[y][x] == [255];
    }
  }

  lemma TotalIsBounded(p: Picture, line: nat, k: nat, y: nat, n: nat)
    requires Valid(p) && y < p.height && n <= p.width && p.width * p.height <= 16_843_009
    ensures Line(p)(y) == line ==> BoxSum(p, line, k, y) + RowSum(p, y, k, n) < U32
  {
    if Line(p)(y) == line {
      RowSumGrows(p, y, k, n);
      BoxSumIsBounded(p, line, k, y + 1);
      assert BoxSum(p, line, k, y + 1) == BoxSum(p, line, k, y) + RowSum(p, y, k, p.width);
      BoxIsRectangle(p, line, k / 3, y + 1);
      CountAtMost(p.width, Column(p), k / 3);
      CountAtMost(y + 1, Line(p), line);
      AreaAtMost(RowCount(p, k / 3, p.width), SumWhere(y + 1, Line(p), line, Ones()), p.width, p.height);
    }
  }

  lemma AreaAtMost(r: nat, l: nat, w: nat, h: nat)
    requires r <= w && l <= h
    ensures r * l <= w * h
  {
    Arith.MulMonotone(r, w, l);
    Arith.MulMonotone(l, h, w);
  }

  lemma {:induction false} CountAtMost(n: nat, place: nat -> nat, at: nat)
    ensures SumWhere(n, place, at, Ones()) <= n
  {
    if n > 0 { CountAtMost(n - 1, place, at); }
  }

  /** All sums that build up for a picture, row by row and in the middle of a row, fit 32 bits. */
  ghost predicate AllSumsFit(p: Picture) {
    forall line: nat, k: nat, y: nat, n: nat ::
      y < p.height && n <= p.width && Line(p)(y) == line ==> BoxSum(p, line, k, y) + RowSum(p, y, k, n) < U32
  }

  /** The pictures of a size that are shrunk to what `maxPx` asks for. */
  ghost predicate Shrinks(p: Picture, w: nat, h: nat, maxPx: nat)
    requires w > 0 && h > 0
  {
    Valid(p) && p.width == w && p.height == h && Size(p.dw, p.dh) == Target(w, h, maxPx)
  }

  /** With a target of one pixel, no sum of any picture of a size overflows if and only if it has at most 16843009
      pixels. */
  lemma OnePixelSumsFitExactly(w: nat, h: nat, maxPx: nat)
    requires w > 0 && h > 0 && maxPx <= 1
    ensures (forall p :: Shrinks(p, w, h, maxPx) ==> AllSumsFit(p)) <==> w * h <= 16_843_009
  {
    if w * h <= 16_843_009 {
      forall p | Shrinks(p, w, h, maxPx) ensures AllSumsFit(p) {
        forall line: nat, k: nat, y: nat, n: nat | y < p.height && n <= p.width && Line(p)(y) == line
          ensures BoxSum(p, line, k, y) + RowSum(p, y, k, n) < U32
        {
          TotalIsBounded(p, line, k, y, n);
        }
      }
    } else {
      WhiteOverflows(w, h, maxPx);
    }
  }

  lemma WhiteOverflows(w: nat, h: nat, maxPx: nat)
    requires w > 0 && h > 0 && maxPx <= 1 && w * h > 16_843_009
    ensures Shrinks(WhitePicture(w, h), w, h, maxPx) && !AllSumsFit(WhitePicture(w, h))
  {
    var p := WhitePicture(w, h);
    WhitePictureIsWhite(w, h);
    TargetFits(w, h, maxPx);
    WhiteSum(p, 0);
    WhiteArea(w, h);
    ScaleBelow(h - 1, 1, h);
    assert BoxSum(p, 0, 0, h) == BoxSum(p, 0, 0, h - 1) + RowSum(p, h - 1, 0, w);
  }

  lemma {:induction false} CountAll(n: nat, place: nat -> nat)
    requires forall x :: 0 <= x < n ==> place(x) == 0
    ensures SumWhere(n, place, 0, Ones()) == n
  {
    if n > 0 { CountAll(n - 1, place); }
  }
}
