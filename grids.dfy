/**
  Pixel grids as values: a grid is a sequence of rows, each a sequence of
  pixels (the `List<List<Color>>` of PPMUtilModel). The functions here are
  the specifications that the store's in-place and copying transforms are
  proved against.
 */
module Grids {
  import opened Pixels

  type Rows = seq<seq<Pixel>>

  /** The source's getWidth: the length of the first row. */
  function Width(rows: Rows): nat
  {
    if rows == [] then 0 else |rows[0]|
  }

  /** Every row as long as the first; readPPM builds grids of this shape. */
  predicate Rectangular(rows: Rows)
  {
    forall h | 0 <= h < |rows| :: |rows[h]| == Width(rows)
  }

  /** Grids of the same height whose rows have pairwise equal lengths. */
  predicate SameShape(a: Rows, b: Rows)
  {
    |a| == |b| && forall h | 0 <= h < |a| :: |a[h]| == |b[h]|
  }

  /** The grid flipHorizontal builds: each row read from its last column back. */
  function FlipH(rows: Rows): (r: Rows)
    requires Rectangular(rows)
    ensures |r| == |rows| && Rectangular(r) && Width(r) == Width(rows)
    ensures forall h, w | 0 <= h < |rows| && 0 <= w < Width(rows) ::
              r[h][w] == rows[h][Width(rows) - 1 - w]
  {
    var n := Width(rows);
    seq(|rows|, h requires 0 <= h < |rows| => seq(n, w requires 0 <= w < n => rows[h][n - 1 - w]))
  }

  /** The grid flipVertical builds: the rows in reverse order. */
  function FlipV(rows: Rows): (r: Rows)
    ensures |r| == |rows|
    ensures forall h | 0 <= h < |rows| :: r[h] == rows[|rows| - 1 - h]
  {
    seq(|rows|, h requires 0 <= h < |rows| => rows[|rows| - 1 - h])
  }

  /** One row with every pixel replaced by its grayscale pixel of component g. */
  function GrayRow(g: Grayscale, row: seq<Pixel>): (r: seq<Pixel>)
    ensures |r| == |row| && forall w | 0 <= w < |row| :: r[w] == GrayPixel(g, row[w])
  {
    seq(|row|, w requires 0 <= w < |row| => GrayPixel(g, row[w]))
  }

  /** Every pixel replaced by the grayscale pixel of component g. */
  function GrayRows(g: Grayscale, rows: Rows): (r: Rows)
    ensures SameShape(r, rows)
    ensures forall h | 0 <= h < |rows| :: r[h] == GrayRow(g, rows[h])
    ensures forall h, w | 0 <= h < |rows| && 0 <= w < |rows[h]| :: r[h][w] == GrayPixel(g, rows[h][w])
  {
    seq(|rows|, h requires 0 <= h < |rows| => GrayRow(g, rows[h]))
  }

  /** One row with every channel brightened by k and clamped to 0..255. */
  function BrightenRow(row: seq<Pixel>, k: int): (r: seq<Pixel>)
    ensures |r| == |row| && forall w | 0 <= w < |row| :: r[w] == BrightenPixel(row[w], k)
  {
    seq(|row|, w requires 0 <= w < |row| => BrightenPixel(row[w], k))
  }

  /** Every channel of every pixel brightened by k and clamped to 0..255. */
  function BrightenRows(rows: Rows, k: int): (r: Rows)
    ensures SameShape(r, rows)
    ensures forall h | 0 <= h < |rows| :: r[h] == BrightenRow(rows[h], k)
    ensures forall h, w | 0 <= h < |rows| && 0 <= w < |rows[h]| :: r[h][w] == BrightenPixel(rows[h][w], k)
  {
    seq(|rows|, h requires 0 <= h < |rows| => BrightenRow(rows[h], k))
  }

  /** One row brightened as the source's loop does it, with wrapping int additions. */
  function BrightenRowAsWritten(row: seq<Pixel>, k: int): (r: seq<Pixel>)
    requires IsInt32(k)
    ensures |r| == |row| && forall w | 0 <= w < |row| :: r[w] == BrightenPixelAsWritten(row[w], k)
  {
    seq(|row|, w requires 0 <= w < |row| => BrightenPixelAsWritten(row[w], k))
  }

  /** The grid the source's brighten leaves, with wrapping int additions. */
  function BrightenRowsAsWritten(rows: Rows, k: int): (r: Rows)
    requires IsInt32(k)
    ensures SameShape(r, rows)
    ensures forall h | 0 <= h < |rows| :: r[h] == BrightenRowAsWritten(rows[h], k)
  {
    seq(|rows|, h requires 0 <= h < |rows| => BrightenRowAsWritten(rows[h], k))
  }

  /** No channel + k of the grid overflows a Java int. */
  predicate NoOverflow(rows: Rows, k: int)
  {
    forall h, w | 0 <= h < |rows| && 0 <= w < |rows[h]| :: FitsInt(rows[h][w], k)
  }

  /**
    The source's brighten and the clamped map give the same grid exactly
    when no channel + k overflows; an increment of at most
    Integer.MAX_VALUE - 255 never does.
   */
  lemma {:induction false} BrightenRowsAgree(rows: Rows, k: int)
    requires IsInt32(k)
    ensures BrightenRowsAsWritten(rows, k) == BrightenRows(rows, k) <==> NoOverflow(rows, k)
    ensures k <= IntMax - MaxChannel ==> NoOverflow(rows, k)
  {
    var a, b := BrightenRowsAsWritten(rows, k), BrightenRows(rows, k);
    if NoOverflow(rows, k) {
      forall h | 0 <= h < |rows| ensures a[h] == b[h] {
        forall w | 0 <= w < |rows[h]| ensures a[h][w] == b[h][w] {
          BrightenPixelAgrees(rows[h][w], k);
        }
      }
    } else {
      var h, w :| 0 <= h < |rows| && 0 <= w < |rows[h]| && !FitsInt(rows[h][w], k);
      BrightenPixelAgrees(rows[h][w], k);
      assert a[h][w] != b[h][w];
    }
  }

  lemma {:induction false} SameShapeRectangular(a: Rows, b: Rows)
    requires SameShape(a, b) && Rectangular(b)
    ensures Rectangular(a) && Width(a) == Width(b)
  {
  }

  /** Flipping horizontally twice gives back the grid. */
  lemma {:induction false} FlipHInvolutive(rows: Rows)
    requires Rectangular(rows)
    ensures FlipH(FlipH(rows)) == rows
  {
    var once := FlipH(rows);
    var twice := FlipH(once);
    forall h | 0 <= h < |rows| ensures twice[h] == rows[h] {
      assert |twice[h]| == |rows[h]|;
    }
  }

  /** Flipping vertically twice gives back the grid. */
  lemma {:induction false} FlipVInvolutive(rows: Rows)
    ensures FlipV(FlipV(rows)) == rows
  {
    var twice := FlipV(FlipV(rows));
    assert |twice| == |rows|;
    forall h | 0 <= h < |rows| ensures twice[h] == rows[h] {
    }
  }

  /** A vertical flip keeps the grid rectangular and as wide as it was. */
  lemma {:induction false} FlipVRectangular(rows: Rows)
    requires Rectangular(rows)
    ensures Rectangular(FlipV(rows)) && Width(FlipV(rows)) == Width(rows)
  {
    var v := FlipV(rows);
    assert forall h | 0 <= h < |v| :: |v[h]| == |rows[|rows| - 1 - h]|;
  }

  /** The two flips commute: either order rotates the grid by a half turn. */
  lemma {:induction false} FlipsCommute(rows: Rows)
    requires Rectangular(rows)
    ensures Rectangular(FlipV(rows))
    ensures FlipH(FlipV(rows)) == FlipV(FlipH(rows))
  {
    var v := FlipV(rows);
    FlipVRectangular(rows);
    var a := FlipH(v);
    var b := FlipV(FlipH(rows));
    assert |a| == |b|;
    forall h | 0 <= h < |a| ensures a[h] == b[h] {
      assert |a[h]| == |b[h]|;
    }
  }

  /**
    A grayscale grid has every channel equal, and every component of such
    a grid is itself: applying any component after any other changes nothing.
   */
  lemma {:induction false} GrayRowsAbsorbs(first: Grayscale, second: Grayscale, rows: Rows)
    ensures GrayRows(second, GrayRows(first, rows)) == GrayRows(first, rows)
  {
    var once := GrayRows(first, rows);
    var twice := GrayRows(second, once);
    forall h | 0 <= h < |rows| ensures twice[h] == once[h] {
      forall w | 0 <= w < |rows[h]| ensures twice[h][w] == once[h][w] {
        var p := once[h][w];
        assert p.red == p.green == p.blue;
        assert Level(second, p) == p.red;
      }
    }
  }

  /** Brightening by zero leaves every pixel as it was. */
  lemma {:induction false} BrightenZero(rows: Rows)
    ensures BrightenRows(rows, 0) == rows
  {
    var r := BrightenRows(rows, 0);
    forall h | 0 <= h < |rows| ensures r[h] == rows[h] {
      assert |r[h]| == |rows[h]|;
    }
  }

  /**
    Brightening by a non-negative increment never darkens a channel, and a
    negative one never brightens it.
   */
  lemma {:induction false} BrightenMonotone(rows: Rows, k: int, h: nat, w: nat)
    requires h < |rows| && w < |rows[h]|
    ensures var p, q := rows[h][w], BrightenRows(rows, k)[h][w];
      (k >= 0 ==> q.red >= p.red && q.green >= p.green && q.blue >= p.blue) &&
      (k <= 0 ==> q.red <= p.red && q.green <= p.green && q.blue <= p.blue)
  {
  }
}
