/** The two mask builders of the coupling layer: a 0/1 checkerboard over a
    height-by-width grid and a 0/1 split of the channel axis. */
module Masks {
  import opened Tensors

  /** `inverse_mask is False`, added to the grid before taking parity. */
  function Bias(inverseMask: bool): nat
  {
    if inverseMask then 0 else 1
  }

  /** `n mod 2` as a mask value. */
  function Parity(n: nat): real
  {
    if n % 2 == 0 then 0.0 else 1.0
  }

  /** The parity with the bias added is 1 exactly when `n` has the parity
      the mask marks: even for the plain mask, odd for the inverted one. */
  lemma ParityOfShift(n: nat, inverseMask: bool)
    ensures Parity(n + Bias(inverseMask)) == 1.0 <==> n % 2 == (if inverseMask then 1 else 0)
  {
  }

  /** The first `width` entries of row `i` of the grid whose entry (i, j) is
      `(i + j + bias) mod 2`. */
  function GridRow(i: nat, width: nat, bias: nat): (s: seq<real>)
    ensures |s| == width
  {
    if width == 0 then [] else GridRow(i, width - 1, bias) + [Parity(i + width - 1 + bias)]
  }

  lemma {:induction false} GridRowAt(i: nat, width: nat, bias: nat, j: nat)
    requires j < width
    ensures GridRow(i, width, bias)[j] == Parity(i + j + bias)
  {
    if j < width - 1 {
      GridRowAt(i, width - 1, bias, j);
    }
  }

  /** The first `rows` rows, in row-major order, of that grid. */
  function Grid(rows: nat, width: nat, bias: nat): (s: seq<real>)
    ensures |s| == Mul(rows, width)
  {
    if rows == 0 then [] else Grid(rows - 1, width, bias) + GridRow(rows - 1, width, bias)
  }

  lemma {:induction false} GridAt(rows: nat, width: nat, bias: nat, i: nat, j: nat)
    requires i < rows && j < width
    ensures Mul(i, width) + j < Mul(rows, width)
    ensures Grid(rows, width, bias)[Mul(i, width) + j] == Parity(i + j + bias)
  {
    RowBound(i, j, rows, width);
    if i < rows - 1 {
      RowBound(i, j, rows - 1, width);
      GridAt(rows - 1, width, bias, i, j);
    } else {
      GridRowAt(i, width, bias, j);
    }
  }

  /** Row `i` of the grid occupies `width` consecutive entries in row-major order. */
  lemma GridSlice(rows: nat, width: nat, bias: nat, i: nat)
    requires i < rows
    ensures Mul(i, width) + width <= Mul(rows, width)
    ensures Grid(rows, width, bias)[Mul(i, width) .. Mul(i, width) + width] == GridRow(i, width, bias)
  {
    var lo := Mul(i, width);
    var g := Grid(rows, width, bias);
    assert Mul(i + 1, width) == lo + width;
    MulMono(i + 1, rows, width);
    forall j | 0 <= j < width
      ensures g[lo + j] == GridRow(i, width, bias)[j]
    {
      GridAt(rows, width, bias, i, j);
      GridRowAt(i, width, bias, j);
    }
  }

  /** Every entry of the grid is 0 or 1, and grids of opposite bias parity add
      up to 1 everywhere. */
  lemma {:induction false} GridComplement(rows: nat, width: nat)
    ensures forall k :: 0 <= k < Mul(rows, width) ==>
      (Grid(rows, width, 1)[k] == 0.0 || Grid(rows, width, 1)[k] == 1.0) &&
      Grid(rows, width, 1)[k] + Grid(rows, width, 0)[k] == 1.0
  {
    if rows > 0 {
      GridComplement(rows - 1, width);
      var n := Mul(rows - 1, width);
      forall k | 0 <= k < Mul(rows, width)
        ensures (Grid(rows, width, 1)[k] == 0.0 || Grid(rows, width, 1)[k] == 1.0) &&
          Grid(rows, width, 1)[k] + Grid(rows, width, 0)[k] == 1.0
      {
        if k >= n {
          GridRowAt(rows - 1, width, 1, k - n);
          GridRowAt(rows - 1, width, 0, k - n);
        }
      }
    }
  }

  /** `checkerboard_mask(height, width, inverse_mask)`: entry (i, j) of the
      height-by-width grid is `(i + j + Bias(inverse_mask)) mod 2`. */
  function Checkerboard(height: nat, width: nat, inverseMask: bool): (m: Tensor)
    ensures WellFormed(m) && m.dims == [height, width]
  {
    ProductOfGrid(height, width);
    Tensor([height, width], Grid(height, width, Bias(inverseMask)))
  }

  /** Entry (i, j) is `(i + j + Bias(inverse_mask)) mod 2`. */
  lemma CheckerboardValue(height: nat, width: nat, inverseMask: bool, i: nat, j: nat)
    requires i < height && j < width
    ensures Checkerboard(height, width, inverseMask).data[Ravel([height, width], [i, j])] ==
      Parity(i + j + Bias(inverseMask))
  {
    RavelOfGrid(height, width, i, j);
    GridAt(height, width, Bias(inverseMask), i, j);
  }

  /** Entry (i, j) is 1 exactly when i + j is even in the plain mask and odd
      in the inverted one, and 0 otherwise. */
  lemma CheckerboardAt(height: nat, width: nat, inverseMask: bool, i: nat, j: nat)
    requires i < height && j < width
    ensures var v := At(Checkerboard(height, width, inverseMask), [i, j]);
      v == Parity(i + j + Bias(inverseMask)) &&
      (v == 1.0 <==> (i + j) % 2 == (if inverseMask then 1 else 0)) &&
      (v == 0.0 <==> (i + j) % 2 == (if inverseMask then 0 else 1))
  {
    CheckerboardValue(height, width, inverseMask, i, j);
  }

  /** Every entry is 0 or 1, and the plain and the inverted grid of the same
      size add up to 1 everywhere. */
  lemma CheckerboardComplement(height: nat, width: nat)
    ensures var plain, inverted := Checkerboard(height, width, false), Checkerboard(height, width, true);
      forall k :: 0 <= k < |plain.data| ==>
        (plain.data[k] == 0.0 || plain.data[k] == 1.0) &&
        plain.data[k] + inverted.data[k] == 1.0
  {
    GridComplement(height, width);
  }

  /** The plain 5-by-4 array the documentation shows, row by row: 1 at (0, 0). */
  lemma CheckerboardExample()
    ensures var g := Checkerboard(5, 4, false).data;
      |g| == 20 &&
      g[0..4] == [1.0, 0.0, 1.0, 0.0] &&
      g[4..8] == [0.0, 1.0, 0.0, 1.0] &&
      g[8..12] == [1.0, 0.0, 1.0, 0.0] &&
      g[12..16] == [0.0, 1.0, 0.0, 1.0] &&
      g[16..20] == [1.0, 0.0, 1.0, 0.0]
  {
    GridSlice(5, 4, 1, 0);
    GridSlice(5, 4, 1, 1);
    GridSlice(5, 4, 1, 2);
    GridSlice(5, 4, 1, 3);
    GridSlice(5, 4, 1, 4);
    assert GridRow(0, 4, 1) == [1.0, 0.0, 1.0, 0.0];
    assert GridRow(1, 4, 1) == [0.0, 1.0, 0.0, 1.0];
    assert GridRow(2, 4, 1) == [1.0, 0.0, 1.0, 0.0];
    assert GridRow(3, 4, 1) == [0.0, 1.0, 0.0, 1.0];
    assert GridRow(4, 4, 1) == [1.0, 0.0, 1.0, 0.0];
  }

  /** The inverted 5-by-4 array the documentation shows, row by row: 0 at (0, 0). */
  lemma InvertedCheckerboardExample()
    ensures var g := Checkerboard(5, 4, true).data;
      |g| == 20 &&
      g[0..4] == [0.0, 1.0, 0.0, 1.0] &&
      g[4..8] == [1.0, 0.0, 1.0, 0.0] &&
      g[8..12] == [0.0, 1.0, 0.0, 1.0] &&
      g[12..16] == [1.0, 0.0, 1.0, 0.0] &&
      g[16..20] == [0.0, 1.0, 0.0, 1.0]
  {
    GridSlice(5, 4, 0, 0);
    GridSlice(5, 4, 0, 1);
    GridSlice(5, 4, 0, 2);
    GridSlice(5, 4, 0, 3);
    GridSlice(5, 4, 0, 4);
    assert GridRow(0, 4, 0) == [0.0, 1.0, 0.0, 1.0];
    assert GridRow(1, 4, 0) == [1.0, 0.0, 1.0, 0.0];
    assert GridRow(2, 4, 0) == [0.0, 1.0, 0.0, 1.0];
    assert GridRow(3, 4, 0) == [1.0, 0.0, 1.0, 0.0];
    assert GridRow(4, 4, 0) == [0.0, 1.0, 0.0, 1.0];
  }

  /** The inverted 5-by-5 grid, row by row: 0 at (0, 0). */
  lemma InvertedCheckerboard5By5()
    ensures var g := Checkerboard(5, 5, true).data;
      |g| == 25 &&
      g[0..5] == [0.0, 1.0, 0.0, 1.0, 0.0] &&
      g[5..10] == [1.0, 0.0, 1.0, 0.0, 1.0] &&
      g[10..15] == [0.0, 1.0, 0.0, 1.0, 0.0] &&
      g[15..20] == [1.0, 0.0, 1.0, 0.0, 1.0] &&
      g[20..25] == [0.0, 1.0, 0.0, 1.0, 0.0]
  {
    GridSlice(5, 5, 0, 0);
    GridSlice(5, 5, 0, 1);
    GridSlice(5, 5, 0, 2);
    GridSlice(5, 5, 0, 3);
    GridSlice(5, 5, 0, 4);
    InvertedRowsOfFive();
  }

  lemma InvertedRowsOfFive()
    ensures GridRow(0, 5, 0) == [0.0, 1.0, 0.0, 1.0, 0.0]
    ensures GridRow(1, 5, 0) == [1.0, 0.0, 1.0, 0.0, 1.0]
    ensures GridRow(2, 5, 0) == [0.0, 1.0, 0.0, 1.0, 0.0]
    ensures GridRow(3, 5, 0) == [1.0, 0.0, 1.0, 0.0, 1.0]
    ensures GridRow(4, 5, 0) == [0.0, 1.0, 0.0, 1.0, 0.0]
  {
  }

  /** `channel_wise_mask(channels, inverse_mask)` as a value: the first
      `channels // 2` entries are 1 unless the mask is inverted, in which case
      the remaining ones are. */
  function ChannelWise(channels: nat, inverseMask: bool): (m: Tensor)
    ensures WellFormed(m) && m.dims == [channels]
  {
    ProductOfVector(channels);
    Tensor([channels], seq(channels, c requires 0 <= c < channels =>
      if (c < channels / 2) != inverseMask then 1.0 else 0.0))
  }

  /** `channel_wise_mask` as it computes the mask: a zero array whose slice
      `[:channels // 2]` (or `[channels // 2:]` when inverted) is set to 1. */
  method ChannelWiseMask(channels: nat, inverseMask: bool) returns (mask: Tensor)
    ensures mask == ChannelWise(channels, inverseMask)
  {
    var a := new real[channels](_ => 0.0);
    if inverseMask {
      forall c | channels / 2 <= c < channels {
        a[c] := 1.0;
      }
    } else {
      forall c | 0 <= c < channels / 2 {
        a[c] := 1.0;
      }
    }
    mask := Tensor([channels], a[..]);
  }

  /** Ones exactly below `channels // 2` in the plain mask, exactly from
      `channels // 2` on in the inverted one; the two are complementary. */
  lemma ChannelWiseLayout(channels: nat)
    ensures var plain, inverted := ChannelWise(channels, false), ChannelWise(channels, true);
      forall c :: 0 <= c < channels ==>
        (plain.data[c] == 1.0 <==> c < channels / 2) &&
        (inverted.data[c] == 1.0 <==> c >= channels / 2) &&
        (plain.data[c] == 0.0 || plain.data[c] == 1.0) &&
        plain.data[c] + inverted.data[c] == 1.0
  {
  }

  /** The two six-channel vectors the documentation shows. */
  lemma ChannelWiseExample()
    ensures ChannelWise(6, false).data == [1.0, 1.0, 1.0, 0.0, 0.0, 0.0]
    ensures ChannelWise(6, true).data == [0.0, 0.0, 0.0, 1.0, 1.0, 1.0]
  {
  }
}
