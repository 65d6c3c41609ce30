/**
 * src/game/world.rs: the tile map of the play field. A `Grid` stores its
 * cells row-major in one flat sequence; cell (x, y) lives at index
 * x + y * width, and the height is the length divided by the width.
 */
module GameWorld {
  import opened Wrappers

  /** Largest value of a Rust `u16`. */
  const U16_MAX: nat := 0xFFFF

  /** A Rust `u16`. */
  type U16 = x: nat | x <= U16_MAX

  datatype Material = Apples | Grains | Lumber | Ore | Sheeps

  /** The `#[repr(u8)]` discriminant of a material, in declaration order. */
  function Discriminant(m: Material): (d: nat)
    ensures d < 5
    ensures d == 0 <==> m == Apples
  {
    match m
    case Apples => 0
    case Grains => 1
    case Lumber => 2
    case Ore => 3
    case Sheeps => 4
  }

  /** `u16::saturating_add` */
  function SaturatingAdd(a: U16, b: U16): (r: U16)
  {
    if a + b <= U16_MAX then a + b else U16_MAX
  }

  /** `u16::saturating_mul` */
  function SaturatingMul(a: U16, b: U16): (r: U16)
  {
    if a * b <= U16_MAX then a * b else U16_MAX
  }

  /** `Grid::idx`: the flat index of (x, y), computed in saturating `u16` arithmetic, is the row-major index capped at 65535. */
  function Idx(x: U16, y: U16, width: U16): (r: U16)
    ensures x + y * width <= U16_MAX ==> r == x + y * width
    ensures x + y * width > U16_MAX ==> r == U16_MAX
  {
    SaturatingAdd(x, SaturatingMul(y, width))
  }

  /**
   * With fewer than 65536 cells, saturation never lands on a real cell:
   * the saturated index is a cell exactly when (x, y) lies inside the grid,
   * and it is then the exact row-major index.
   */
  lemma IdxExact(x: U16, y: U16, width: U16, height: nat)
    requires x < width && width * height <= U16_MAX
    ensures Idx(x, y, width) < width * height <==> y < height
    ensures y < height ==> Idx(x, y, width) == x + y * width
  {
    if y < height {
      MulMono(y, height - 1, width);
      assert (height - 1) * width + width == height * width;
    } else {
      MulMono(height, y, width);
    }
  }

  lemma MulMono(a: nat, b: nat, c: nat)
    requires a <= b
    ensures a * c <= b * c
  {
  }

  /** `height()` as written: `self.mats.len() as u16 / self.width`, with the `u16` truncation of the length. */
  function RowCount(len: nat, width: nat): (r: nat)
    requires width >= 1
    ensures r * width <= len % 0x1_0000 < r * width + width
  {
    (len % 0x1_0000) / width
  }

  /** When the length fits a `u16` and is whole rows, the truncated height is the real row count. */
  lemma RowCountExact(width: nat, height: nat)
    requires width >= 1 && width * height <= U16_MAX
    ensures RowCount(width * height, width) == height
  {
    DivExact(width * height, width, height);
  }

  lemma DivExact(a: nat, b: nat, q: nat)
    requires b >= 1 && a == b * q
    ensures a / b == q
  {
    var r := a / b;
    assert a == b * r + a % b;
    if r < q {
      MulMono(r + 1, q, b);
      assert false;
    } else if r > q {
      MulMono(q + 1, r, b);
      assert false;
    }
  }

  /**
   * Nothing in `heighten` or `widen` stops a grid from growing past 65535
   * cells, and then `height()` is wrong: heightening a 1 x 65535 grid gives
   * 65536 rows but a height of 0, and widening a 255 x 257 grid gives 257
   * rows of 256 but a height of 1.
   */
  lemma HeightWrapsPastU16()
    ensures 1 * 0xFFFF <= U16_MAX && RowCount(1 * 0xFFFF + 1, 1) == 0
    ensures 255 * 257 <= U16_MAX && RowCount(256 * 257, 256) == 1
  {
  }

  /**
   * The cells after `widen`: an `Apples` cell follows every full row of `w`.
   * A trailing part-row, which a well-shaped grid never has, stays as it is.
   */
  function Widened(s: seq<Material>, w: nat): (r: seq<Material>)
    requires w >= 1
    decreases |s|
  {
    if |s| < w then s else s[..w] + [Apples] + Widened(s[w..], w)
  }

  /** Widening `h` full rows of `w` gives `h` rows of `w + 1`. */
  lemma {:induction false} WidenedLength(s: seq<Material>, w: nat, h: nat)
    requires w >= 1 && |s| == w * h
    ensures |Widened(s, w)| == (w + 1) * h
    decreases h
  {
    if h > 0 {
      RowsAfterFirst(w, h);
      RowsAfterFirst(w + 1, h);
      WidenedLength(s[w..], w, h - 1);
    }
  }

  /** Widening keeps each cell of a full row at its coordinates and ends the row with `Apples`. */
  lemma WidenedAt(s: seq<Material>, w: nat, x: nat, y: nat)
    requires w >= 1 && x <= w && y * w + w <= |s|
    ensures x < w ==> x + y * w < |s|
    ensures x + y * (w + 1) < |Widened(s, w)|
    ensures Widened(s, w)[x + y * (w + 1)] == if x < w then s[x + y * w] else Apples
  {
    RowStartIsProduct(y, w);
    RowStartIsProduct(y, w + 1);
    WidenedAtRow(s, w, x, y);
  }

  /** `WidenedAt`, with the row starts counted row by row. */
  lemma {:induction false} WidenedAtRow(s: seq<Material>, w: nat, x: nat, y: nat)
    requires w >= 1 && x <= w && RowStart(y, w) + w <= |s|
    ensures x < w ==> x + RowStart(y, w) < |s|
    ensures x + RowStart(y, w + 1) < |Widened(s, w)|
    ensures Widened(s, w)[x + RowStart(y, w + 1)] == if x < w then s[x + RowStart(y, w)] else Apples
    decreases y
  {
    if y == 0 {
      WidenedFirstRow(s, w, x);
    } else {
      WidenedAtRow(s[w..], w, x, y - 1);
      WidenedLaterRow(s, w, x + RowStart(y - 1, w + 1));
    }
  }

  lemma WidenedFirstRow(s: seq<Material>, w: nat, x: nat)
    requires w >= 1 && x <= w && w <= |s|
    ensures x < |Widened(s, w)|
    ensures Widened(s, w)[x] == if x < w then s[x] else Apples
  {
    var row := s[..w] + [Apples];
    assert Widened(s, w) == row + Widened(s[w..], w);
    assert (row + Widened(s[w..], w))[x] == row[x];
  }

  lemma WidenedLaterRow(s: seq<Material>, w: nat, j: nat)
    requires w >= 1 && w <= |s| && j < |Widened(s[w..], w)|
    ensures w + 1 + j < |Widened(s, w)|
    ensures Widened(s, w)[w + 1 + j] == Widened(s[w..], w)[j]
  {
    var row := s[..w] + [Apples];
    assert Widened(s, w) == row + Widened(s[w..], w);
    ConcatRight(row, Widened(s[w..], w), w + 1 + j);
  }

  /** The cells after `thin`: the last cell of every full row of `w` is dropped; a trailing part-row stays. */
  function Thinned(s: seq<Material>, w: nat): (r: seq<Material>)
    requires w >= 1
    decreases |s|
  {
    if |s| < w then s else s[..w - 1] + Thinned(s[w..], w)
  }

  /** Thinning `h` full rows of `w` gives `h` rows of `w - 1`. */
  lemma {:induction false} ThinnedLength(s: seq<Material>, w: nat, h: nat)
    requires w >= 1 && |s| == w * h
    ensures |Thinned(s, w)| == (w - 1) * h
    decreases h
  {
    if h > 0 {
      RowsAfterFirst(w, h);
      RowsAfterFirst(w - 1, h);
      ThinnedLength(s[w..], w, h - 1);
    }
  }

  /** Thinning keeps every remaining cell of a full row at its coordinates. */
  lemma ThinnedAt(s: seq<Material>, w: nat, x: nat, y: nat)
    requires w >= 1 && x < w - 1 && y * w + w <= |s|
    ensures x + y * w < |s|
    ensures x + y * (w - 1) < |Thinned(s, w)|
    ensures Thinned(s, w)[x + y * (w - 1)] == s[x + y * w]
  {
    RowStartIsProduct(y, w);
    RowStartIsProduct(y, w - 1);
    ThinnedAtRow(s, w, x, y);
  }

  /** `ThinnedAt`, with the row starts counted row by row. */
  lemma {:induction false} ThinnedAtRow(s: seq<Material>, w: nat, x: nat, y: nat)
    requires w >= 1 && x < w - 1 && RowStart(y, w) + w <= |s|
    ensures x + RowStart(y, w) < |s|
    ensures x + RowStart(y, w - 1) < |Thinned(s, w)|
    ensures Thinned(s, w)[x + RowStart(y, w - 1)] == s[x + RowStart(y, w)]
    decreases y
  {
    if y == 0 {
      ThinnedFirstRow(s, w, x);
    } else {
      ThinnedAtRow(s[w..], w, x, y - 1);
      ThinnedLaterRow(s, w, x + RowStart(y - 1, w - 1));
    }
  }

  lemma ThinnedFirstRow(s: seq<Material>, w: nat, x: nat)
    requires w >= 1 && x < w - 1 && w <= |s|
    ensures x < |Thinned(s, w)|
    ensures Thinned(s, w)[x] == s[x]
  {
    assert Thinned(s, w) == s[..w - 1] + Thinned(s[w..], w);
    assert (s[..w - 1] + Thinned(s[w..], w))[x] == s[..w - 1][x];
  }

  lemma ThinnedLaterRow(s: seq<Material>, w: nat, j: nat)
    requires w >= 1 && w <= |s| && j < |Thinned(s[w..], w)|
    ensures w - 1 + j < |Thinned(s, w)|
    ensures Thinned(s, w)[w - 1 + j] == Thinned(s[w..], w)[j]
  {
    assert Thinned(s, w) == s[..w - 1] + Thinned(s[w..], w);
    ConcatRight(s[..w - 1], Thinned(s[w..], w), w - 1 + j);
  }

  /** Where row `y` of a `k`-wide grid starts, counted row by row. */
  function RowStart(y: nat, k: nat): (r: nat)
  {
    if y == 0 then 0 else RowStart(y - 1, k) + k
  }

  lemma {:induction false} RowStartIsProduct(y: nat, k: nat)
    ensures RowStart(y, k) == y * k
  {
    if y > 0 {
      RowStartIsProduct(y - 1, k);
      RowSplit(0, y, k);
    }
  }

  /** Row `y < h` of a `k`-wide grid of `h` rows is a full row. */
  lemma RowFits(y: nat, k: nat, h: nat)
    requires y < h
    ensures y * k + k <= k * h
  {
    MulMono(y + 1, h, k);
  }

  /** Cell (x, y) of a `k`-wide grid lies one row after cell (x, y - 1). */
  lemma RowSplit(x: nat, y: nat, k: nat)
    requires y > 0
    ensures x + y * k == k + (x + (y - 1) * k)
  {
  }

  /** The cells after the first row of a `k`-wide grid of `h` rows. */
  lemma RowsAfterFirst(k: nat, h: nat)
    requires h >= 1
    ensures k * (h - 1) == k * h - k && (h - 1) * k == h * k - k && k <= k * h
  {
    MulMono(1, h, k);
  }

  lemma ConcatRight<T>(a: seq<T>, b: seq<T>, k: nat)
    requires |a| <= k < |a| + |b|
    ensures (a + b)[k] == b[k - |a|]
  {
  }

  /** The shape a grid keeps: whole rows of `w` cells, and no more cells than a `u16` index reaches. */
  ghost predicate Shaped(cells: seq<Material>, w: nat)
  {
    1 <= w <= U16_MAX && |cells| <= U16_MAX && |cells| == w * RowCount(|cells|, w)
  }

  /** `Grid::get` on the cells `cells` of a `w`-wide grid: `None` when x is off the row, else the cell at the saturating index, if any. */
  function Lookup(cells: seq<Material>, w: nat, x: U16, y: U16): (r: Option<Material>)
    requires Shaped(cells, w)
    ensures r.Some? <==> x < w && y < RowCount(|cells|, w)
    ensures r.Some? ==> x + y * w < |cells| && r.value == cells[x + y * w]
  {
    if x < w then
      var i := Idx(x, y, w);
      IdxExact(x, y, w, RowCount(|cells|, w));
      if i < |cells| then Some(cells[i]) else None
    else
      None
  }

  /** After `widen`, every old cell reads the same at its coordinates and the new column reads `Apples`. */
  lemma WidenedLookup(s: seq<Material>, w: nat, x: U16, y: U16)
    requires Shaped(s, w) && w < U16_MAX && |s| + RowCount(|s|, w) <= U16_MAX
    ensures Shaped(Widened(s, w), w + 1)
    ensures RowCount(|Widened(s, w)|, w + 1) == RowCount(|s|, w)
    ensures x < w ==> Lookup(Widened(s, w), w + 1, x, y) == Lookup(s, w, x, y)
    ensures x == w ==> Lookup(Widened(s, w), w + 1, x, y)
                       == if y < RowCount(|s|, w) then Some(Apples) else None
  {
    var h := RowCount(|s|, w);
    WidenedLength(s, w, h);
    RowCountExact(w + 1, h);
    if x <= w && y < h {
      RowFits(y, w, h);
      WidenedAt(s, w, x, y);
    }
  }

  /** After `thin` (of a grid at least two wide), every remaining cell reads the same at its coordinates. */
  lemma ThinnedLookup(s: seq<Material>, w: nat, x: U16, y: U16)
    requires Shaped(s, w) && w >= 2
    ensures Shaped(Thinned(s, w), w - 1)
    ensures RowCount(|Thinned(s, w)|, w - 1) == RowCount(|s|, w)
    ensures x < w - 1 ==> Lookup(Thinned(s, w), w - 1, x, y) == Lookup(s, w, x, y)
  {
    var h := RowCount(|s|, w);
    ThinnedLength(s, w, h);
    MulMono(w - 1, w, h);
    RowCountExact(w - 1, h);
    if x < w - 1 && y < h {
      RowFits(y, w, h);
      ThinnedAt(s, w, x, y);
    }
  }

  /** Writing the cell that `get(x, y)` reads changes what (x, y) reads and nothing else. */
  lemma InsertedLookup(s: seq<Material>, w: nat, x: U16, y: U16, m: Material, x': U16, y': U16)
    requires Shaped(s, w) && Lookup(s, w, x, y).Some?
    ensures x + y * w < |s| && Shaped(s[x + y * w := m], w)
    ensures Lookup(s[x + y * w := m], w, x', y') == if x' == x && y' == y then Some(m) else Lookup(s, w, x', y')
  {
    var h := RowCount(|s|, w);
    if x' < w && y' < h && x' + y' * w == x + y * w {
      CoordsUnique(w, x, y, x', y');
    }
  }

  /** After `heighten`, the old rows read as before and the new last row reads `Apples`. */
  lemma HeightenedLookup(s: seq<Material>, w: nat, x: U16, y: U16)
    requires Shaped(s, w) && |s| + w <= U16_MAX
    ensures Shaped(s + seq(w, _ => Apples), w)
    ensures RowCount(|s| + w, w) == RowCount(|s|, w) + 1
    ensures Lookup(s + seq(w, _ => Apples), w, x, y)
            == if y < RowCount(|s|, w) then Lookup(s, w, x, y)
               else if y == RowCount(|s|, w) && x < w then Some(Apples)
               else None
  {
    var h := RowCount(|s|, w);
    RowsAfterFirst(w, h + 1);
    RowCountExact(w, h + 1);
  }

  /** Dropping the last of h >= 2 rows leaves the other rows reading as before. */
  lemma ShortenedLookup(s: seq<Material>, w: nat, x: U16, y: U16)
    requires Shaped(s, w) && RowCount(|s|, w) >= 2
    ensures |s| >= w && Shaped(s[..|s| - w], w)
    ensures RowCount(|s| - w, w) == RowCount(|s|, w) - 1
    ensures Lookup(s[..|s| - w], w, x, y) == if y < RowCount(|s|, w) - 1 then Lookup(s, w, x, y) else None
  {
    var h := RowCount(|s|, w);
    MulMono(2, h, w);
    assert |s| - w == w * (h - 1);
    RowCountExact(w, h - 1);
  }

  /** A grid has no rows exactly when it holds less than one row of cells, and one row exactly when it holds one row of cells. */
  lemma ShortenCases(s: seq<Material>, w: nat)
    requires Shaped(s, w)
    ensures |s| < w <==> RowCount(|s|, w) == 0
    ensures |s| == w <==> RowCount(|s|, w) == 1
  {
    var h := RowCount(|s|, w);
    if h >= 2 {
      MulMono(2, h, w);
    }
  }

  /** One pass of the loop in `widen`: inserting `Apples` at index i * w of the partly widened cells `m` widens one more row. */
  lemma WidenStep(s: seq<Material>, w: nat, i: nat, m: seq<Material>)
    requires w >= 1 && i >= 1 && i * w <= |s|
    requires m == s[..i * w] + Widened(s[i * w..], w)
    ensures (i - 1) * w + w == i * w <= |m|
    ensures m[..i * w] + [Apples] + m[i * w..] == s[..(i - 1) * w] + Widened(s[(i - 1) * w..], w)
  {
    RowSplit(0, i, w);
    var p, q := (i - 1) * w, i * w;
    var a, b, c := s[..p], s[p..q], s[q..];
    assert s[..q] == a + b && s[p..] == b + c;
    assert (b + c)[..w] == b && (b + c)[w..] == c;
    assert Widened(b + c, w) == b + [Apples] + Widened(c, w);
    assert m[..q] == a + b && m[q..] == Widened(c, w);
  }

  /** One pass of the loop in `thin`: removing index i * w - 1 of the partly thinned cells `m` thins one more row. */
  lemma ThinStep(s: seq<Material>, w: nat, i: nat, m: seq<Material>)
    requires w >= 1 && i >= 1 && i * w <= |s|
    requires m == s[..i * w] + Thinned(s[i * w..], w)
    ensures (i - 1) * w + w == i * w <= |m|
    ensures m[..i * w - 1] + m[i * w..] == s[..(i - 1) * w] + Thinned(s[(i - 1) * w..], w)
  {
    RowSplit(0, i, w);
    var p, q := (i - 1) * w, i * w;
    assert m[..q - 1] == s[..q - 1] && m[q..] == Thinned(s[q..], w);
    var t := s[p..];
    assert t[..w - 1] == s[p..q - 1] && t[w..] == s[q..];
    assert Thinned(t, w) == s[p..q - 1] + Thinned(s[q..], w);
    assert s[..q - 1] == s[..p] + s[p..q - 1];
  }

  /** Two cells inside a `w`-wide grid have the same flat index only if they are the same cell. */
  lemma CoordsUnique(w: nat, x: nat, y: nat, x': nat, y': nat)
    requires x < w && x' < w && x + y * w == x' + y' * w
    ensures x == x' && y == y'
  {
    if y < y' {
      MulMono(y + 1, y', w);
      assert false;
    } else if y' < y {
      MulMono(y' + 1, y, w);
      assert false;
    }
  }

  /**
   * `Grid`: `width` columns, cells stored row-major in `mats`. The
   * coordinates and the width are `u16` in the source.
   */
  class Grid {
    var width: nat
    var mats: seq<Material>

    /** `height()`: the number of whole rows, computed through the `u16` cast of the length. */
    function Height(): (h: nat)
      reads this
      requires width >= 1
      ensures |mats| <= U16_MAX ==> h * width <= |mats| < (h + 1) * width
    {
      RowCount(|mats|, width)
    }

    /** Shape invariant: the cells fill exactly `Height()` rows of `width`, and the grid is `u16`-addressable. */
    ghost predicate Valid()
      reads this
    {
      Shaped(mats, width)
    }

    /** `Grid::new(width, height)`: `width * height` cells of `Apples`. */
    constructor (w: U16, h: U16)
      requires w >= 1
      requires w * h <= U16_MAX  // the `u16` product must not overflow
      ensures Valid() && width == w && Height() == h
      ensures mats == seq(w * h, _ => Apples)
    {
      width := w;
      mats := seq(w * h, _ => Apples);
      RowCountExact(w, h);
    }

    /** `get(x, y)` */
    function Get(x: U16, y: U16): (r: Option<Material>)
      reads this
      requires Valid()
      ensures r.Some? <==> x < width && y < Height()
      ensures r.Some? ==> x + y * width < |mats| && r.value == mats[x + y * width]
    {
      Lookup(mats, width, x, y)
    }

    /** `insert(x, y, m)`: overwrite the cell `get(x, y)` reads, if there is one. */
    method Insert(x: U16, y: U16, m: Material)
      requires Valid()
      modifies this
      ensures Valid() && width == old(width) && Height() == old(Height())
      ensures old(Get(x, y)).Some? ==> mats == old(mats)[x + y * width := m]
      ensures old(Get(x, y)).None? ==> mats == old(mats)
      ensures old(Get(x, y)).Some? ==> Get(x, y) == Some(m)
      ensures forall x': U16, y': U16 :: x' != x || y' != y ==> Get(x', y') == old(Get(x', y'))
    {
      ghost var s := mats;
      if x < width {
        var i := Idx(x, y, width);
        IdxExact(x, y, width, Height());
        if i < |mats| {
          mats := mats[i := m];
        }
      }
      forall x': U16, y': U16 | old(Get(x, y)).Some?
        ensures Get(x', y') == if x' == x && y' == y then Some(m) else old(Get(x', y'))
      {
        InsertedLookup(s, width, x, y, m, x', y');
      }
    }

    /** `widen()`: add a column of `Apples` on the right, inserting from the last row backwards. */
    method Widen()
      requires Valid()
      requires width < U16_MAX                // `self.width += 1` must not overflow
      requires |mats| + Height() <= U16_MAX   // the grid must stay `u16`-addressable
      modifies this
      ensures Valid() && width == old(width) + 1 && Height() == old(Height())
      ensures mats == Widened(old(mats), old(width))
    {
      var w := width;
      var h := Height();
      ghost var s := mats;
      var i := h;
      assert s[..i * w] == s && s[i * w..] == [];
      while i > 0
        invariant 0 <= i <= h && width == w
        invariant i * w <= |s|
        invariant mats == s[..i * w] + Widened(s[i * w..], w)
      {
        WidenStep(s, w, i, mats);
        // Vec::insert(i * w, Apples)
        mats := mats[..i * w] + [Apples] + mats[i * w..];
        i := i - 1;
      }
      assert s[..0] == [] && s[0..] == s;
      width := width + 1;
      WidenedLookup(s, w, 0, 0);
    }

    /** `thin()`: drop the rightmost column, unless only one is left. */
    method Thin()
      requires Valid()
      modifies this
      ensures Valid() && Height() == old(Height())
      ensures old(width) <= 1 ==> width == old(width) && mats == old(mats)
      ensures old(width) > 1 ==> width == old(width) - 1 && mats == Thinned(old(mats), old(width))
    {
      if width <= 1 {
        return;
      }
      var w := width;
      var h := Height();
      ghost var s := mats;
      var i := h;
      assert s[..i * w] == s && s[i * w..] == [];
      while i > 0
        invariant 0 <= i <= h && width == w
        invariant i * w <= |s|
        invariant mats == s[..i * w] + Thinned(s[i * w..], w)
      {
        ThinStep(s, w, i, mats);
        // Vec::remove(i * w - 1)
        mats := mats[..i * w - 1] + mats[i * w..];
        i := i - 1;
      }
      assert s[..0] == [] && s[0..] == s;
      width := width - 1;
      ThinnedLookup(s, w, 0, 0);
    }

    /** `heighten()`: append a row of `Apples`. */
    method Heighten()
      requires Valid()
      requires |mats| + width <= U16_MAX   // the grid must stay `u16`-addressable
      modifies this
      ensures Valid() && width == old(width) && Height() == old(Height()) + 1
      ensures mats == old(mats) + seq(width, _ => Apples)
      ensures forall x: U16, y: U16 :: y < old(Height()) ==> Get(x, y) == old(Get(x, y))
      ensures forall x: U16 :: x < width ==> Get(x, old(Height())) == Some(Apples)
    {
      ghost var s := mats;
      mats := mats + seq(width, _ => Apples);
      HeightenedLookup(s, width, 0, 0);
      forall x: U16, y: U16
        ensures Get(x, y) == if y < RowCount(|s|, width) then Lookup(s, width, x, y)
                             else if y == RowCount(|s|, width) && x < width then Some(Apples)
                             else None
      {
        HeightenedLookup(s, width, x, y);
      }
    }

    /** `shorten()`: drop the last row, unless that would leave no cells. */
    method Shorten()
      requires Valid()
      modifies this
      ensures Valid() && width == old(width)
      ensures old(Height()) <= 1 ==> mats == old(mats)
      ensures old(Height()) > 1 ==> Height() == old(Height()) - 1 && mats == old(mats)[..|old(mats)| - width]
      ensures forall x: U16, y: U16 :: y < Height() ==> Get(x, y) == old(Get(x, y))
    {
      ghost var s := mats;
      ghost var h := Height();
      ShortenCases(mats, width);
      if |mats| < width {
        // only an empty grid: `len - width` underflows in the source; with wrap-around, `truncate` then keeps everything
        return;
      }
      var newLen := |mats| - width;
      if newLen == 0 {
        return;
      }
      mats := mats[..newLen];
      ShortenedLookup(s, width, 0, 0);
      forall x: U16, y: U16
        ensures Get(x, y) == if y < h - 1 then Lookup(s, width, x, y) else None
      {
        ShortenedLookup(s, width, x, y);
      }
    }
  }

  /** `World`: everything in the current world, which is its grid. */
  class World {
    var grid: Grid

    /** `World::new(width, height)` */
    constructor (w: U16, h: U16)
      requires w >= 1
      requires w * h <= U16_MAX
      ensures fresh(grid) && grid.Valid()
      ensures grid.width == w && grid.Height() == h && grid.mats == seq(w * h, _ => Apples)
    {
      grid := new Grid(w, h);
    }
  }
}
