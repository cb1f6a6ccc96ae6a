/** blend_subrect of ffplay, luma plane: a pointer walk that takes the destination two rows at a
    time so that chroma can be averaged, with special cases for an odd first row, an odd first
    column, an odd last column and an odd last row. Here it is proved to blend exactly the pixels it
    visits, which are those of the rectangle unless that is empty at an odd place. */
module BlendSubrect {

  type Byte = x: int | 0 <= x < 256

  function Clip(a: int, min: int, max: int): int {
    if a < min then min else if a > max then max else a
  }

  // YUVA_IN: alpha in the top byte of a palette entry, luma in the next
  function Alpha(val: nat): Byte {
    val / 0x1000000 % 256
  }

  function Luma(val: nat): Byte {
    val / 0x10000 % 256
  }

  /** A palette entry put together from its four bytes. */
  lemma PaletteEntry(a: Byte, y: Byte, u: Byte, v: Byte)
    ensures var val := ((a * 256 + y) * 256 + u) * 256 + v; Alpha(val) == a && Luma(val) == y
  {
  }

  /** ALPHA_BLEND with shift 0: the weighted mean of the old and the new luma, so again a byte. */
  function Blend(val: nat, old_: Byte): (r: Byte)
    ensures r <= old_ || r <= Luma(val)
    ensures old_ <= r || Luma(val) <= r
  {
    BlendRange(Alpha(val), old_, Luma(val));
    (old_ * (255 - Alpha(val)) + Luma(val) * Alpha(val)) / 255
  }

  /** A transparent entry leaves the old byte, an opaque one replaces it, and in between the byte is
      the greatest one whose distance from the old byte is to the distance of the new luma at most
      as alpha is to 255. */
  lemma BlendWeighs(val: nat, old_: Byte)
    ensures Alpha(val) == 0 ==> Blend(val, old_) == old_
    ensures Alpha(val) == 255 ==> Blend(val, old_) == Luma(val)
    ensures 255 * (Blend(val, old_) - old_) <= (Luma(val) - old_) * Alpha(val) < 255 * (Blend(val, old_) - old_ + 1)
  {
    var a, y := Alpha(val), Luma(val);
    assert old_ * (255 - a) + y * a == 255 * old_ + (y - old_) * a;
  }

  /** The more opaque an entry is, the nearer the byte is to the new luma. */
  lemma BlendMonotone(val: nat, val': nat, old_: Byte)
    requires Luma(val) == Luma(val') && Alpha(val) <= Alpha(val')
    ensures if old_ <= Luma(val) then Blend(val, old_) <= Blend(val', old_) <= Luma(val)
            else Luma(val) <= Blend(val', old_) <= Blend(val, old_)
  {
    var d, a, a' := Luma(val) - old_, Alpha(val), Alpha(val');
    BlendWeighs(val, old_);
    BlendWeighs(val', old_);
    Ordered(d, a, a');
  }

  lemma Ordered(d: int, a: int, a': int)
    requires a <= a'
    ensures if 0 <= d then d * a <= d * a' else d * a' <= d * a
  {
  }

  lemma BlendRange(a: int, o: int, n: int)
    requires 0 <= a <= 255 && 0 <= o <= 255 && 0 <= n <= 255
    ensures var lo, hi := if o < n then o else n, if o < n then n else o;
            lo <= (o * (255 - a) + n * a) / 255 <= hi
  {
    var lo, hi := if o < n then o else n, if o < n then n else o;
    Scale(lo, o, hi, 255 - a);
    Scale(lo, n, hi, a);
    assert lo * 255 == lo * (255 - a) + lo * a;
    assert hi * 255 == hi * (255 - a) + hi * a;
    Quotient(lo, o * (255 - a) + n * a, hi);
  }

  lemma Scale(lo: int, x: int, hi: int, k: nat)
    requires lo <= x <= hi
    ensures lo * k <= x * k <= hi * k
  {
  }

  lemma Quotient(lo: int, sum: int, hi: int)
    requires lo * 255 <= sum <= hi * 255
    ensures lo <= sum / 255 <= hi
  {
  }

  /** How many columns of a row, or rows, the walk visits: an odd first one, pairs, and one more if
      anything is left; without any, an odd first one leaves minus one. */
  function Visited(start: nat, length: nat): nat {
    if length == 0 && start % 2 == 1 then 2 else length
  }

  function Abs(x: int): nat {
    if x < 0 then -x else x
  }

  /** Where row `n` begins: each row `wrap` after the one before. */
  function Row(start: int, n: nat, wrap: int): int {
    if n == 0 then start else Row(start, n - 1, wrap) + wrap
  }

  lemma {:induction false} RowIs(start: int, n: nat, wrap: int)
    ensures Row(start, n, wrap) == start + n * wrap
  {
    if n > 0 {
      RowIs(start, n - 1, wrap);
      assert n * wrap == (n - 1) * wrap + wrap;
    }
  }

  /** The clipped destination rectangle, and where plane and subtitle begin and how far their rows
      are apart; a negative distance turns the image upside down. */
  datatype Geometry = Geometry(x: nat, y: nat, w: nat, h: nat, data: int, wrap: int, pict: int, wrap3: int) {

    function Columns(): nat {
      Visited(x, w)
    }

    function Rows(): nat {
      Visited(y, h)
    }

    // How far the pointers have slipped off their columns when they come to row `r`: by the two
    // columns too many of every single row or pair of rows before.
    function Slip(r: nat): nat {
      if w == 0 && x % 2 == 1 then (r + y % 2) / 2 * 2 else 0
    }

    // index in the luma plane of the pixel visited in row `r` and column `c`
    function At(r: nat, c: nat): int {
      Row(data, y + r, wrap) + x + c + Slip(r)
    }

    // index of its source pixel
    function Src(r: nat, c: nat): int {
      Row(pict, r, wrap3) + c + Slip(r)
    }

    predicate Visits(r: nat, c: nat) {
      r < Rows() && c < Columns()
    }

    /** Rows do not overlap, and whatever is visited is in the plane and in the subtitle. */
    ghost predicate Fits(plane: nat, source: nat) {
      && x + w <= Abs(wrap) && (Slip(2) == 0 || wrap <= -4 || wrap >= 2)
      && forall r: nat, c: nat :: Visits(r, c) ==> 0 <= At(r, c) < plane && 0 <= Src(r, c) < source
    }

    /** Neither is the rectangle empty, nor does an empty one begin at an odd place in its empty
        direction; see `StaysInsideIff`. */
    predicate Walkable() {
      (0 < w && 0 < h) || (w == 0 && x % 2 == 0) || (h == 0 && y % 2 == 0)
    }

    // Whether a byte of the plane belongs to the rectangle.
    predicate Inside(k: int) {
      0 < w && x + w <= Abs(wrap) && y <= (k - data) / wrap < y + h && x <= (k - data) % wrap < x + w
    }

    // An odd first row is walked alone, all others in pairs.
    predicate PairStart(r: nat) {
      (r + y % 2) % 2 == 0
    }

    // Moving both pointers down one row, or two.
    lemma RowStep(r: nat)
      requires PairStart(r)
      ensures At(r + 1, 0) == At(r, 0) + wrap && Src(r + 1, 0) == Src(r, 0) + wrap3
      ensures At(r + 2, 0) == At(r, 0) + 2 * wrap + (Columns() - w)
      ensures Src(r + 2, 0) == Src(r, 0) + 2 * wrap3 + (Columns() - w)
    {
    }

    lemma FirstRowStep()
      requires y % 2 == 1
      ensures At(1, 0) == At(0, 0) + wrap + (Columns() - w) && Src(1, 0) == Src(0, 0) + wrap3 + (Columns() - w)
    {
    }

    lemma Coordinates(r: nat, c: nat)
      requires c < w && x + w <= Abs(wrap)
      ensures (At(r, c) - data) / wrap == y + r && (At(r, c) - data) % wrap == x + c
    {
      RowIs(data, y + r, wrap);
      DivMod(y + r, x + c, wrap);
    }

    /** No byte is visited twice. */
    lemma VisitedOnce(r: nat, c: nat, r': nat, c': nat, plane: nat, source: nat)
      requires Fits(plane, source) && Visits(r, c) && Visits(r', c') && At(r, c) == At(r', c')
      ensures r == r' && c == c'
    {
      if w > 0 {
        Coordinates(r, c);
        Coordinates(r', c');
      } else if r < r' {
        RowsApart(r, r');
      } else if r' < r {
        RowsApart(r', r);
      }
    }

    // Two rows of two columns each that have slipped differently.
    lemma RowsApart(r: nat, r': nat)
      requires w == 0 && r < r' && (wrap <= -4 || wrap >= 2)
      ensures At(r', 0) >= At(r, 0) + 2 || At(r', 0) <= At(r, 0) - 2
    {
      var slip := Slip(r') - Slip(r);
      assert 0 <= slip <= r' - r + 1;
      RowIs(data, y + r, wrap);
      RowIs(data, y + r', wrap);
      ManyRows(y + r, y + r', wrap);
    }
  }

  lemma ManyRows(q: int, q': int, d: int)
    requires q < q'
    ensures d >= 2 ==> q' * d >= q * d + (q' - q) * 2
    ensures d <= -4 ==> q' * d <= q * d - (q' - q) * 4
  {
    var n := q' - q;
    assert q' * d == q * d + n * d;
    if d >= 2 {
      assert n * d >= n * 2;
    } else if d <= -4 {
      assert n * -d >= n * 4;
      assert n * -d == -(n * d);
    }
  }

  lemma DivMod(q: int, m: nat, d: int)
    requires m < Abs(d)
    ensures (q * d + m) / d == q && (q * d + m) % d == m
  {
    var n := q * d + m;
    UniqueQuotient(q, m, n / d, n % d, d);
  }

  lemma UniqueQuotient(q: int, m: nat, q': int, m': nat, d: int)
    requires m < Abs(d) && m' < Abs(d) && q * d + m == q' * d + m'
    ensures q == q' && m == m'
  {
    var k := q - q';
    assert k * d == m' - m;
    assert k >= 1 ==> k * Abs(d) >= Abs(d);
    assert k <= -1 ==> k * Abs(d) + Abs(d) <= 0;
    assert k * Abs(d) == k * d || k * Abs(d) == -(k * d);
  }

  /** The walk stays inside the rectangle if and only if that is not empty, has no column and starts at
      an even one, or has no row and starts at an even one. */
  lemma StaysInsideIff(g: Geometry)
    requires g.x + g.w <= Abs(g.wrap)
    ensures g.Walkable() <==> forall r: nat, c: nat :: g.Visits(r, c) ==> g.Inside(g.At(r, c))
  {
    if g.Walkable() {
      forall r: nat, c: nat | g.Visits(r, c) ensures g.Inside(g.At(r, c)) {
        g.Coordinates(r, c);
      }
    } else {
      assert g.Visits(0, 0) && !g.Inside(g.At(0, 0));
    }
  }

  function Pixel(g: Geometry, src: seq<Byte>, pal: seq<nat>, r: nat, c: nat): nat
    requires |pal| == 256 && 0 <= g.Src(r, c) < |src|
  {
    pal[src[g.Src(r, c)]]
  }

  // Inside a rectangle that has columns the source pixel is in the same row and column.
  lemma SourceIs(g: Geometry, r: nat, c: nat, plane: nat, source: nat)
    requires g.Fits(plane, source) && r < g.h && c < g.w
    ensures g.Visits(r, c) && g.Src(r, c) == g.pict + r * g.wrap3 + c && 0 <= g.Src(r, c) < source
  {
    RowIs(g.pict, r, g.wrap3);
  }

  /** The reference: every pixel of the plane on its own. */
  ghost function Plain(plane: seq<Byte>, g: Geometry, src: seq<Byte>, pal: seq<nat>): (r: seq<Byte>)
    requires g.Fits(|plane|, |src|) && |pal| == 256
  {
    seq(|plane|, k requires 0 <= k < |plane| => PlainAt(plane, g, src, pal, k))
  }

  ghost function PlainAt(plane: seq<Byte>, g: Geometry, src: seq<Byte>, pal: seq<nat>, k: nat): Byte
    requires g.Fits(|plane|, |src|) && |pal| == 256 && k < |plane|
  {
    if g.Inside(k) then
      var r, c := (k - g.data) / g.wrap - g.y, (k - g.data) % g.wrap - g.x;
      SourceIs(g, r, c, |plane|, |src|);
      Blend(pal[src[g.pict + r * g.wrap3 + c]], plane[k])
    else plane[k]
  }

  /** Rows below `rows` are blended, `c0` pixels of row `rows`, `c1` pixels of the row after. */
  predicate Done(r: int, c: int, rows: nat, c0: nat, c1: nat) {
    r < rows || (r == rows && c < c0) || (r == rows + 1 && c < c1)
  }

  ghost predicate IsVisited(g: Geometry, k: int) {
    exists r: nat, c: nat :: g.Visits(r, c) && k == g.At(r, c)
  }

  /** The pixels visited so far are blended with their own source pixels, all other bytes are as they
      were. */
  ghost predicate Progress(g: Geometry, now: seq<Byte>, was: seq<Byte>, src: seq<Byte>, pal: seq<nat>,
                           rows: nat, c0: nat, c1: nat) {
    && g.Fits(|was|, |src|) && |pal| == 256
    && |now| == |was|
    && (forall r: nat, c: nat :: g.Visits(r, c) ==>
          now[g.At(r, c)] == if Done(r, c, rows, c0, c1) then Blend(Pixel(g, src, pal, r, c), was[g.At(r, c)])
                             else was[g.At(r, c)])
    && (forall k :: 0 <= k < |was| && !IsVisited(g, k) ==> now[k] == was[k])
  }

  /** All of them are. */
  ghost predicate Walked(g: Geometry, now: seq<Byte>, was: seq<Byte>, src: seq<Byte>, pal: seq<nat>) {
    Progress(g, now, was, src, pal, g.Rows(), 0, 0)
  }

  // Finishing a row, or a pair of rows.
  lemma NextRow(g: Geometry, now: seq<Byte>, was: seq<Byte>, src: seq<Byte>, pal: seq<nat>, rows: nat)
    requires Progress(g, now, was, src, pal, rows, g.Columns(), 0)
    ensures Progress(g, now, was, src, pal, rows + 1, 0, 0)
  {
  }

  lemma NextTwoRows(g: Geometry, now: seq<Byte>, was: seq<Byte>, src: seq<Byte>, pal: seq<nat>, rows: nat)
    requires Progress(g, now, was, src, pal, rows, g.Columns(), g.Columns())
    ensures Progress(g, now, was, src, pal, rows + 2, 0, 0)
  {
  }

  // Writing one pixel that is not yet done.
  lemma OnePixel(g: Geometry, now: seq<Byte>, was: seq<Byte>, src: seq<Byte>, pal: seq<nat>,
                 rows: nat, c0: nat, c1: nat, second: bool, now': seq<Byte>)
    requires Progress(g, now, was, src, pal, rows, c0, c1)
    requires var r, c := rows + if second then 1 else 0, if second then c1 else c0;
             g.Visits(r, c)
             && now' == now[g.At(r, c) := Blend(Pixel(g, src, pal, r, c), now[g.At(r, c)])]
    ensures Progress(g, now', was, src, pal, rows, if second then c0 else c0 + 1, if second then c1 + 1 else c1)
  {
    var r0, c0', c1' := rows + if second then 1 else 0, if second then c0 else c0 + 1, if second then c1 + 1 else c1;
    var c := if second then c1 else c0;
    forall r: nat, c': nat | g.Visits(r, c')
      ensures now'[g.At(r, c')]
           == if Done(r, c', rows, c0', c1') then Blend(Pixel(g, src, pal, r, c'), was[g.At(r, c')])
              else was[g.At(r, c')]
    {
      if g.At(r, c') == g.At(r0, c) {
        g.VisitedOnce(r, c', r0, c, |was|, |src|);
      }
    }
    assert IsVisited(g, g.At(r0, c));
  }

  // The pixel of the rectangle that a byte inside it is.
  lemma InsideIsVisited(g: Geometry, k: int)
    requires g.Inside(k)
    ensures var r, c := (k - g.data) / g.wrap - g.y, (k - g.data) % g.wrap - g.x;
            g.Visits(r, c) && g.At(r, c) == k
  {
    var o := k - g.data;
    RowIs(g.data, o / g.wrap, g.wrap);
    assert o == o / g.wrap * g.wrap + o % g.wrap;
  }

  lemma WalkedAt(g: Geometry, now: seq<Byte>, was: seq<Byte>, src: seq<Byte>, pal: seq<nat>, r: nat, c: nat)
    requires Walked(g, now, was, src, pal) && g.Visits(r, c)
    ensures now[g.At(r, c)] == Blend(Pixel(g, src, pal, r, c), was[g.At(r, c)])
  {
  }

  // What the plain map makes of a byte inside the rectangle.
  lemma PlainInside(g: Geometry, was: seq<Byte>, src: seq<Byte>, pal: seq<nat>, r: nat, c: nat, k: nat)
    requires g.Fits(|was|, |src|) && |pal| == 256 && k < |was| && g.Inside(k)
    requires r == (k - g.data) / g.wrap - g.y && c == (k - g.data) % g.wrap - g.x
    ensures g.Visits(r, c) && PlainAt(was, g, src, pal, k) == Blend(Pixel(g, src, pal, r, c), was[k])
  {
    SourceIs(g, r, c, |was|, |src|);
  }

  lemma WalkedInside(g: Geometry, now: seq<Byte>, was: seq<Byte>, src: seq<Byte>, pal: seq<nat>, k: nat)
    requires Walked(g, now, was, src, pal) && k < |was| && g.Inside(k)
    ensures now[k] == PlainAt(was, g, src, pal, k)
  {
    InsideIsVisited(g, k);
    var r, c := (k - g.data) / g.wrap - g.y, (k - g.data) % g.wrap - g.x;
    PlainInside(g, was, src, pal, r, c, k);
    WalkedAt(g, now, was, src, pal, r, c);
  }

  lemma OutsideIsNotVisited(g: Geometry, k: int)
    requires g.x + g.w <= Abs(g.wrap) && g.Walkable() && !g.Inside(k)
    ensures !IsVisited(g, k)
  {
    StaysInsideIff(g);
  }

  /** On a rectangle in which the walk stays, what it leaves is the plain map. */
  lemma WalkedIsPlain(g: Geometry, now: seq<Byte>, was: seq<Byte>, src: seq<Byte>, pal: seq<nat>)
    requires Walked(g, now, was, src, pal) && g.Walkable()
    ensures now == Plain(was, g, src, pal)
  {
    var plain := Plain(was, g, src, pal);
    forall k | 0 <= k < |was|
      ensures now[k] == plain[k]
    {
      if g.Inside(k) {
        WalkedInside(g, now, was, src, pal, k);
      } else {
        OutsideIsNotVisited(g, k);
      }
    }
  }

  /** YUVA_IN followed by ALPHA_BLEND on one luma byte. The pixel must not have been written. */
  method BlendPixel(lum: array<Byte>, l: int, src: seq<Byte>, p: int, pal: seq<nat>,
                    ghost g: Geometry, ghost was: seq<Byte>, ghost rows: nat, ghost c0: nat, ghost c1: nat,
                    ghost second: bool)
    requires Progress(g, lum[..], was, src, pal, rows, c0, c1)
    requires g.Visits(rows + if second then 1 else 0, if second then c1 else c0)
    requires l == g.At(rows + if second then 1 else 0, if second then c1 else c0)
    requires p == g.Src(rows + if second then 1 else 0, if second then c1 else c0)
    modifies lum
    ensures Progress(g, lum[..], was, src, pal, rows, if second then c0 else c0 + 1, if second then c1 + 1 else c1)
  {
    ghost var now := lum[..];
    lum[l] := Blend(pal[src[p]], lum[l]);
    OnePixel(g, now, was, src, pal, rows, c0, c1, second, lum[..]);
  }

  // Two columns of a row.
  method BlendPair(lum: array<Byte>, l: int, src: seq<Byte>, p: int, pal: seq<nat>,
                   ghost g: Geometry, ghost was: seq<Byte>, ghost rows: nat, ghost c0: nat, ghost c1: nat,
                   ghost second: bool)
    requires Progress(g, lum[..], was, src, pal, rows, c0, c1)
    requires g.Visits(rows + if second then 1 else 0, if second then c1 + 1 else c0 + 1)
    requires l == g.At(rows + if second then 1 else 0, if second then c1 else c0)
    requires p == g.Src(rows + if second then 1 else 0, if second then c1 else c0)
    modifies lum
    ensures Progress(g, lum[..], was, src, pal, rows, if second then c0 else c0 + 2, if second then c1 + 2 else c1)
  {
    BlendPixel(lum, l, src, p, pal, g, was, rows, c0, c1, second);
    BlendPixel(lum, l + 1, src, p + 1, pal, g, was, rows,
               if second then c0 else c0 + 1, if second then c1 + 1 else c1, second);
  }

  // The pairs of columns of one row, from column `c` on, of which `w0` are left.
  method BlendPairs(lum: array<Byte>, l0: int, src: seq<Byte>, p0: int, pal: seq<nat>, w0: int,
                    ghost g: Geometry, ghost was: seq<Byte>, ghost rows: nat, ghost c: nat)
    returns (l: int, p: int, w: int)
    requires Progress(g, lum[..], was, src, pal, rows, c, 0) && rows < g.Rows() && c + w0 <= g.Columns()
    requires l0 == g.At(rows, c) && p0 == g.Src(rows, c)
    modifies lum
    ensures if w0 < 2 then w == w0 else 0 <= w < 2
    ensures Progress(g, lum[..], was, src, pal, rows, c + w0 - w, 0)
    ensures l == l0 + w0 - w && p == p0 + w0 - w
  {
    l, p, w := l0, p0, w0;
    while w >= 2
      invariant if w0 < 2 then w == w0 else 0 <= w <= w0
      invariant l == l0 + w0 - w && p == p0 + w0 - w
      invariant Progress(g, lum[..], was, src, pal, rows, c + w0 - w, 0)
    {
      BlendPair(lum, l, src, p, pal, g, was, rows, c + w0 - w, 0, false);
      l, p := l + 2, p + 2;
      w := w - 2;
    }
  }

  /** One destination row: an odd first column, pairs, an odd last column. `l` and `p` are the
      pointers to its first pixel; the results point just past its last. */
  method BlendRow(lum: array<Byte>, l0: int, src: seq<Byte>, p0: int, pal: seq<nat>, dstx: nat, dstw: nat,
                  ghost g: Geometry, ghost was: seq<Byte>, ghost rows: nat)
    returns (l: int, p: int)
    requires Progress(g, lum[..], was, src, pal, rows, 0, 0) && rows < g.Rows()
    requires dstx == g.x && dstw == g.w
    requires l0 == g.At(rows, 0) && p0 == g.Src(rows, 0)
    modifies lum
    ensures Progress(g, lum[..], was, src, pal, rows, g.Columns(), 0)
    ensures l == l0 + g.Columns() && p == p0 + g.Columns()
  {
    l, p := l0, p0;
    if dstx % 2 == 1 {
      BlendPixel(lum, l, src, p, pal, g, was, rows, 0, 0, false);
      l, p := l + 1, p + 1;
    }
    var w := dstw - dstx % 2;
    l, p, w := BlendPairs(lum, l, src, p, pal, w, g, was, rows, dstx % 2);
    if w != 0 {
      BlendPixel(lum, l, src, p, pal, g, was, rows, g.Columns() - 1, 0, false);
      l, p := l + 1, p + 1;
    }
  }

  // An odd column of two rows: one pixel, and the one below it.
  method BlendColumn(lum: array<Byte>, l0: int, src: seq<Byte>, p0: int, pal: seq<nat>, wrap: int, wrap3: int,
                     ghost g: Geometry, ghost was: seq<Byte>, ghost rows: nat, ghost c: nat)
    returns (l: int, p: int)
    requires Progress(g, lum[..], was, src, pal, rows, c, c) && g.Visits(rows + 1, c)
    requires g.PairStart(rows)
    requires wrap == g.wrap && wrap3 == g.wrap3 && l0 == g.At(rows, 0) + c && p0 == g.Src(rows, 0) + c
    modifies lum
    ensures Progress(g, lum[..], was, src, pal, rows, c + 1, c + 1)
    ensures l == l0 + 1 && p == p0 + 1
  {
    l, p := l0, p0;
    g.RowStep(rows);
    BlendPixel(lum, l, src, p, pal, g, was, rows, c, c, false);
    p := p + wrap3;
    l := l + wrap;
    BlendPixel(lum, l, src, p, pal, g, was, rows, c + 1, c, true);
    p := p - wrap3 + 1;
    l := l - wrap + 1;
  }

  // Two columns of two rows.
  method BlendBlock(lum: array<Byte>, l0: int, src: seq<Byte>, p0: int, pal: seq<nat>, wrap: int, wrap3: int,
                    ghost g: Geometry, ghost was: seq<Byte>, ghost rows: nat, ghost c: nat)
    returns (l: int, p: int)
    requires Progress(g, lum[..], was, src, pal, rows, c, c) && g.Visits(rows + 1, c + 1)
    requires g.PairStart(rows)
    requires wrap == g.wrap && wrap3 == g.wrap3 && l0 == g.At(rows, 0) + c && p0 == g.Src(rows, 0) + c
    modifies lum
    ensures Progress(g, lum[..], was, src, pal, rows, c + 2, c + 2)
    ensures l == l0 + 2 && p == p0 + 2
  {
    l, p := l0, p0;
    g.RowStep(rows);
    BlendPair(lum, l, src, p, pal, g, was, rows, c, c, false);
    p := p + wrap3;
    l := l + wrap;
    BlendPair(lum, l, src, p, pal, g, was, rows, c + 2, c, true);
    p := p - wrap3 + 2;
    l := l - wrap + 2;
  }

  /** Two destination rows at once, as the chroma averaging wants them. */
  method BlendTwoRows(lum: array<Byte>, l0: int, src: seq<Byte>, p0: int, pal: seq<nat>, dstx: nat, dstw: nat,
                      wrap: int, wrap3: int, ghost g: Geometry, ghost was: seq<Byte>, ghost rows: nat)
    returns (l: int, p: int)
    requires Progress(g, lum[..], was, src, pal, rows, 0, 0) && rows + 1 < g.Rows()
    requires g.PairStart(rows)
    requires dstx == g.x && dstw == g.w && wrap == g.wrap && wrap3 == g.wrap3
    requires l0 == g.At(rows, 0) && p0 == g.Src(rows, 0)
    modifies lum
    ensures Progress(g, lum[..], was, src, pal, rows, g.Columns(), g.Columns())
    ensures l == l0 + g.Columns() && p == p0 + g.Columns()
  {
    l, p := l0, p0;
    if dstx % 2 == 1 {
      l, p := BlendColumn(lum, l, src, p, pal, wrap, wrap3, g, was, rows, 0);
    }
    var w := dstw - dstx % 2;
    while w >= 2
      invariant w <= dstw && if dstw == 0 then w == -(dstx % 2) else 0 <= w
      invariant l == l0 + (dstw - w) && p == p0 + (dstw - w)
      invariant Progress(g, lum[..], was, src, pal, rows, dstw - w, dstw - w)
    {
      l, p := BlendBlock(lum, l, src, p, pal, wrap, wrap3, g, was, rows, dstw - w);
      w := w - 2;
    }
    if w != 0 {
      l, p := BlendColumn(lum, l, src, p, pal, wrap, wrap3, g, was, rows, dstw - w);
    }
  }

  function Distance(a: int, b: int): nat {
    Abs(a - b)
  }

  /** The rectangle of the subtitle clipped to the image: of the rectangles inside the image the one of
      the nearest size, at the nearest place. */
  function Clipped(rx: int, ry: int, rw: int, rh: int, imgw: nat, imgh: nat,
                   data: int, wrap: int, pict: int, wrap3: int): (g: Geometry)
    ensures g.x + g.w <= imgw && g.y + g.h <= imgh
    ensures rw >= 1 && imgw >= 1 ==> g.w >= 1
    ensures rh >= 1 && imgh >= 1 ==> g.h >= 1
    ensures forall x :: 0 <= x <= imgw ==> Distance(rw, g.w) <= Distance(rw, x)
    ensures forall y :: 0 <= y <= imgh ==> Distance(rh, g.h) <= Distance(rh, y)
    ensures forall x :: 0 <= x <= imgw - g.w ==> Distance(rx, g.x) <= Distance(rx, x)
    ensures forall y :: 0 <= y <= imgh - g.h ==> Distance(ry, g.y) <= Distance(ry, y)
    ensures g.data == data && g.wrap == wrap && g.pict == pict && g.wrap3 == wrap3
  {
    var w := Clip(rw, 0, imgw);
    var h := Clip(rh, 0, imgh);
    Geometry(Clip(rx, 0, imgw - w), Clip(ry, 0, imgh - h), w, h, data, wrap, pict, wrap3)
  }

  // Two rows, and on to the row below them.
  method BlendRowPair(lum: array<Byte>, l0: int, src: seq<Byte>, p0: int, pal: seq<nat>, dstx: nat, dstw: nat,
                      wrap: int, wrap3: int, ghost g: Geometry, ghost was: seq<Byte>, ghost rows: nat)
    returns (l: int, p: int)
    requires Progress(g, lum[..], was, src, pal, rows, 0, 0) && rows + 1 < g.Rows()
    requires g.PairStart(rows)
    requires dstx == g.x && dstw == g.w && wrap == g.wrap && wrap3 == g.wrap3
    requires l0 == g.At(rows, 0) - dstx && p0 == g.Src(rows, 0)
    modifies lum
    ensures Progress(g, lum[..], was, src, pal, rows + 2, 0, 0) && g.PairStart(rows + 2)
    ensures l == g.At(rows + 2, 0) - dstx && p == g.Src(rows + 2, 0)
  {
    l, p := BlendTwoRows(lum, l0 + dstx, src, p0, pal, dstx, dstw, wrap, wrap3, g, was, rows);
    NextTwoRows(g, lum[..], was, src, pal, rows);
    g.RowStep(rows);
    p := p + wrap3 + (wrap3 - dstw);
    l := l + wrap + (wrap - dstw - dstx);
  }

  // The pairs of rows from row `r0` on, of which `h0` rows are left.
  method BlendRowPairs(lum: array<Byte>, l0: int, src: seq<Byte>, p0: int, pal: seq<nat>, dstx: nat, dstw: nat,
                       h0: int, wrap: int, wrap3: int, ghost g: Geometry, ghost was: seq<Byte>, ghost r0: nat)
    returns (l: int, p: int, h: int, ghost rows: nat)
    requires Progress(g, lum[..], was, src, pal, r0, 0, 0) && g.PairStart(r0) && r0 + h0 <= g.Rows()
    requires dstx == g.x && dstw == g.w && wrap == g.wrap && wrap3 == g.wrap3
    requires l0 == g.At(r0, 0) - dstx && p0 == g.Src(r0, 0)
    modifies lum
    ensures if h0 < 2 then h == h0 else 0 <= h < 2
    ensures rows == r0 + h0 - h && Progress(g, lum[..], was, src, pal, rows, 0, 0)
    ensures l == g.At(rows, 0) - dstx && p == g.Src(rows, 0)
  {
    l, p, h, rows := l0, p0, h0, r0;
    while h >= 2
      invariant if h0 < 2 then h == h0 else 0 <= h <= h0
      invariant rows == r0 + h0 - h && g.PairStart(rows)
      invariant l == g.At(rows, 0) - dstx && p == g.Src(rows, 0)
      invariant Progress(g, lum[..], was, src, pal, rows, 0, 0)
    {
      l, p := BlendRowPair(lum, l, src, p, pal, dstx, dstw, wrap, wrap3, g, was, rows);
      rows := rows + 2;
      h := h - 2;
    }
  }

  /** The rows after an odd first row: pairs of rows, then perhaps a last one. */
  method BlendRemaining(lum: array<Byte>, l0: int, src: seq<Byte>, p0: int, pal: seq<nat>, dstx: nat, dstw: nat,
                        h0: int, wrap: int, wrap3: int, ghost g: Geometry, ghost was: seq<Byte>)
    requires Progress(g, lum[..], was, src, pal, g.y % 2, 0, 0) && h0 == g.h - g.y % 2
    requires dstx == g.x && dstw == g.w && wrap == g.wrap && wrap3 == g.wrap3
    requires l0 == g.At(g.y % 2, 0) - dstx && p0 == g.Src(g.y % 2, 0)
    modifies lum
    ensures Walked(g, lum[..], was, src, pal)
  {
    var l, p, h := l0, p0, h0;
    ghost var rows;
    l, p, h, rows := BlendRowPairs(lum, l, src, p, pal, dstx, dstw, h, wrap, wrap3, g, was, g.y % 2);
    if h != 0 {
      l := l + dstx;
      l, p := BlendRow(lum, l, src, p, pal, dstx, dstw, g, was, rows);
      NextRow(g, lum[..], was, src, pal, rows);
    }
  }

  /** blend_subrect on the luma plane, for every rectangle: the walk blends exactly the pixels it
      visits, each once and with its own source pixel. If it stays inside the rectangle, these are
      the pixels of the rectangle, and the plane is as the plain map describes it. */
  method BlendSubrect(lum: array<Byte>, data: int, wrap: int, rx: int, ry: int, rw: int, rh: int,
                      src: seq<Byte>, pict: int, wrap3: int, pal: seq<nat>, imgw: nat, imgh: nat)
    requires |pal| == 256
    requires Clipped(rx, ry, rw, rh, imgw, imgh, data, wrap, pict, wrap3).Fits(lum.Length, |src|)
    modifies lum
    ensures var g := Clipped(rx, ry, rw, rh, imgw, imgh, data, wrap, pict, wrap3);
            && Walked(g, lum[..], old(lum[..]), src, pal)
            && (g.Walkable() ==> lum[..] == Plain(old(lum[..]), g, src, pal))
  {
    ghost var g := Clipped(rx, ry, rw, rh, imgw, imgh, data, wrap, pict, wrap3);
    ghost var was := lum[..];
    var dstw := Clip(rw, 0, imgw);
    var dsth := Clip(rh, 0, imgh);
    var dstx := Clip(rx, 0, imgw - dstw);
    var dsty := Clip(ry, 0, imgh - dsth);
    var l := data + dsty * wrap;
    var p := pict;
    RowIs(data, dsty, wrap);
    assert l == g.At(0, 0) - dstx && p == g.Src(0, 0);
    if dsty % 2 == 1 {
      l := l + dstx;
      l, p := BlendRow(lum, l, src, p, pal, dstx, dstw, g, was, 0);
      NextRow(g, lum[..], was, src, pal, 0);
      g.FirstRowStep();
      p := p + wrap3 - dstw;
      l := l + wrap - dstw - dstx;
    }
    BlendRemaining(lum, l, src, p, pal, dstx, dstw, dsth - dsty % 2, wrap, wrap3, g, was);
    if g.Walkable() {
      WalkedIsPlain(g, lum[..], was, src, pal);
    }
  }

  /** A subtitle without columns and with one row, at column 1 of an image of 4 by 4. */
  const EMPTY := Geometry(1, 0, 0, 1, 0, 4, 0, 0)

  lemma EmptyVisits(r: nat, c: nat)
    ensures EMPTY.Visits(r, c) <==> r == 0 && c < 2
    ensures r == 0 ==> EMPTY.At(r, c) == 1 + c && EMPTY.Src(r, c) == c
  {
  }

  lemma EmptyFits(source: nat)
    requires source >= 2
    ensures EMPTY.Fits(16, source)
  {
    forall r: nat, c: nat | EMPTY.Visits(r, c)
      ensures 0 <= EMPTY.At(r, c) < 16 && 0 <= EMPTY.Src(r, c) < source
    {
      EmptyVisits(r, c);
    }
  }

  lemma EmptyElsewhere(k: nat)
    requires k != 1 && k != 2
    ensures !IsVisited(EMPTY, k)
  {
    forall r: nat, c: nat | EMPTY.Visits(r, c) ensures k != EMPTY.At(r, c) {
      EmptyVisits(r, c);
    }
  }

  lemma EmptyAt(now: seq<Byte>, was: seq<Byte>, src: seq<Byte>, pal: seq<nat>, c: nat)
    requires Walked(EMPTY, now, was, src, pal) && |was| == 16 && |src| >= 2 && c < 2
    ensures now[1 + c] == Blend(pal[src[c]], was[1 + c])
  {
    EmptyVisits(0, c);
    WalkedAt(EMPTY, now, was, src, pal, 0, c);
  }

  /** The walk blends the bytes 1 and 2 of the plane, though the rectangle has no pixel. */
  lemma EmptyIsWalked(now: seq<Byte>, was: seq<Byte>, src: seq<Byte>, pal: seq<nat>)
    requires Walked(EMPTY, now, was, src, pal) && |was| == 16 && |src| >= 2
    ensures now == was[1 := Blend(pal[src[0]], was[1])][2 := Blend(pal[src[1]], was[2])]
  {
    EmptyAt(now, was, src, pal, 0);
    EmptyAt(now, was, src, pal, 1);
    forall k | 0 <= k < 16 && k != 1 && k != 2 ensures now[k] == was[k] {
      EmptyElsewhere(k);
    }
  }

  /** So does the code. */
  method EmptyLeavesRectangle(lum: array<Byte>, src: seq<Byte>, pal: seq<nat>)
    requires lum.Length == 16 && |src| >= 2 && |pal| == 256
    modifies lum
    ensures lum[..] == old(lum[..])[1 := Blend(pal[src[0]], old(lum[1]))][2 := Blend(pal[src[1]], old(lum[2]))]
  {
    EmptyFits(|src|);
    assert Clipped(1, 0, 0, 1, 4, 4, 0, 4, 0, 0) == EMPTY;
    BlendSubrect(lum, 0, 4, 1, 0, 0, 1, src, 0, 0, pal, 4, 4);
    EmptyIsWalked(lum[..], old(lum[..]), src, pal);
  }
}
