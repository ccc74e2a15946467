/** The capture loop of the black and white QuickCam driver (video/bw-qcam.c:
    qc_readbytes, qc_capture): unpacking pixels from parallel port transfers.  Masks
    and shifts are written as remainders, quotients and products, and the joining of
    fields that do not overlap as a sum. */
module QuickCam {
  import opened Basics

  datatype Port = Unidir | Bidir

  /** What one call of qc_readbytes takes from the port: in one direction two
      nibbles, in two directions two words of seven and five bits. */
  datatype Transfer = Transfer(lo: nat, hi: nat, lo2: nat, hi2: nat)

  datatype Config = Config(port: Port, bpp: int, scale: int, width: nat, height: nat)
  {
    predicate Valid() { (bpp == 4 || bpp == 6) && (scale == 1 || scale == 2 || scale == 4) }

    function Divisor(): int { (if port.Bidir? then 24 else 8) * scale }

    function PixelsPerLine(): nat
      requires Valid()
    {
      width / scale
    }

    function Lines(): nat
      requires Valid()
    {
      height / scale
    }

    /** The transfers of a line, rounded up. */
    function TransPerLine(): nat
      requires Valid()
    {
      (width * bpp + Divisor() - 1) / Divisor()
    }

    /** The pixels complete after j transfers of a line. */
    function PixelsAfter(j: nat): nat {
      match port
      case Unidir => if bpp == 4 then 2 * j else 4 * (j / 3) + j % 3
      case Bidir => if bpp == 4 then 6 * j else 4 * j
    }
  }

  // --------------------------------------------------- the stream as bits

  /** v shifted down by k, a bit at a time. */
  function Shr(v: nat, k: nat): nat { if k == 0 then v else Shr(v / 2, k - 1) }

  function Bit(v: nat, k: nat): bool { Shr(v, k) % 2 == 1 }

  /** The bits of a transfer: nibbles from the top down in one direction, twelve-bit
      words from the bottom up in two. */
  function Bits(port: Port, t: Transfer): (r: seq<bool>)
    ensures |r| == Width(port)
  {
    if port.Unidir? then
      [Bit(t.lo, 3), Bit(t.lo, 2), Bit(t.lo, 1), Bit(t.lo, 0), Bit(t.hi, 3), Bit(t.hi, 2), Bit(t.hi, 1), Bit(t.hi, 0)]
    else Word(t.lo, t.hi) + Word(t.lo2, t.hi2)
  }

  function Word(lo: nat, hi: nat): (r: seq<bool>)
    ensures |r| == 12
  {
    [Bit(lo, 0), Bit(lo, 1), Bit(lo, 2), Bit(lo, 3), Bit(lo, 4), Bit(lo, 5), Bit(lo, 6),
     Bit(hi, 0), Bit(hi, 1), Bit(hi, 2), Bit(hi, 3), Bit(hi, 4)]
  }

  function Width(port: Port): nat { if port.Unidir? then 8 else 24 }

  /** The transfer a bit of a line is in, and its place there. */
  function Row(port: Port, n: nat): nat { if port.Unidir? then n / 8 else n / 24 }

  function Column(port: Port, n: nat): nat { if port.Unidir? then n % 8 else n % 24 }

  /** The transfers as rows of bits. */
  predicate Rows(port: Port, rows: seq<seq<bool>>) {
    forall k | 0 <= k < |rows| :: |rows[k]| == Width(port)
  }

  /** Bit n of the line whose transfers start at base. */
  function BitAt(port: Port, rows: seq<seq<bool>>, base: nat, n: nat): bool
    requires Rows(port, rows) && base + Row(port, n) < |rows|
  {
    rows[base + Row(port, n)][Column(port, n)]
  }

  /** len bits from n on have arrived, and what they are. */
  predicate Arrived(port: Port, rows: seq<seq<bool>>, base: nat, n: nat, len: nat) {
    len > 0 && base + Row(port, n + len - 1) < |rows|
  }

  function Group(port: Port, rows: seq<seq<bool>>, base: nat, n: nat, len: nat): (r: seq<bool>)
    requires Rows(port, rows) && Arrived(port, rows, base, n, len)
    ensures |r| == len
  {
    if len == 1 then [BitAt(port, rows, base, n)]
    else Group(port, rows, base, n, len - 1) + [BitAt(port, rows, base, n + len - 1)]
  }

  /** Four or six bits as a number, the first one on top in one direction and at the
      bottom in two. */
  function Number(port: Port, g: seq<bool>): int
    requires |g| == 4 || |g| == 6
  {
    match port
    case Unidir =>
      if |g| == 4 then W(g[0], 8) + W(g[1], 4) + W(g[2], 2) + W(g[3], 1)
      else W(g[0], 32) + W(g[1], 16) + W(g[2], 8) + W(g[3], 4) + W(g[4], 2) + W(g[5], 1)
    case Bidir =>
      var low := W(g[0], 1) + W(g[1], 2) + W(g[2], 4) + W(g[3], 8);
      if |g| == 4 then low else low + W(g[4], 16) + W(g[5], 32)
  }

  function W(b: bool, v: int): int { if b then v else 0 }

  /** Pixel x of a line, the x-th group of its bits, is v. */
  predicate Shows(c: Config, rows: seq<seq<bool>>, base: nat, x: nat, v: int)
    requires c.Valid() && Rows(c.port, rows)
  {
    var n := if c.bpp == 4 then 4 * x else 6 * x;
    Arrived(c.port, rows, base, n, c.bpp) && Number(c.port, Group(c.port, rows, base, n, c.bpp)) == v
  }

  /** Pixels x.. of a line are the values in p. */
  predicate ShowsAll(c: Config, rows: seq<seq<bool>>, base: nat, x: nat, p: seq<int>)
    requires c.Valid() && Rows(c.port, rows)
  {
    forall k | 0 <= k < |p| :: Shows(c, rows, base, x + k, p[k])
  }

  lemma TwoShown(c: Config, rows: seq<seq<bool>>, base: nat, x: nat, a: int, b: int)
    requires c.Valid() && Rows(c.port, rows) && Shows(c, rows, base, x, a) && Shows(c, rows, base, x + 1, b)
    ensures ShowsAll(c, rows, base, x, [a, b])
  {
  }

  lemma OneShown(c: Config, rows: seq<seq<bool>>, base: nat, x: nat, a: int)
    requires c.Valid() && Rows(c.port, rows) && Shows(c, rows, base, x, a)
    ensures ShowsAll(c, rows, base, x, [a])
  {
  }

  lemma SameShown(c: Config, rows: seq<seq<bool>>, base: nat, x: nat, p: seq<int>, r: seq<int>)
    requires c.Valid() && Rows(c.port, rows) && ShowsAll(c, rows, base, x, p) && p == r
    ensures ShowsAll(c, rows, base, x, r)
  {
  }

  lemma MoreShown(c: Config, rows: seq<seq<bool>>, base: nat, x: nat, p: seq<int>, r: seq<int>)
    requires c.Valid() && Rows(c.port, rows) && ShowsAll(c, rows, base, x, p) && ShowsAll(c, rows, base, x + |p|, r)
    ensures ShowsAll(c, rows, base, x, p + r)
  {
    forall k | 0 <= k < |p + r|
      ensures Shows(c, rows, base, x + k, (p + r)[k])
    {
      if k >= |p| {
        assert Shows(c, rows, base, x + |p| + (k - |p|), r[k - |p|]);
      }
    }
  }

  /** The widths of what the port registers give. */
  predicate Fits(port: Port, t: Transfer) {
    if port.Unidir? then t.lo < 16 && t.hi < 16
    else t.lo < 128 && t.hi < 32 && t.lo2 < 128 && t.hi2 < 32
  }

  predicate UnpackedAt(port: Port, input: seq<Transfer>, rows: seq<seq<bool>>, k: nat)
    requires k < |input| == |rows|
  {
    Fits(port, input[k]) && rows[k] == Bits(port, input[k])
  }

  /** rows are the bits of the transfers, all of them of the width they should be. */
  predicate Unpacked(port: Port, input: seq<Transfer>, rows: seq<seq<bool>>) {
    && |rows| == |input| && Rows(port, rows)
    && forall k {:trigger UnpackedAt(port, input, rows, k)} | 0 <= k < |input| :: UnpackedAt(port, input, rows, k)
  }

  // ------------------------------------------------------ where the bits are

  lemma BitIn(port: Port, n: nat, j: nat, r: nat)
    requires r < Width(port) && n == (if port.Unidir? then 8 * j + r else 24 * j + r)
    ensures Row(port, n) == j && Column(port, n) == r
  {
  }

  lemma SliceGrows(b: seq<bool>, r: nat, e: nat)
    requires r <= e < |b|
    ensures b[r..e + 1] == b[r..e] + [b[e]]
  {
  }

  /** A group within one transfer. */
  lemma {:induction false} GroupIn(port: Port, rows: seq<seq<bool>>, base: nat, n: nat, len: nat, j: nat, r: nat)
    requires len > 0 && r + len <= Width(port) && n == (if port.Unidir? then 8 * j + r else 24 * j + r)
    requires Rows(port, rows) && base + j < |rows|
    ensures Arrived(port, rows, base, n, len) && Group(port, rows, base, n, len) == rows[base + j][r..r + len]
    decreases len
  {
    var e := r + len - 1;
    BitIn(port, n + len - 1, j, e);
    SliceGrows(rows[base + j], r, e);
    assert BitAt(port, rows, base, n + len - 1) == rows[base + j][e];
    if len > 1 {
      GroupIn(port, rows, base, n, len - 1, j, r);
    }
  }

  /** A group that starts in one transfer and ends in the next. */
  lemma {:induction false} GroupAcross(rows: seq<seq<bool>>, base: nat, n: nat, len: nat, j: nat, r: nat)
    requires r < 8 <= r + len <= 16 && n == 8 * j + r && Rows(Unidir, rows) && base + j + 1 < |rows|
    ensures Arrived(Unidir, rows, base, n, len)
    ensures Group(Unidir, rows, base, n, len) == rows[base + j][r..] + rows[base + j + 1][..r + len - 8]
    decreases len
  {
    if r + len == 8 {
      GroupIn(Unidir, rows, base, n, len, j, r);
    } else {
      BitIn(Unidir, n + len - 1, j + 1, r + len - 9);
      if len > 1 {
        GroupAcross(rows, base, n, len - 1, j, r);
      }
    }
  }

  // ------------------------------------ the same bits as the driver masks them

  lemma Halves(v: nat)
    ensures Shr(v, 0) == v && Shr(v, 1) == v / 2 && Shr(v, 2) == v / 2 / 2
  {
    assert Shr(v / 2, 1) == Shr(v / 2 / 2, 0);
  }

  /** The low three bits of v and the rest. */
  lemma LowThree(v: nat)
    ensures v == 8 * Shr(v, 3) + W(Bit(v, 2), 4) + W(Bit(v, 1), 2) + W(Bit(v, 0), 1)
  {
    Halves(v);
    assert Shr(v, 3) == Shr(v / 2, 2);
    Halves(v / 2);
  }

  lemma ShrFurther(v: nat, k: nat)
    ensures Shr(v, 3 + k) == Shr(Shr(v, 3), k)
  {
    assert Shr(v, 3 + k) == Shr(v / 2, 2 + k) == Shr(v / 2 / 2, 1 + k) == Shr(v / 2 / 2 / 2, k);
    assert Shr(v, 3) == Shr(v / 2, 2) == Shr(v / 2 / 2, 1) == Shr(v / 2 / 2 / 2, 0);
  }

  lemma NibbleBits(v: nat)
    requires v < 16
    ensures v == W(Bit(v, 3), 8) + W(Bit(v, 2), 4) + W(Bit(v, 1), 2) + W(Bit(v, 0), 1)
    ensures v / 4 == W(Bit(v, 3), 2) + W(Bit(v, 2), 1) && v % 4 == W(Bit(v, 1), 2) + W(Bit(v, 0), 1)
  {
    LowThree(v);
  }

  lemma SevenBits(v: nat)
    requires v < 128
    ensures v == W(Bit(v, 0), 1) + W(Bit(v, 1), 2) + W(Bit(v, 2), 4) + W(Bit(v, 3), 8) + W(Bit(v, 4), 16)
                 + W(Bit(v, 5), 32) + W(Bit(v, 6), 64)
  {
    LowThree(v);
    NibbleBits(Shr(v, 3));
    BitFurther(v, 0);
    BitFurther(v, 1);
    BitFurther(v, 2);
    BitFurther(v, 3);
  }

  lemma BitFurther(v: nat, k: nat)
    ensures Bit(v, 3 + k) == Bit(Shr(v, 3), k)
  {
    ShrFurther(v, k);
  }

  lemma Fields(v: nat, low: nat, mid: nat, top: nat)
    requires v == low + 16 * mid + 64 * top && low < 16 && mid < 4
    ensures v % 16 == low && v / 16 == mid + 4 * top && v % 64 == low + 16 * mid && v / 64 == top
  {
  }

  lemma Doubled(v: nat, b0: int, b1: int, b2: int, b3: int, b4: int)
    requires v % 2 == b0 && v / 2 == b1 + b2 + b3 + b4
    ensures v * 2 == 2 * b0 + 4 * b1 + 4 * b2 + 4 * b3 + 4 * b4
  {
  }

  lemma FiveFields(v: nat, low: nat, rest: nat)
    requires v == low + 2 * rest && low < 2
    ensures v % 2 == low && v / 2 == rest
  {
  }

  /** Seven bits and five, and the fields the driver takes from them. */
  lemma WordBits(lo: nat, hi: nat)
    requires lo < 128 && hi < 32
    ensures lo % 16 == W(Bit(lo, 0), 1) + W(Bit(lo, 1), 2) + W(Bit(lo, 2), 4) + W(Bit(lo, 3), 8)
    ensures lo / 16 == W(Bit(lo, 4), 1) + W(Bit(lo, 5), 2) + W(Bit(lo, 6), 4)
    ensures lo % 64 == lo % 16 + W(Bit(lo, 4), 16) + W(Bit(lo, 5), 32) && lo / 64 == W(Bit(lo, 6), 1)
    ensures hi % 2 == W(Bit(hi, 0), 1)
    ensures hi / 2 == W(Bit(hi, 1), 1) + W(Bit(hi, 2), 2) + W(Bit(hi, 3), 4) + W(Bit(hi, 4), 8)
  {
    SevenBits(lo);
    Fields(lo, W(Bit(lo, 0), 1) + W(Bit(lo, 1), 2) + W(Bit(lo, 2), 4) + W(Bit(lo, 3), 8),
           W(Bit(lo, 4), 1) + W(Bit(lo, 5), 2), W(Bit(lo, 6), 1));
    SevenBits(hi);
    FiveFields(hi, W(Bit(hi, 0), 1), W(Bit(hi, 1), 1) + W(Bit(hi, 2), 2) + W(Bit(hi, 3), 4) + W(Bit(hi, 4), 8));
  }

  lemma NibbleFour(t: Transfer, b: seq<bool>)
    requires Fits(Unidir, t) && b == Bits(Unidir, t)
    ensures Number(Unidir, b[0..4]) == t.lo && Number(Unidir, b[4..8]) == t.hi
  {
    NibbleBits(t.lo);
    NibbleBits(t.hi);
  }

  lemma NibbleSix(t: Transfer, b: seq<bool>)
    requires Fits(Unidir, t) && b == Bits(Unidir, t)
    ensures Number(Unidir, b[0..6]) == t.lo * 4 + t.hi / 4
    ensures Number(Unidir, b[2..8]) == t.lo % 4 * 16 + t.hi
  {
    NibbleBits(t.lo);
    NibbleBits(t.hi);
  }

  lemma SavedSix(s: Transfer, t: Transfer, b: seq<bool>, d: seq<bool>)
    requires Fits(Unidir, s) && Fits(Unidir, t) && b == Bits(Unidir, s) && d == Bits(Unidir, t)
    ensures Number(Unidir, b[6..] + d[..4]) == t.lo + s.hi % 4 * 16
    ensures Number(Unidir, b[4..] + d[..2]) == t.lo / 4 + s.hi * 4
  {
    NibbleBits(s.hi);
    NibbleBits(t.lo);
  }

  function FourPixels(lo: nat, hi: nat): seq<int> { [lo % 16, lo / 16 + hi % 2 * 8, hi / 2] }

  function SixPixels(lo: nat, hi: nat): seq<int> { [lo % 64, lo / 64 + hi * 2] }

  lemma WordFour(lo: nat, hi: nat, w: seq<bool>)
    requires lo < 128 && hi < 32 && w == Word(lo, hi)
    ensures Number(Bidir, w[0..4]) == lo % 16 && Number(Bidir, w[4..8]) == lo / 16 + hi % 2 * 8
    ensures Number(Bidir, w[8..12]) == hi / 2
  {
    WordBits(lo, hi);
  }

  lemma WordSix(lo: nat, hi: nat, w: seq<bool>)
    requires lo < 128 && hi < 32 && w == Word(lo, hi)
    ensures Number(Bidir, w[0..6]) == lo % 64 && Number(Bidir, w[6..12]) == lo / 64 + hi * 2
  {
    WordSixLow(lo, hi, w, w[0..6]);
    WordSixHigh(lo, hi, w, w[6..12]);
  }

  lemma WordSixLow(lo: nat, hi: nat, w: seq<bool>, g: seq<bool>)
    requires lo < 128 && hi < 32 && w == Word(lo, hi) && g == w[0..6]
    ensures Number(Bidir, g) == lo % 64
  {
    WordBits(lo, hi);
  }

  lemma WordSixHigh(lo: nat, hi: nat, w: seq<bool>, g: seq<bool>)
    requires lo < 128 && hi < 32 && w == Word(lo, hi) && g == w[6..12]
    ensures Number(Bidir, g) == lo / 64 + hi * 2
  {
    WordBits(lo, hi);
    Doubled(hi, W(Bit(hi, 0), 1), W(Bit(hi, 1), 1), W(Bit(hi, 2), 2), W(Bit(hi, 3), 4), W(Bit(hi, 4), 8));
  }

  // ----------------------------------------------------- what a transfer brings

  lemma UnidirFour(c: Config, input: seq<Transfer>, rows: seq<seq<bool>>, base: nat, j: nat)
    requires c.port.Unidir? && c.bpp == 4 && c.Valid()
    requires Unpacked(c.port, input, rows) && base + j < |input|
    ensures ShowsAll(c, rows, base, 2 * j, [input[base + j].lo, input[base + j].hi])
  {
    GroupIn(c.port, rows, base, 4 * (2 * j), 4, j, 0);
    GroupIn(c.port, rows, base, 4 * (2 * j + 1), 4, j, 4);
    assert UnpackedAt(c.port, input, rows, base + j);
    NibbleFour(input[base + j], rows[base + j]);
    TwoShown(c, rows, base, 2 * j, input[base + j].lo, input[base + j].hi);
  }

  function Lo(t: Transfer, half: int): nat { if half == 0 then t.lo else t.lo2 }

  function Hi(t: Transfer, half: int): nat { if half == 0 then t.hi else t.hi2 }

  /** A stretch of one word of a transfer. */
  lemma WordIn(t: Transfer, half: int, b: seq<bool>, w: seq<bool>, r: nat, len: nat)
    requires (half == 0 || half == 1) && b == Bits(Bidir, t) && w == Word(Lo(t, half), Hi(t, half)) && r + len <= 12
    ensures b[12 * half + r..12 * half + r + len] == w[r..r + len]
  {
    assert b == Word(t.lo, t.hi) + Word(t.lo2, t.hi2);
  }

  /** A group within a word. */
  lemma GroupInWord(c: Config, input: seq<Transfer>, rows: seq<seq<bool>>, base: nat, x: nat, j: nat, half: int, r: nat,
                    w: seq<bool>, v: int)
    requires c.port.Bidir? && c.Valid() && (half == 0 || half == 1)
    requires Unpacked(c.port, input, rows) && base + j < |input| && r + c.bpp <= 12
    requires (if c.bpp == 4 then 4 * x else 6 * x) == 24 * j + 12 * half + r
    requires w == Word(Lo(input[base + j], half), Hi(input[base + j], half)) && v == Number(Bidir, w[r..r + c.bpp])
    ensures Shows(c, rows, base, x, v)
  {
    GroupIn(c.port, rows, base, if c.bpp == 4 then 4 * x else 6 * x, c.bpp, j, 12 * half + r);
    assert UnpackedAt(c.port, input, rows, base + j);
    WordIn(input[base + j], half, rows[base + j], w, r, c.bpp);
  }

  lemma FourAre(lo: nat, hi: nat, p0: int, p1: int, p2: int)
    requires p0 == lo % 16 && p1 == lo / 16 + hi % 2 * 8 && p2 == hi / 2
    ensures [p0] + [p1, p2] == FourPixels(lo, hi)
  {
  }

  lemma SixAre(lo: nat, hi: nat, p0: int, p1: int)
    requires p0 == lo % 64 && p1 == lo / 64 + hi * 2
    ensures [p0, p1] == SixPixels(lo, hi)
  {
  }

  lemma ThreeShown(c: Config, rows: seq<seq<bool>>, base: nat, x: nat, p0: int, p1: int, p2: int)
    requires c.Valid() && Rows(c.port, rows)
    requires Shows(c, rows, base, x, p0) && Shows(c, rows, base, x + 1, p1) && Shows(c, rows, base, x + 2, p2)
    ensures ShowsAll(c, rows, base, x, [p0] + [p1, p2])
  {
    OneShown(c, rows, base, x, p0);
    TwoShown(c, rows, base, x + 1, p1, p2);
    MoreShown(c, rows, base, x, [p0], [p1, p2]);
  }

  lemma BidirFourHalf(c: Config, input: seq<Transfer>, rows: seq<seq<bool>>, base: nat, j: nat, half: int, w: seq<bool>,
                      p0: int, p1: int, p2: int)
    requires c.port.Bidir? && c.bpp == 4 && c.Valid() && (half == 0 || half == 1)
    requires Unpacked(c.port, input, rows) && base + j < |input|
    requires w == Word(Lo(input[base + j], half), Hi(input[base + j], half))
    requires p0 == Number(Bidir, w[0..4]) && p1 == Number(Bidir, w[4..8]) && p2 == Number(Bidir, w[8..12])
    ensures ShowsAll(c, rows, base, 6 * j + 3 * half, [p0] + [p1, p2])
  {
    var x := 6 * j + 3 * half;
    GroupInWord(c, input, rows, base, x, j, half, 0, w, p0);
    GroupInWord(c, input, rows, base, x + 1, j, half, 4, w, p1);
    GroupInWord(c, input, rows, base, x + 2, j, half, 8, w, p2);
    ThreeShown(c, rows, base, x, p0, p1, p2);
  }

  lemma BidirSixHalf(c: Config, input: seq<Transfer>, rows: seq<seq<bool>>, base: nat, j: nat, half: int, w: seq<bool>)
    requires c.port.Bidir? && c.bpp == 6 && c.Valid() && (half == 0 || half == 1)
    requires Unpacked(c.port, input, rows) && base + j < |input|
    requires w == Word(Lo(input[base + j], half), Hi(input[base + j], half))
    ensures ShowsAll(c, rows, base, 4 * j + 2 * half, [Number(Bidir, w[0..6]), Number(Bidir, w[6..12])])
  {
    var x, p0, p1 := 4 * j + 2 * half, Number(Bidir, w[0..6]), Number(Bidir, w[6..12]);
    GroupInWord(c, input, rows, base, x, j, half, 0, w, p0);
    GroupInWord(c, input, rows, base, x + 1, j, half, 6, w, p1);
    TwoShown(c, rows, base, x, p0, p1);
  }

  /** One word of a transfer in two directions: three pixels of four bits or two of six. */
  lemma BidirHalf(c: Config, input: seq<Transfer>, rows: seq<seq<bool>>, base: nat, j: nat, half: int, lo: nat, hi: nat)
    requires c.port.Bidir? && c.Valid() && (half == 0 || half == 1)
    requires Unpacked(c.port, input, rows) && base + j < |input|
    requires lo == Lo(input[base + j], half) && hi == Hi(input[base + j], half)
    ensures c.bpp == 4 ==> ShowsAll(c, rows, base, 6 * j + 3 * half, FourPixels(lo, hi))
    ensures c.bpp == 6 ==> ShowsAll(c, rows, base, 4 * j + 2 * half, SixPixels(lo, hi))
  {
    var w := Word(lo, hi);
    assert UnpackedAt(c.port, input, rows, base + j);
    if c.bpp == 4 {
      var p0, p1, p2 := Number(Bidir, w[0..4]), Number(Bidir, w[4..8]), Number(Bidir, w[8..12]);
      BidirFourHalf(c, input, rows, base, j, half, w, p0, p1, p2);
      WordFour(lo, hi, w);
      FourAre(lo, hi, p0, p1, p2);
    } else {
      BidirSixHalf(c, input, rows, base, j, half, w);
      WordSix(lo, hi, w);
      SixAre(lo, hi, Number(Bidir, w[0..6]), Number(Bidir, w[6..12]));
    }
  }

  /** What a transfer brings that holds whole pixels. */
  function Brought(c: Config, t: Transfer): seq<int> {
    if c.port.Unidir? then [t.lo, t.hi]
    else if c.bpp == 4 then FourPixels(t.lo, t.hi) + FourPixels(t.lo2, t.hi2)
    else SixPixels(t.lo, t.hi) + SixPixels(t.lo2, t.hi2)
  }

  /** A transfer in two directions brings six pixels of four bits or four of six. */
  lemma BidirBoth(c: Config, input: seq<Transfer>, rows: seq<seq<bool>>, base: nat, j: nat)
    requires c.port.Bidir? && c.Valid() && Unpacked(c.port, input, rows) && base + j < |input|
    ensures var t := input[base + j];
      ShowsAll(c, rows, base, c.PixelsAfter(j), Brought(c, t))
  {
    var t := input[base + j];
    BidirHalf(c, input, rows, base, j, 0, t.lo, t.hi);
    BidirHalf(c, input, rows, base, j, 1, t.lo2, t.hi2);
    if c.bpp == 4 {
      MoreShown(c, rows, base, 6 * j, FourPixels(t.lo, t.hi), FourPixels(t.lo2, t.hi2));
    } else {
      MoreShown(c, rows, base, 4 * j, SixPixels(t.lo, t.hi), SixPixels(t.lo2, t.hi2));
    }
  }

  lemma BroughtShown(c: Config, input: seq<Transfer>, rows: seq<seq<bool>>, base: nat, j: nat)
    requires c.Valid() && Unpacked(c.port, input, rows) && base + j < |input| && (c.port.Bidir? || c.bpp == 4)
    ensures ShowsAll(c, rows, base, c.PixelsAfter(j), Brought(c, input[base + j]))
    ensures c.PixelsAfter(j + 1) == c.PixelsAfter(j) + |Brought(c, input[base + j])|
  {
    if c.port.Bidir? {
      BidirBoth(c, input, rows, base, j);
    } else {
      UnidirFour(c, input, rows, base, j);
    }
  }

  /** Three transfers in one direction bring four pixels of six bits: the first
      brings one and two bits of the second, ... */
  lemma UnidirSixFirst(c: Config, input: seq<Transfer>, rows: seq<seq<bool>>, base: nat, q: nat)
    requires c.port.Unidir? && c.bpp == 6 && c.Valid()
    requires Unpacked(c.port, input, rows) && base + 3 * q < |input|
    ensures var t := input[base + 3 * q]; ShowsAll(c, rows, base, 4 * q, [t.lo * 4 + t.hi / 4])
  {
    GroupIn(c.port, rows, base, 6 * (4 * q), 6, 3 * q, 0);
    assert UnpackedAt(c.port, input, rows, base + 3 * q);
    NibbleSix(input[base + 3 * q], rows[base + 3 * q]);
    OneShown(c, rows, base, 4 * q, Number(Unidir, rows[base + 3 * q][0..6]));
  }

  /** ... the second the rest of it and four bits of the third, ... */
  lemma UnidirSixSecond(c: Config, input: seq<Transfer>, rows: seq<seq<bool>>, base: nat, q: nat)
    requires c.port.Unidir? && c.bpp == 6 && c.Valid()
    requires Unpacked(c.port, input, rows) && base + 3 * q + 1 < |input|
    ensures var s, t := input[base + 3 * q], input[base + 3 * q + 1];
      ShowsAll(c, rows, base, 4 * q + 1, [t.lo + s.hi % 4 * 16])
  {
    GroupAcross(rows, base, 6 * (4 * q + 1), 6, 3 * q, 6);
    assert UnpackedAt(c.port, input, rows, base + 3 * q) && UnpackedAt(c.port, input, rows, base + 3 * q + 1);
    SavedSix(input[base + 3 * q], input[base + 3 * q + 1], rows[base + 3 * q], rows[base + 3 * q + 1]);
    OneShown(c, rows, base, 4 * q + 1, Number(Unidir, rows[base + 3 * q][6..] + rows[base + 3 * q + 1][..4]));
  }

  /** ... and the last one the rest of that and a fourth. */
  lemma UnidirSixThird(c: Config, input: seq<Transfer>, rows: seq<seq<bool>>, base: nat, q: nat)
    requires c.port.Unidir? && c.bpp == 6 && c.Valid()
    requires Unpacked(c.port, input, rows) && base + 3 * q + 2 < |input|
    ensures var s, t := input[base + 3 * q + 1], input[base + 3 * q + 2];
      ShowsAll(c, rows, base, 4 * q + 2, [t.lo / 4 + s.hi * 4, t.lo % 4 * 16 + t.hi])
  {
    var b, d := rows[base + 3 * q + 1], rows[base + 3 * q + 2];
    assert UnpackedAt(c.port, input, rows, base + 3 * q + 1) && UnpackedAt(c.port, input, rows, base + 3 * q + 2);
    LastTwo(c, rows, base, q, b, d, Number(Unidir, b[4..] + d[..2]), Number(Unidir, d[2..8]));
    SavedSix(input[base + 3 * q + 1], input[base + 3 * q + 2], b, d);
    NibbleSix(input[base + 3 * q + 2], d);
  }

  lemma LastTwo(c: Config, rows: seq<seq<bool>>, base: nat, q: nat, b: seq<bool>, d: seq<bool>, p0: int, p1: int)
    requires c.port.Unidir? && c.bpp == 6 && c.Valid() && Rows(c.port, rows) && base + 3 * q + 2 < |rows|
    requires b == rows[base + 3 * q + 1] && d == rows[base + 3 * q + 2]
    requires p0 == Number(Unidir, b[4..] + d[..2]) && p1 == Number(Unidir, d[2..8])
    ensures ShowsAll(c, rows, base, 4 * q + 2, [p0, p1])
  {
    LastButOne(c, rows, base, q, b, d, p0);
    LastOne(c, rows, base, q, d, p1);
    TwoShown(c, rows, base, 4 * q + 2, p0, p1);
  }

  lemma LastButOne(c: Config, rows: seq<seq<bool>>, base: nat, q: nat, b: seq<bool>, d: seq<bool>, p: int)
    requires c.port.Unidir? && c.bpp == 6 && c.Valid() && Rows(c.port, rows) && base + 3 * q + 2 < |rows|
    requires b == rows[base + 3 * q + 1] && d == rows[base + 3 * q + 2] && p == Number(Unidir, b[4..] + d[..2])
    ensures Shows(c, rows, base, 4 * q + 2, p)
  {
    GroupAcross(rows, base, 6 * (4 * q + 2), 6, 3 * q + 1, 4);
  }

  lemma LastOne(c: Config, rows: seq<seq<bool>>, base: nat, q: nat, d: seq<bool>, p: int)
    requires c.port.Unidir? && c.bpp == 6 && c.Valid() && Rows(c.port, rows) && base + 3 * q + 2 < |rows|
    requires d == rows[base + 3 * q + 2] && p == Number(Unidir, d[2..8])
    ensures Shows(c, rows, base, 4 * q + 3, p)
  {
    GroupIn(c.port, rows, base, 6 * (4 * q + 3), 6, 3 * q + 2, 2);
  }

  function SixBrought(state: int, saved: int, t: Transfer): seq<int> {
    if state == 0 then [t.lo * 4 + t.hi / 4]
    else if state == 1 then [t.lo + saved]
    else [t.lo / 4 + saved, t.lo % 4 * 16 + t.hi]
  }

  predicate SavedIs(state: int, saved: int, s: Transfer) {
    (state == 1 ==> saved == s.hi % 4 * 16) && (state == 2 ==> saved == s.hi * 4)
  }

  lemma UnidirSix(c: Config, input: seq<Transfer>, rows: seq<seq<bool>>, base: nat, q: nat, state: nat, saved: int)
    requires c.port.Unidir? && c.bpp == 6 && c.Valid() && state < 3
    requires Unpacked(c.port, input, rows) && base + 3 * q + state < |input|
    requires state > 0 ==> SavedIs(state, saved, input[base + 3 * q + state - 1])
    ensures ShowsAll(c, rows, base, 4 * q + state, SixBrought(state, saved, input[base + 3 * q + state]))
  {
    if state == 0 {
      UnidirSixFirst(c, input, rows, base, q);
    } else if state == 1 {
      UnidirSixSecond(c, input, rows, base, q);
    } else {
      UnidirSixThird(c, input, rows, base, q);
    }
  }

  // ---------------------------------------------------------- how much arrives

  /** The transfers of a line, rounded up as they are, always cover it. */
  lemma LineIsCovered(c: Config)
    requires c.Valid()
    ensures c.PixelsAfter(c.TransPerLine()) >= c.PixelsPerLine()
  {
    var w, t := c.width, c.TransPerLine();
    assert c.width * c.bpp == if c.bpp == 4 then 4 * w else 6 * w;
    assert t * c.Divisor() >= c.width * c.bpp by {
      CeilCovers(c.width * c.bpp, c.Divisor());
    }
    assert t * c.Divisor() == TimesDivisor(c, t) by {
      assert c.Divisor() == 8 || c.Divisor() == 16 || c.Divisor() == 32 || c.Divisor() == 24 || c.Divisor() == 48
             || c.Divisor() == 96;
    }
  }

  /** The bits of the line's last transfer that its pixels leave over. */
  function LeftOver(c: Config): nat
    requires c.Valid()
  {
    var used := c.PixelsPerLine() * c.bpp % Width(c.port);
    if used == 0 then 0 else Width(c.port) - used
  }

  /** One transfer fewer brings fewer pixels than the line has, if and only if the
      columns scaling cuts off need no more bits than the last transfer has left. */
  lemma NoneToSpareIff(c: Config)
    requires c.Valid() && c.width > 0
    ensures c.TransPerLine() > 0
    ensures c.PixelsAfter(c.TransPerLine() - 1) < c.PixelsPerLine()
            <==> c.width % c.scale * c.bpp <= LeftOver(c) * c.scale
  {
    var n, extra, t := c.PixelsPerLine() * c.bpp, c.width % c.scale * c.bpp, c.TransPerLine();
    BitsOf(c, n, extra);
    TransTight(c, t);
    var m := LastTransfer(c, n);
    SpareIff(n, Width(c.port), c.scale, extra, t, m, LeftOver(c));
    FewerPixels(c, t - 1, c.PixelsPerLine());
  }

  /** The bits of a line at full width: those of its pixels, and of what is cut off. */
  lemma BitsOf(c: Config, n: int, extra: int)
    requires c.Valid() && n == c.PixelsPerLine() * c.bpp && extra == c.width % c.scale * c.bpp
    ensures c.width * c.bpp == c.scale * n + extra && n >= 0 && extra >= 0
  {
    var x, r := c.PixelsPerLine(), c.width % c.scale;
    assert c.width == c.scale * x + r;
    if c.bpp == 4 {
      assert c.width * 4 == c.scale * (x * 4) + r * 4;
    } else {
      assert c.width * 6 == c.scale * (x * 6) + r * 6;
    }
  }

  /** The transfers are as many as the full width needs, and no more. */
  lemma TransTight(c: Config, t: nat)
    requires c.Valid() && c.width > 0 && t == c.TransPerLine()
    ensures t > 0 && c.scale * (Width(c.port) * (t - 1)) < c.width * c.bpp <= c.scale * (Width(c.port) * t)
  {
    CeilTight(c.width * c.bpp, c.Divisor());
    InUnits(c, t);
    InUnits(c, t - 1);
  }

  lemma InUnits(c: Config, t: int)
    requires c.Valid()
    ensures t * c.Divisor() == c.scale * (Width(c.port) * t)
  {
    var d := TimesDivisor(c, t);
    assert c.scale * (Width(c.port) * t) == d;
    assert t * c.Divisor() == d;
  }

  lemma LastTransfer(c: Config, n: int) returns (m: int)
    requires c.Valid() && n == c.PixelsPerLine() * c.bpp
    ensures n + LeftOver(c) == Width(c.port) * m && LeftOver(c) < Width(c.port)
  {
    m := if LeftOver(c) == 0 then n / Width(c.port) else n / Width(c.port) + 1;
  }

  lemma FewerPixels(c: Config, j: nat, x: nat)
    requires c.Valid()
    ensures c.PixelsAfter(j) < x <==> Width(c.port) * j < x * c.bpp
  {
  }

  lemma CeilTight(a: nat, d: int)
    requires d > 0
    ensures var q := (a + d - 1) / d; (q - 1) * d < a <= q * d && (a > 0 ==> q > 0)
  {
    var q := (a + d - 1) / d;
    assert a + d - 1 == d * q + (a + d - 1) % d;
    assert (q - 1) * d == q * d - d;
    assert a > 0 ==> (a + d - 1) / d >= 1;
  }

  lemma SpareIff(n: nat, u: int, s: int, extra: nat, t: int, m: int, left: nat)
    requires u > 0 && s > 0 && n + left == u * m && left < u
    requires s * (u * (t - 1)) < s * n + extra <= s * (u * t)
    ensures u * (t - 1) < n <==> extra <= left * s
  {
    MulSum(s, n, left);
    if t <= m {
      MulMonotone(u, t, m);
      MulMonotone(s, u * t, n + left);
      MulSum(u, t, -1);
    } else {
      MulMonotone(u, m, t - 1);
      MulMonotone(s, n + left, u * (t - 1));
    }
  }

  /** The smallest configuration with a transfer to spare: five columns at half the
      size, two pixels a line, two transfers of two. */
  lemma OneToSpare()
    ensures var c := Config(Unidir, 4, 2, 5, 2);
      c.Valid() && c.PixelsPerLine() == 2 && c.TransPerLine() == 2 && c.PixelsAfter(1) == 2
  {
  }

  function TimesDivisor(c: Config, t: int): int {
    if c.port.Bidir? then (if c.scale == 1 then 24 * t else if c.scale == 2 then 48 * t else 96 * t)
    else (if c.scale == 1 then 8 * t else if c.scale == 2 then 16 * t else 32 * t)
  }

  lemma CeilCovers(a: int, d: int)
    requires d > 0
    ensures (a + d - 1) / d * d >= a
  {
    var q := (a + d - 1) / d;
    assert a + d - 1 == d * q + (a + d - 1) % d;
  }

  // ------------------------------------------------------------ the functions

  /** How a group of bits is shown: inverted, zero counting as sixteen at four bits,
      in the upper bits of a byte. */
  function Shade(bpp: int, v: int): int {
    if bpp == 4 then (16 - (if v == 0 then 16 else v)) * 16 else (63 - v) * 4
  }

  /** Shading is a negative: a larger number is a smaller byte, where zero at four
      bits counts as the largest.  The levels are the multiples of 16 or 4 up to the
      last one within a byte. */
  lemma ShadeReverses(bpp: int, v: int, w: int)
    requires (bpp == 4 && 0 <= v < 16 && 0 <= w < 16) || (bpp == 6 && 0 <= v < 64 && 0 <= w < 64)
    ensures 0 <= Shade(bpp, v) <= 255 && Shade(bpp, v) % (if bpp == 4 then 16 else 4) == 0
    ensures bpp == 6 || (v > 0 && w > 0) ==> (v < w <==> Shade(bpp, w) < Shade(bpp, v))
    ensures bpp == 4 && w > 0 ==> Shade(bpp, 0) < Shade(bpp, w)
    ensures Shade(bpp, if bpp == 4 then 1 else 0) + (if bpp == 4 then 16 else 4) == 256
  {
  }

  /** Byte b shows pixel x of a line. */
  predicate Displays(c: Config, rows: seq<seq<bool>>, base: nat, x: nat, b: int)
    requires c.Valid() && Rows(c.port, rows)
  {
    var n := if c.bpp == 4 then 4 * x else 6 * x;
    Arrived(c.port, rows, base, n, c.bpp) && b == Shade(c.bpp, Number(c.port, Group(c.port, rows, base, n, c.bpp)))
  }

  /** The bytes from row on, as far as there are any, show the first pixels of the
      line whose transfers start at base. */
  predicate LineShown(c: Config, rows: seq<seq<bool>>, base: nat, s: seq<int>, row: nat, pixels: nat)
    requires c.Valid() && Rows(c.port, rows)
  {
    forall o {:trigger s[o]} | row <= o < row + pixels && o < |s| :: Displays(c, rows, base, o - row, s[o])
  }

  predicate SameBelow(s: seq<int>, t: seq<int>, bound: nat) {
    |s| == |t| && forall o | 0 <= o < bound && o < |s| :: t[o] == s[o]
  }

  lemma LineKept(c: Config, rows: seq<seq<bool>>, base: nat, s: seq<int>, t: seq<int>, row: nat, pixels: nat, bound: nat)
    requires c.Valid() && Rows(c.port, rows) && LineShown(c, rows, base, s, row, pixels)
    requires SameBelow(s, t, bound) && row + pixels <= bound
    ensures LineShown(c, rows, base, t, row, pixels)
  {
    forall o {:trigger t[o]} | row <= o < row + pixels && o < |t|
      ensures Displays(c, rows, base, o - row, t[o])
    {
      assert t[o] == s[o];
    }
  }

  /** What one transfer's pixels do to the frame. */
  predicate Placed(c: Config, s: seq<int>, t: seq<int>, row: nat, x: nat, p: seq<int>)
    requires c.Valid()
  {
    && |s| == |t|
    && (forall o | 0 <= o < |s| && !(row + x <= o < row + Min(x + |p|, c.PixelsPerLine())) :: t[o] == s[o])
    && forall o | row + x <= o < row + Min(x + |p|, c.PixelsPerLine()) && o < |s| :: t[o] == Shade(c.bpp, p[o - row - x])
  }

  lemma LineExtended(c: Config, rows: seq<seq<bool>>, base: nat, s: seq<int>, t: seq<int>, row: nat, x: nat, p: seq<int>)
    requires c.Valid() && Rows(c.port, rows) && Placed(c, s, t, row, x, p) && ShowsAll(c, rows, base, x, p)
    requires LineShown(c, rows, base, s, row, Min(x, c.PixelsPerLine()))
    ensures LineShown(c, rows, base, t, row, Min(x + |p|, c.PixelsPerLine()))
  {
    var m := Min(x + |p|, c.PixelsPerLine());
    forall o {:trigger t[o]} | row <= o < row + m && o < |t|
      ensures Displays(c, rows, base, o - row, t[o])
    {
      if o < row + x {
        assert t[o] == s[o];
      } else {
        var k := o - row - x;
        assert Shows(c, rows, base, x + k, p[k]);
      }
    }
  }

  /** Where line i starts, with so many to a line: at i times perLine. */
  function Start(i: nat, perLine: nat): nat { if i == 0 then 0 else Start(i - 1, perLine) + perLine }

  /** The frame shows line l of a scan whose transfers start at base. */
  predicate LineOfFrame(c: Config, rows: seq<seq<bool>>, base: nat, s: seq<int>, l: nat, trans: nat, ppl: nat)
    requires c.Valid() && Rows(c.port, rows)
  {
    LineShown(c, rows, base + Start(l, trans), s, Start(l, ppl), ppl)
  }

  /** The frame shows the first lines of it. */
  predicate FrameShown(c: Config, rows: seq<seq<bool>>, base: nat, s: seq<int>, lines: nat, trans: nat, ppl: nat)
    requires c.Valid() && Rows(c.port, rows)
  {
    forall l | 0 <= l < lines :: LineOfFrame(c, rows, base, s, l, trans, ppl)
  }

  lemma EarlierLineKept(c: Config, rows: seq<seq<bool>>, base: nat, s: seq<int>, t: seq<int>, lines: nat, trans: nat,
                        ppl: nat, l: nat)
    requires c.Valid() && Rows(c.port, rows) && FrameShown(c, rows, base, s, lines, trans, ppl) && l < lines
    requires SameBelow(s, t, Start(lines, ppl))
    ensures LineOfFrame(c, rows, base, t, l, trans, ppl)
  {
    assert LineOfFrame(c, rows, base, s, l, trans, ppl);
    StartRises(l, lines, ppl);
    LineKept(c, rows, base + Start(l, trans), s, t, Start(l, ppl), ppl, Start(lines, ppl));
  }

  lemma FrameExtended(c: Config, rows: seq<seq<bool>>, base: nat, s: seq<int>, t: seq<int>, lines: nat, trans: nat,
                      ppl: nat)
    requires c.Valid() && Rows(c.port, rows) && FrameShown(c, rows, base, s, lines, trans, ppl)
    requires SameBelow(s, t, Start(lines, ppl))
    requires LineShown(c, rows, base + Start(lines, trans), t, Start(lines, ppl), ppl)
    ensures FrameShown(c, rows, base, t, lines + 1, trans, ppl)
  {
    forall l | 0 <= l < lines + 1
      ensures LineOfFrame(c, rows, base, t, l, trans, ppl)
    {
      if l < lines {
        EarlierLineKept(c, rows, base, s, t, lines, trans, ppl, l);
      }
    }
  }

  lemma {:induction false} StartIs(i: nat, perLine: nat)
    ensures Start(i, perLine) == i * perLine
  {
    if i > 0 {
      StartIs(i - 1, perLine);
    }
  }

  lemma {:induction false} StartRises(i: nat, j: nat, perLine: nat)
    requires i < j
    ensures Start(i, perLine) + perLine <= Start(j, perLine)
    decreases j
  {
    if i + 1 < j {
      StartRises(i, j - 1, perLine);
    }
  }

  class Qcam {
    const c: Config
    const input: seq<Transfer>
    var pos: nat
    var state: int
    var saved: int

    constructor (c: Config, input: seq<Transfer>)
      ensures this.c == c && this.input == input && pos == 0 && state == 0
    {
      this.c, this.input, pos, state, saved := c, input, 0, 0, 0;
    }

    /** The unpacker's own state in the middle of a line that started at base. */
    predicate Midline(base: nat)
      reads this
    {
      && base <= pos <= |input| && state == (if c.port.Unidir? && c.bpp == 6 then (pos - base) % 3 else 0)
      && (state > 0 ==> SavedIs(state, saved, input[pos - 1]))
    }

    /** The modes in which each transfer holds whole pixels. */
    method ReadWhole(t: Transfer, buffer: array<int>) returns (ret: nat)
      requires c.Valid() && buffer.Length == 6 && (c.port.Bidir? || c.bpp == 4)
      modifies buffer
      ensures ret <= 6 && buffer[..ret] == Brought(c, t) && ret == |Brought(c, t)|
    {
      if c.port.Bidir? {
        if c.bpp == 4 {
          ret := BidirFourPixels(t, buffer);
        } else {
          ret := BidirSixPixels(t, buffer);
        }
      } else {
        buffer[0] := t.lo;
        buffer[1] := t.hi;
        ret := 2;
      }
    }

    /** qc_readbytes: the pixels one more transfer completes. */
    method ReadBytes(buffer: array<int>, ghost rows: seq<seq<bool>>, ghost base: nat) returns (ret: nat)
      requires c.Valid() && buffer.Length == 6 && Unpacked(c.port, input, rows) && Midline(base) && pos < |input|
      modifies this`pos, this`state, this`saved, buffer
      ensures Midline(base) && pos == old(pos) + 1 && ret <= 6
      ensures ret == c.PixelsAfter(pos - base) - c.PixelsAfter(old(pos) - base)
      ensures ShowsAll(c, rows, base, c.PixelsAfter(old(pos) - base), buffer[..ret])
    {
      ghost var j := pos - base;
      ghost var x := c.PixelsAfter(j);
      if c.port.Bidir? || c.bpp == 4 {
        BroughtShown(c, input, rows, base, j);
        ghost var p := Brought(c, input[pos]);
        ret := ReadWhole(input[pos], buffer);
        pos := pos + 1;
        SameShown(c, rows, base, x, p, buffer[..ret]);
      } else {
        ghost var q := j / 3;
        Thirds(c, j, q, state);
        ret := UnidirSixPixels(buffer, rows, base, q, x);
      }
    }

    static method BidirFourPixels(t: Transfer, buffer: array<int>) returns (ret: nat)
      requires buffer.Length == 6
      modifies buffer
      ensures ret == 6 && buffer[..ret] == FourPixels(t.lo, t.hi) + FourPixels(t.lo2, t.hi2)
    {
      buffer[0] := t.lo % 16;
      buffer[1] := t.lo / 16 + t.hi % 2 * 8;
      buffer[2] := t.hi / 2;
      buffer[3] := t.lo2 % 16;
      buffer[4] := t.lo2 / 16 + t.hi2 % 2 * 8;
      buffer[5] := t.hi2 / 2;
      ret := 6;
    }

    static method BidirSixPixels(t: Transfer, buffer: array<int>) returns (ret: nat)
      requires buffer.Length == 6
      modifies buffer
      ensures ret == 4 && buffer[..ret] == SixPixels(t.lo, t.hi) + SixPixels(t.lo2, t.hi2)
    {
      buffer[0] := t.lo % 64;
      buffer[1] := t.lo / 64 + t.hi * 2;
      buffer[2] := t.lo2 % 64;
      buffer[3] := t.lo2 / 64 + t.hi2 * 2;
      ret := 4;
    }

    /** The states of the six-bit unpacker. */
    method SixPixelsStep(t: Transfer, buffer: array<int>) returns (ret: nat)
      requires buffer.Length == 6 && 0 <= state < 3
      modifies this`state, this`saved, buffer
      ensures ret == (if old(state) == 2 then 2 else 1) && buffer[..ret] == SixBrought(old(state), old(saved), t)
      ensures state == (if old(state) == 2 then 0 else old(state) + 1) && SavedIs(state, saved, t)
    {
      ghost var p := SixBrought(state, saved, t);
      ret := 1;
      if state == 0 {
        buffer[0] := t.lo * 4 + t.hi / 4;
        assert buffer[..1] == [buffer[0]] && p == [buffer[0]];
        saved := t.hi % 4 * 16;
        state := 1;
      } else if state == 1 {
        buffer[0] := t.lo + saved;
        assert buffer[..1] == [buffer[0]] && p == [buffer[0]];
        saved := t.hi * 4;
        state := 2;
      } else {
        buffer[0] := t.lo / 4 + saved;
        buffer[1] := t.lo % 4 * 16 + t.hi;
        assert buffer[..2] == [buffer[0], buffer[1]] && p == [buffer[0], buffer[1]];
        state := 0;
        ret := 2;
      }
    }

    method UnidirSixPixels(buffer: array<int>, ghost rows: seq<seq<bool>>, ghost base: nat, ghost q: nat, ghost x: nat)
      returns (ret: nat)
      requires c.Valid() && c.port.Unidir? && c.bpp == 6 && buffer.Length == 6 && Unpacked(c.port, input, rows)
      requires pos < |input| && 0 <= state < 3 && pos - base == 3 * q + state && x == 4 * q + state
      requires state > 0 ==> SavedIs(state, saved, input[pos - 1])
      modifies this`pos, this`state, this`saved, buffer
      ensures pos == old(pos) + 1 && ret == (if old(state) == 2 then 2 else 1)
      ensures state == (if old(state) == 2 then 0 else old(state) + 1) && SavedIs(state, saved, input[pos - 1])
      ensures ShowsAll(c, rows, base, x, buffer[..ret])
    {
      ghost var p := SixBrought(state, saved, input[pos]);
      UnidirSix(c, input, rows, base, q, state, saved);
      ret := SixPixelsStep(input[pos], buffer);
      pos := pos + 1;
      SameShown(c, rows, base, x, p, buffer[..ret]);
    }

    /** The innermost loop of qc_capture: the pixels of one transfer into the frame. */
    method Place(out: array<int>, buffer: array<int>, bytes: nat, row: nat, pixelsRead: nat, got0: nat)
      returns (got: nat)
      requires c.Valid() && bytes <= buffer.Length && out != buffer
      requires got0 == Min(out.Length, row + Min(pixelsRead, c.PixelsPerLine()))
      modifies out, buffer
      ensures Placed(c, old(out[..]), out[..], row, pixelsRead, old(buffer[..bytes]))
      ensures got == Min(out.Length, row + Min(pixelsRead + bytes, c.PixelsPerLine()))
    {
      var invert := if c.bpp == 4 then 16 else 63;
      got := got0;
      var k := 0;
      ghost var ppl := c.PixelsPerLine();
      while k < bytes && pixelsRead + k < c.PixelsPerLine()
        invariant 0 <= k <= bytes && (k == 0 || pixelsRead + k <= ppl)
        invariant got == Min(out.Length, row + Min(pixelsRead + k, ppl))
        invariant forall m | k <= m < bytes :: buffer[m] == old(buffer[m])
        invariant forall o | 0 <= o < out.Length && !(row + pixelsRead <= o < row + pixelsRead + k) ::
                    out[o] == old(out[o])
        invariant forall o | row + pixelsRead <= o < row + pixelsRead + k && o < out.Length ::
                    out[o] == Shade(c.bpp, old(buffer[o - row - pixelsRead]))
      {
        if buffer[k] == 0 && invert == 16 {
          buffer[k] := 16;
        }
        var o := row + pixelsRead + k;
        if o < out.Length {
          assert got == o;
          got := got + 1;
          out[o] := (invert - buffer[k]) * (if c.bpp == 4 then 16 else 4);
        }
        k := k + 1;
      }
    }

    /** One transfer: its bytes are read and placed. */
    method PlaceTransfer(out: array<int>, buffer: array<int>, ghost rows: seq<seq<bool>>, ghost base: nat, row: nat,
                         pixelsRead0: nat, got0: nat)
      returns (pixelsRead: nat, got: nat)
      requires c.Valid() && buffer.Length == 6 && out != buffer && Unpacked(c.port, input, rows)
      requires Midline(base) && pos < |input| && pixelsRead0 == c.PixelsAfter(pos - base)
      requires got0 == Min(out.Length, row + Min(pixelsRead0, c.PixelsPerLine()))
      requires LineShown(c, rows, base, out[..], row, Min(pixelsRead0, c.PixelsPerLine()))
      modifies this`pos, this`state, this`saved, out, buffer
      ensures Midline(base) && pos == old(pos) + 1 && pixelsRead == c.PixelsAfter(pos - base)
      ensures got == Min(out.Length, row + Min(pixelsRead, c.PixelsPerLine()))
      ensures LineShown(c, rows, base, out[..], row, Min(pixelsRead, c.PixelsPerLine()))
      ensures forall o | 0 <= o < out.Length && !(row <= o < row + c.PixelsPerLine()) :: out[o] == old(out[o])
    {
      var bytes := ReadBytes(buffer, rows, base);
      ghost var s, p := out[..], buffer[..bytes];
      got := Place(out, buffer, bytes, row, pixelsRead0, got0);
      LineExtended(c, rows, base, s, out[..], row, pixelsRead0, p);
      pixelsRead := pixelsRead0 + bytes;
    }

    /** One line: its transfers, and the state machine put back. */
    method CaptureLine(out: array<int>, buffer: array<int>, ghost rows: seq<seq<bool>>, row: nat, got0: nat)
      returns (got: nat)
      requires c.Valid() && buffer.Length == 6 && out != buffer && Unpacked(c.port, input, rows) && state == 0
      requires pos + c.TransPerLine() <= |input| && got0 == Min(out.Length, row)
      modifies this`pos, this`state, this`saved, out, buffer
      ensures pos == old(pos) + c.TransPerLine() && state == 0
      ensures LineShown(c, rows, old(pos), out[..], row, c.PixelsPerLine())
      ensures forall o | 0 <= o < out.Length && !(row <= o < row + c.PixelsPerLine()) :: out[o] == old(out[o])
      ensures got == Min(out.Length, row + c.PixelsPerLine())
    {
      ghost var base := pos;
      var transPerLine := c.TransPerLine();
      var j, pixelsRead := 0, 0;
      got := got0;
      while j < transPerLine
        invariant 0 <= j <= transPerLine && pos == base + j && Midline(base) && pixelsRead == c.PixelsAfter(j)
        invariant got == Min(out.Length, row + Min(pixelsRead, c.PixelsPerLine()))
        invariant LineShown(c, rows, base, out[..], row, Min(pixelsRead, c.PixelsPerLine()))
        invariant forall o | 0 <= o < out.Length && !(row <= o < row + c.PixelsPerLine()) :: out[o] == old(out[o])
      {
        pixelsRead, got := PlaceTransfer(out, buffer, rows, base, row, pixelsRead, got);
        j := j + 1;
      }
      state := 0;
      LineIsCovered(c);
    }

    /** qc_capture.  The frame shows, line by line and as far as it is long enough,
        exactly the pixels the camera sent; what is behind the last line stays as it
        was, and the count of bytes written is returned. */
    method Capture(out: array<int>, ghost rows: seq<seq<bool>>) returns (ret: nat)
      requires c.Valid() && Unpacked(c.port, input, rows) && state == 0
      requires pos + Start(c.Lines(), c.TransPerLine()) <= |input|
      modifies this`pos, this`state, this`saved, out
      ensures ret == Min(out.Length, Start(c.Lines(), c.PixelsPerLine())) && state == 0
      ensures pos == old(pos) + Start(c.Lines(), c.TransPerLine())
      ensures FrameShown(c, rows, old(pos), out[..], c.Lines(), c.TransPerLine(), c.PixelsPerLine())
      ensures forall o | ret <= o < out.Length :: out[o] == old(out[o])
    {
      var buffer := new int[6];
      var lines, ppl := c.Lines(), c.PixelsPerLine();
      ghost var start, trans := pos, c.TransPerLine();
      var i, got := 0, 0;
      while i < lines
        invariant 0 <= i <= lines && state == 0 && pos == start + Start(i, trans)
        invariant got == Min(out.Length, Start(i, ppl))
        invariant FrameShown(c, rows, start, out[..], i, trans, ppl)
        invariant forall o | Start(i, ppl) <= o < out.Length :: out[o] == old(out[o])
      {
        StartIs(i, ppl);
        StartRises(i, lines, trans);
        ghost var s := out[..];
        got := CaptureLine(out, buffer, rows, i * ppl, got);
        FrameExtended(c, rows, start, s, out[..], i, trans, ppl);
        i := i + 1;
      }
      if got < out.Length {
        return got;
      }
      ret := out.Length;
    }
  }

  lemma Thirds(c: Config, j: nat, q: nat, r: nat)
    requires c.port.Unidir? && c.bpp == 6 && r < 3 && j == 3 * q + r
    ensures c.PixelsAfter(j) == 4 * q + r && j % 3 == r
    ensures c.PixelsAfter(j + 1) == (if r == 2 then 4 * q + 4 else 4 * q + r + 1)
    ensures (j + 1) % 3 == if r == 2 then 0 else r + 1
  {
  }
}
