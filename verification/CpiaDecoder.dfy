/** The frame decoder of the CPiA camera driver (video/cpia.c: parse_picture,
    yuvconvert, convert420, skipcount), for the palettes without colour
    arithmetic.  Buffers are byte sequences; an access outside one, which C
    leaves undefined, reads 0 and writes nothing. */
module CpiaDecoder {
  import opened Basics

  const MAGIC_0: Byte := 0x19
  const MAGIC_1: Byte := 0x68
  const EOI: Byte := 0xff
  const EOL: Byte := 0xfd
  const FRAME_HEADER_SIZE: int := 64
  const MAX_FRAME_SIZE: int := 352 * 288 * 4

  datatype Palette = Grey | Yuyv | Uyvy

  /** The region of interest the driver has asked for. */
  datatype Roi = Roi(colStart: Byte, colEnd: Byte, rowStart: Byte, rowEnd: Byte)

  function Peek(s: seq<Byte>, k: int): Byte {
    if 0 <= k < |s| then s[k] else 0
  }

  function Poke(s: seq<Byte>, k: int, v: Byte): (r: seq<Byte>)
    ensures |r| == |s|
  {
    if 0 <= k < |s| then s[k := v] else s
  }

  /** Bytes written one after the other from o on. */
  function Store(m: seq<Byte>, o: int, bytes: seq<Byte>): (r: seq<Byte>)
    ensures |r| == |m|
    decreases |bytes|
  {
    if bytes == [] then m else Store(Poke(m, o, bytes[0]), o + 1, bytes[1..])
  }

  /** The bytes that count pixels take, the model of skipcount. */
  function SkipCount(count: int, fmt: Palette): int {
    if fmt == Grey then count else 2 * count
  }

  /** The bytes one literal produces. */
  function PairSize(fmt: Palette): int {
    if fmt == Grey then 2 else 4
  }

  /** Two pixels from four input bytes. */
  function YuvConvert(raw: seq<Byte>, i: int, fmt: Palette): (r: seq<Byte>)
    ensures |r| == PairSize(fmt)
  {
    var y, u, y1, v := Peek(raw, i), Peek(raw, i + 1), Peek(raw, i + 2), Peek(raw, i + 3);
    match fmt
    case Grey => [y, y1]
    case Yuyv => [y, u, y1, v]
    case Uyvy => [u, y, v, y1]
  }

  /** Two pixels from two input bytes and the chroma of the line above o. */
  function Convert420(raw: seq<Byte>, i: int, m: seq<Byte>, o: int, fmt: Palette, ls: int): (r: seq<Byte>)
    ensures |r| == PairSize(fmt)
  {
    var y, y1 := Peek(raw, i), Peek(raw, i + 1);
    match fmt
    case Grey => [y, y1]
    case Yuyv => [y, Peek(m, o + 1 - ls), y1, Peek(m, o + 3 - ls)]
    case Uyvy => [Peek(m, o - ls), y, Peek(m, o + 2 - ls), y1]
  }

  // --------------------------------------------------- what the loops compute

  /** How a picture is coded: compressed or not, and its line size. */
  datatype Coding = Coding(fmt: Palette, compressed: bool, sub422: bool, decimation: bool, ls: int)

  /** Where a line ends: the memory, the output and input positions and what is
      left of the line length; or the decoder gave up. */
  datatype LineEnd = GaveUp(m: seq<Byte>) | LineEnd(m: seq<Byte>, o: int, i: int, ll: int)

  /** The inner loop: the pieces of one line.  full says that the line carries
      its own chroma. */
  function Pieces(raw: seq<Byte>, c: Coding, full: bool, m: seq<Byte>, o: int, i: int, ll: int): (r: LineEnd)
    ensures |r.m| == |m|
    decreases ll
  {
    if ll <= 1 then LineEnd(m, o, i, ll)
    else if !c.compressed || Peek(raw, i) % 2 == 0 then
      if full then Pieces(raw, c, full, Store(m, o, YuvConvert(raw, i, c.fmt)), o + PairSize(c.fmt), i + 4, ll - 4)
      else
        Pieces(raw, c, full, Store(m, o, Convert420(raw, i, m, o, c.fmt, c.ls)), o + PairSize(c.fmt), i + 2, ll - 2)
    else
      var o' := o + SkipCount(Peek(raw, i) / 2, c.fmt);
      if o' > MAX_FRAME_SIZE then GaveUp(m) else Pieces(raw, c, full, m, o', i + 1, ll - 1)
  }

  datatype Decoded = Failed(m: seq<Byte>) | Decoded(m: seq<Byte>, o: int)

  function Length16(raw: seq<Byte>, i: int): int {
    Peek(raw, i) + 256 * Peek(raw, i + 1)
  }

  predicate EndOfImage(raw: seq<Byte>, i: int) {
    Peek(raw, i) == EOI && Peek(raw, i + 1) == EOI && Peek(raw, i + 2) == EOI && Peek(raw, i + 3) == EOI
  }

  /** The outer loop: the lines still in the size bytes left, of which the first
      has ll bytes from i on. */
  function Lines(raw: seq<Byte>, c: Coding, m: seq<Byte>, o: int, i: int, size: int, ll: nat, even: bool): (r: Decoded)
    ensures |r.m| == |m|
    decreases size
  {
    if size <= 0 then Decoded(m, o)
    else
      var size := size - (ll + 2);
      if size < 0 then Failed(m)
      else
        var e := Pieces(raw, c, c.sub422 || even, m, o, i, ll);
        if e.GaveUp? then Failed(e.m)
        else if e.ll != 1 || Peek(raw, e.i) != EOL then Failed(e.m)
        else if size > 3 && EndOfImage(raw, e.i + 1) then Decoded(e.m, e.o)
        else
          var more := size > 1;
          Lines(raw, c, e.m, if c.decimation then e.o + c.ls else e.o,
                if more then e.i + 3 else e.i + 1, size,
                if more then Length16(raw, e.i + 1) else 1,
                if c.decimation then even else !even)
  }

  /** Where the outer loop goes on behind a line that ended in x. */
  datatype Start = Start(o: int, i: int, ll: nat, even: bool)

  function Behind(raw: seq<Byte>, c: Coding, x: LineEnd, left: int, even: bool): Start
    requires x.LineEnd?
  {
    Start(if c.decimation then x.o + c.ls else x.o, if left > 1 then x.i + 3 else x.i + 1,
          if left > 1 then Length16(raw, x.i + 1) else 1, if c.decimation then even else !even)
  }

  /** The outer loop on one more line: it goes on behind it, or stops with or without
      success. */
  lemma LineStep(raw: seq<Byte>, c: Coding, m: seq<Byte>, o: int, i: int, size: int, ll: nat, even: bool, x: LineEnd,
                 d: Decoded)
    requires size > 0 && size >= ll + 2 && x == Pieces(raw, c, c.sub422 || even, m, o, i, ll)
    requires d == Lines(raw, c, m, o, i, size, ll, even)
    ensures d == if x.GaveUp? || x.ll != 1 || Peek(raw, x.i) != EOL then Failed(x.m)
                 else if size - (ll + 2) > 3 && EndOfImage(raw, x.i + 1) then Decoded(x.m, x.o)
                 else var n := Behind(raw, c, x, size - (ll + 2), even);
                   Lines(raw, c, x.m, n.o, n.i, size - (ll + 2), n.ll, n.even)
  {
  }

  /** Bytes j.. of the row at o as the mean of the rows at p and n. */
  function MeanRow(m: seq<Byte>, p: int, o: int, n: int, j: int, ls: int): (r: seq<Byte>)
    ensures |r| == |m|
    decreases ls - j
  {
    if j >= ls then m
    else MeanRow(Poke(m, o + j, (Peek(m, p + j) + Peek(m, n + j)) / 2), p, o, n, j + 1, ls)
  }

  function CopyRow(m: seq<Byte>, p: int, o: int, j: int, ls: int): (r: seq<Byte>)
    ensures |r| == |m|
    decreases ls - j
  {
    if j >= ls then m else CopyRow(Poke(m, o + j, Peek(m, p + j)), p, o, j + 1, ls)
  }

  /** The interpolation of the rows left out in a decimated picture, from row i
      at position p + ls on. */
  function Interpolate(m: seq<Byte>, p: int, i: int, rows: int, ls: int): (r: Decoded)
    ensures |r.m| == |m| && r.Decoded?
    decreases rows - i
  {
    if i < rows - 1 then Interpolate(MeanRow(m, p, p + ls, p + 2 * ls, 0, ls), p + 2 * ls, i + 2, rows, ls)
    else Decoded(CopyRow(m, p, p + ls, 0, ls), p + ls)
  }

  predicate HeaderOk(raw: seq<Byte>, roi: Roi) {
    && Peek(raw, 0) == MAGIC_0 && Peek(raw, 1) == MAGIC_1
    && Peek(raw, 16) in {0, 1} && Peek(raw, 17) in {0, 1} && Peek(raw, 18) in {0, 1}
    && Peek(raw, 24) == roi.colStart && Peek(raw, 25) == roi.colEnd
    && Peek(raw, 26) == roi.rowStart && Peek(raw, 27) == roi.rowEnd
    && Peek(raw, 28) in {0, 1} && Peek(raw, 29) in {0, 1}
  }

  function CodingOf(raw: seq<Byte>, fmt: Palette): Coding {
    Coding(fmt, Peek(raw, 28) == 1, Peek(raw, 17) == 1, Peek(raw, 29) == 1,
           SkipCount(8 * (Peek(raw, 25) - Peek(raw, 24)), fmt))
  }

  function RowsOf(raw: seq<Byte>): int {
    4 * (Peek(raw, 27) - Peek(raw, 26))
  }

  /** What parse_picture makes of a picture of size bytes over the frame m. */
  function Picture(raw: seq<Byte>, size: int, m: seq<Byte>, fmt: Palette, roi: Roi): (r: Decoded)
    ensures |r.m| == |m|
  {
    if !HeaderOk(raw, roi) then Failed(m)
    else
      var c := CodingOf(raw, fmt);
      var d := Lines(raw, c, m, 0, FRAME_HEADER_SIZE + 2, size - FRAME_HEADER_SIZE,
                     Length16(raw, FRAME_HEADER_SIZE), true);
      if d.Failed? || !c.decimation then d else Interpolate(d.m, 0, 1, RowsOf(raw), c.ls)
  }

  // ------------------------------------------------------------- the methods

  method PokeAt(mem: array<Byte>, k: int, v: Byte)
    modifies mem
    ensures mem[..] == Poke(old(mem[..]), k, v)
  {
    if 0 <= k < mem.Length {
      mem[k] := v;
    }
  }

  method Write2(mem: array<Byte>, o: int, a: Byte, b: Byte)
    modifies mem
    ensures mem[..] == Store(old(mem[..]), o, [a, b])
  {
    ghost var m := mem[..];
    PokeAt(mem, o, a);
    PokeAt(mem, o + 1, b);
    assert [a, b][1..] == [b];
    assert Store(m, o, [a, b]) == Store(Poke(m, o, a), o + 1, [b]);
    assert [b][1..] == [];
  }

  lemma {:induction false} StoreConcat(m: seq<Byte>, o: int, a: seq<Byte>, b: seq<Byte>)
    ensures Store(m, o, a + b) == Store(Store(m, o, a), o + |a|, b)
    decreases |a|
  {
    if a == [] {
      assert a + b == b;
    } else {
      assert (a + b)[1..] == a[1..] + b;
      StoreConcat(Poke(m, o, a[0]), o + 1, a[1..], b);
    }
  }

  method ConvertPair(raw: seq<Byte>, i: int, mem: array<Byte>, o: int, fmt: Palette) returns (n: int)
    modifies mem
    ensures mem[..] == Store(old(mem[..]), o, YuvConvert(raw, i, fmt)) && n == PairSize(fmt)
  {
    var y, u, y1, v := Peek(raw, i), Peek(raw, i + 1), Peek(raw, i + 2), Peek(raw, i + 3);
    match fmt {
      case Grey =>
        Write2(mem, o, y, y1);
        return 2;
      case Yuyv =>
        Write2(mem, o, y, u);
        Write2(mem, o + 2, y1, v);
        StoreConcat(old(mem[..]), o, [y, u], [y1, v]);
        return 4;
      case Uyvy =>
        Write2(mem, o, u, y);
        Write2(mem, o + 2, v, y1);
        StoreConcat(old(mem[..]), o, [u, y], [v, y1]);
        return 4;
    }
  }

  method ConvertLuma(raw: seq<Byte>, i: int, mem: array<Byte>, o: int, fmt: Palette, ls: int) returns (n: int)
    modifies mem
    ensures mem[..] == Store(old(mem[..]), o, Convert420(raw, i, old(mem[..]), o, fmt, ls)) && n == PairSize(fmt)
  {
    var y, y1 := Peek(raw, i), Peek(raw, i + 1);
    match fmt {
      case Grey =>
        Write2(mem, o, y, y1);
        return 2;
      case Yuyv =>
        var u, v := Peek(mem[..], o + 1 - ls), Peek(mem[..], o + 3 - ls);
        Write2(mem, o, y, u);
        Write2(mem, o + 2, y1, v);
        StoreConcat(old(mem[..]), o, [y, u], [y1, v]);
        return 4;
      case Uyvy =>
        var u, v := Peek(mem[..], o - ls), Peek(mem[..], o + 2 - ls);
        Write2(mem, o, u, y);
        Write2(mem, o + 2, v, y1);
        StoreConcat(old(mem[..]), o, [u, y], [v, y1]);
        return 4;
    }
  }

  /** The inner loop of parse_picture. */
  method ParseLine(mem: array<Byte>, raw: seq<Byte>, c: Coding, full: bool, o0: int, i0: int, ll0: int)
    returns (ok: bool, o: int, i: int, ll: int)
    modifies mem
    ensures var e := Pieces(raw, c, full, old(mem[..]), o0, i0, ll0);
      mem[..] == e.m && ok == e.LineEnd? && (ok ==> o == e.o && i == e.i && ll == e.ll)
  {
    ok, o, i, ll := true, o0, i0, ll0;
    ghost var end := Pieces(raw, c, full, mem[..], o, i, ll);
    while ll > 1
      invariant ok && Pieces(raw, c, full, mem[..], o, i, ll) == end
      decreases ll
    {
      var b := Peek(raw, i);
      if !c.compressed || b % 2 == 0 {
        if full {
          var n := ConvertPair(raw, i, mem, o, c.fmt);
          o, i, ll := o + n, i + 4, ll - 4;
        } else {
          var n := ConvertLuma(raw, i, mem, o, c.fmt, c.ls);
          o, i, ll := o + n, i + 2, ll - 2;
        }
      } else {
        o := o + SkipCount(b / 2, c.fmt);
        if o > MAX_FRAME_SIZE {
          ok := false;
          return;
        }
        i, ll := i + 1, ll - 1;
      }
    }
  }

  /** How a turn of the outer loop ends: it gives up, it is done, or there is more. */
  datatype Turn = Failure | Success | More

  /** One turn of the outer loop: a line of ll bytes, with size bytes behind it. */
  method ParseTurn(mem: array<Byte>, raw: seq<Byte>, c: Coding, o0: int, i0: int, size: int, ll0: nat, even0: bool,
                   ghost all: Decoded)
    returns (turn: Turn, o: int, i: int, ll: nat, even: bool)
    requires size >= 0 && all == Lines(raw, c, mem[..], o0, i0, size + ll0 + 2, ll0, even0)
    modifies mem
    ensures turn.Failure? ==> all == Failed(mem[..])
    ensures turn.Success? ==> all == Decoded(mem[..], o)
    ensures turn.More? ==> all == Lines(raw, c, mem[..], o, i, size, ll, even)
  {
    ghost var x := Pieces(raw, c, c.sub422 || even0, mem[..], o0, i0, ll0);
    LineStep(raw, c, mem[..], o0, i0, size + ll0 + 2, ll0, even0, x, all);
    even := even0;
    var fine, left;
    fine, o, i, left := ParseLine(mem, raw, c, c.sub422 || even, o0, i0, ll0);
    ll := 1;
    if !fine || left != 1 || Peek(raw, i) != EOL {
      turn := Failure;
      return;
    }
    i := i + 1;
    if size > 3 && EndOfImage(raw, i) {
      turn := Success;
      return;
    }
    if c.decimation {
      o := o + c.ls;
    }
    if size > 1 {
      ll := Length16(raw, i);
      i := i + 2;
    }
    if !c.decimation {
      even := !even;
    }
    turn := More;
  }

  /** The outer loop of parse_picture. */
  method ParseLines(mem: array<Byte>, raw: seq<Byte>, c: Coding, size0: int) returns (ok: bool, o: int)
    modifies mem
    ensures var d := Lines(raw, c, old(mem[..]), 0, FRAME_HEADER_SIZE + 2, size0, Length16(raw, FRAME_HEADER_SIZE), true);
      mem[..] == d.m && ok == d.Decoded? && (ok ==> o == d.o)
  {
    var i, size := FRAME_HEADER_SIZE, size0;
    var ll := Length16(raw, i);
    var even, turn := true, More;
    i, o, ok := i + 2, 0, false;
    ghost var all := Lines(raw, c, mem[..], 0, i, size, ll, true);
    while size > 0
      invariant ll >= 0 && all == Lines(raw, c, mem[..], o, i, size, ll, even)
      decreases size
    {
      size := size - (ll + 2);
      if size < 0 {
        return;
      }
      turn, o, i, ll, even := ParseTurn(mem, raw, c, o, i, size, ll, even, all);
      if turn == Failure {
        return;
      } else if turn == Success {
        return true, o;
      }
    }
    ok := true;
  }

  method AverageRow(mem: array<Byte>, prev: int, o: int, next: int, ls: int)
    modifies mem
    ensures mem[..] == MeanRow(old(mem[..]), prev, o, next, 0, ls)
  {
    var j := 0;
    while j < ls
      invariant 0 <= j && MeanRow(mem[..], prev, o, next, j, ls) == MeanRow(old(mem[..]), prev, o, next, 0, ls)
      decreases ls - j
    {
      var mean := (Peek(mem[..], prev + j) + Peek(mem[..], next + j)) / 2;
      PokeAt(mem, o + j, mean);
      j := j + 1;
    }
  }

  method RepeatRow(mem: array<Byte>, prev: int, o: int, ls: int)
    modifies mem
    ensures mem[..] == CopyRow(old(mem[..]), prev, o, 0, ls)
  {
    var j := 0;
    while j < ls
      invariant 0 <= j && CopyRow(mem[..], prev, o, j, ls) == CopyRow(old(mem[..]), prev, o, 0, ls)
      decreases ls - j
    {
      var b := Peek(mem[..], prev + j);
      PokeAt(mem, o + j, b);
      j := j + 1;
    }
  }

  /** The interpolation loop of parse_picture. */
  method InterpolateRows(mem: array<Byte>, rows: int, ls: int) returns (o: int)
    modifies mem
    ensures var d := Interpolate(old(mem[..]), 0, 1, rows, ls); mem[..] == d.m && o == d.o
  {
    var prev, next := 0, ls + ls;
    o := ls;
    var i := 1;
    while i < rows - 1
      invariant o == prev + ls && next == o + ls
      invariant Interpolate(mem[..], prev, i, rows, ls) == Interpolate(old(mem[..]), 0, 1, rows, ls)
      decreases rows - i
    {
      AverageRow(mem, prev, o, next, ls);
      prev, o, next := prev + 2 * ls, o + 2 * ls, next + 2 * ls;
      i := i + 2;
    }
    RepeatRow(mem, prev, o, ls);
  }

  /** parse_picture: -1, or the byte count of the decoded frame. */
  method ParsePicture(mem: array<Byte>, raw: seq<Byte>, size: int, fmt: Palette, roi: Roi) returns (ret: int)
    modifies mem
    ensures var d := Picture(raw, size, old(mem[..]), fmt, roi);
      mem[..] == d.m && ret == if d.Failed? then -1 else d.o
  {
    if !HeaderOk(raw, roi) {
      return -1;
    }
    var c := CodingOf(raw, fmt);
    var ok, o := ParseLines(mem, raw, c, size - FRAME_HEADER_SIZE);
    if !ok {
      return -1;
    }
    if c.decimation {
      o := InterpolateRows(mem, RowsOf(raw), c.ls);
    }
    return o;
  }
}
