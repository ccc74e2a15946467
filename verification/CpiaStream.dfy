/** The picture format parse_picture reads (video/cpia.c), from the sending side:
    lines of skip and literal tokens, each line with its length in front and an
    end-of-line mark behind, four end-of-image marks after the last.  Decoding
    what an encoder sends gives the frame the encoder had. */
module CpiaStream {
  import opened Basics
  import opened CpiaDecoder

  // ------------------------------------------------------------------ framing

  /** From pos to total the input is whole lines, each of its declared length and
      closed by an end-of-line mark, up to the end or to four end-of-image marks. */
  ghost predicate Framed(raw: seq<Byte>, pos: int, total: int)
    decreases total - pos
  {
    pos >= total
    || (var end := pos + 2 + Length16(raw, pos);
        && end <= total && Length16(raw, pos) >= 1 && Peek(raw, end - 1) == EOL
        && ((end + 3 < total && EndOfImage(raw, end)) || Framed(raw, end, total)))
  }

  /** A line is read to its declared length and not beyond. */
  lemma {:induction false} PiecesConsume(raw: seq<Byte>, c: Coding, full: bool, m: seq<Byte>, o: int, i: int, ll: int)
    ensures var e := Pieces(raw, c, full, m, o, i, ll); e.LineEnd? ==> e.i + e.ll == i + ll
    decreases ll
  {
    if ll > 1 {
      if !c.compressed || Peek(raw, i) % 2 == 0 {
        if full {
          PiecesConsume(raw, c, full, Store(m, o, YuvConvert(raw, i, c.fmt)), o + PairSize(c.fmt), i + 4, ll - 4);
        } else {
          PiecesConsume(raw, c, full, Store(m, o, Convert420(raw, i, m, o, c.fmt, c.ls)), o + PairSize(c.fmt),
                        i + 2, ll - 2);
        }
      } else {
        PiecesConsume(raw, c, full, m, o + SkipCount(Peek(raw, i) / 2, c.fmt), i + 1, ll - 1);
      }
    }
  }

  lemma LineTooLong(raw: seq<Byte>, c: Coding, m: seq<Byte>, o: int, i: int, size: int, ll: nat, even: bool, d: Decoded)
    requires d == Lines(raw, c, m, o, i, size, ll, even) && 0 < size < ll + 2
    ensures d == Failed(m)
  {
  }

  lemma FramedTurn(raw: seq<Byte>, pos: int, total: int)
    requires pos < total
    requires var end := pos + 2 + Length16(raw, pos);
      && end <= total && Length16(raw, pos) >= 1 && Peek(raw, end - 1) == EOL
      && ((end + 3 < total && EndOfImage(raw, end)) || Framed(raw, end, total))
    ensures Framed(raw, pos, total)
  {
  }

  lemma {:induction false} LinesFramed(raw: seq<Byte>, c: Coding, m: seq<Byte>, o: int, i: int, size: int, ll: nat,
                                       even: bool, pos: int, total: int, d: Decoded)
    requires size == total - pos && d == Lines(raw, c, m, o, i, size, ll, even)
    requires size > 1 ==> i == pos + 2 && ll == Length16(raw, pos)
    ensures d.Decoded? ==> Framed(raw, pos, total)
    decreases size
  {
    var left := size - (ll + 2);
    if size > 0 && left < 0 {
      LineTooLong(raw, c, m, o, i, size, ll, even, d);
    } else if size > 0 {
      var e := Pieces(raw, c, c.sub422 || even, m, o, i, ll);
      PiecesConsume(raw, c, c.sub422 || even, m, o, i, ll);
      LineStep(raw, c, m, o, i, size, ll, even, e, d);
      if d.Decoded? {
        if !(left > 3 && EndOfImage(raw, e.i + 1)) {
          var n := Behind(raw, c, e, left, even);
          LinesFramed(raw, c, e.m, n.o, n.i, left, n.ll, n.even, e.i + 1, total, d);
        }
        FramedTurn(raw, pos, total);
      }
    }
  }

  lemma AcceptedLines(raw: seq<Byte>, size: int, m: seq<Byte>, fmt: Palette, roi: Roi, d: Decoded)
    requires d == Lines(raw, CodingOf(raw, fmt), m, 0, FRAME_HEADER_SIZE + 2, size - FRAME_HEADER_SIZE,
                        Length16(raw, FRAME_HEADER_SIZE), true)
    ensures Picture(raw, size, m, fmt, roi).Decoded? ==> d.Decoded?
  {
  }

  /** On whatever input, a picture is accepted only when it is framed. */
  lemma AcceptedIsFramed(raw: seq<Byte>, size: int, m: seq<Byte>, fmt: Palette, roi: Roi)
    ensures Picture(raw, size, m, fmt, roi).Decoded? ==> Framed(raw, FRAME_HEADER_SIZE, size)
  {
    var c, left, ll := CodingOf(raw, fmt), size - FRAME_HEADER_SIZE, Length16(raw, FRAME_HEADER_SIZE);
    var d := Lines(raw, c, m, 0, FRAME_HEADER_SIZE + 2, left, ll, true);
    LinesFramed(raw, c, m, 0, FRAME_HEADER_SIZE + 2, left, ll, true, FRAME_HEADER_SIZE, size, d);
    AcceptedLines(raw, size, m, fmt, roi, d);
  }

  // ------------------------------------------------------------------- tokens

  /** n pixels left as they were, or two pixels sent. */
  datatype Token = Skip(n: int) | Lit(y: Byte, u: Byte, y1: Byte, v: Byte)

  /** In a compressed picture the low bit of the first byte tells the two kinds
      apart; in an uncompressed one there are only literals. */
  predicate TokenOk(t: Token, compressed: bool) {
    match t
    case Skip(n) => compressed && 1 <= n <= 127
    case Lit(y, _, _, _) => compressed ==> y % 2 == 0
  }

  predicate TokensOk(ts: seq<Token>, compressed: bool) {
    forall k :: 0 <= k < |ts| ==> TokenOk(ts[k], compressed)
  }

  /** The output bytes a token stands for. */
  function Width(t: Token): nat {
    if t.Lit? then 4 else if t.n > 0 then 2 * t.n else 0
  }

  function Span(ts: seq<Token>): nat {
    if ts == [] then 0 else Width(ts[0]) + Span(ts[1..])
  }

  /** A token as sent; a line without chroma of its own sends two bytes a literal. */
  function TokenBytes(t: Token, full: bool): (r: seq<Byte>)
    ensures |r| > 0
  {
    match t
    case Skip(n) => [if 0 <= n < 128 then 2 * n + 1 else 1]
    case Lit(y, u, y1, v) => if full then [y, u, y1, v] else [y, y1]
  }

  function LineBytes(ts: seq<Token>, full: bool): seq<Byte> {
    if ts == [] then [] else TokenBytes(ts[0], full) + LineBytes(ts[1..], full)
  }

  /** What one token does at o: nothing, or two pixels, on a line without chroma
      of its own with the chroma of the line above. */
  function Effect(t: Token, m: seq<Byte>, o: int, ls: int, full: bool): (r: seq<Byte>)
    ensures |r| == |m|
  {
    match t
    case Skip(_) => m
    case Lit(y, u, y1, v) =>
      Store(m, o, if full then [y, u, y1, v] else [y, Peek(m, o + 1 - ls), y1, Peek(m, o + 3 - ls)])
  }

  /** What the tokens of a line do to the memory, from o on. */
  function LineOver(ts: seq<Token>, m: seq<Byte>, o: int, ls: int, full: bool): (r: seq<Byte>)
    ensures |r| == |m|
    decreases |ts|
  {
    if ts == [] then m
    else LineOver(ts[1..], Effect(ts[0], m, o, ls, full), o + Width(ts[0]), ls, full)
  }

  /** The input holds s from i on. */
  predicate At(raw: seq<Byte>, i: int, s: seq<Byte>)
    decreases |s|
  {
    s == [] || (Peek(raw, i) == s[0] && At(raw, i + 1, s[1..]))
  }

  lemma {:induction false} AtParts(raw: seq<Byte>, i: int, s: seq<Byte>, t: seq<Byte>)
    requires At(raw, i, s + t)
    ensures At(raw, i, s) && At(raw, i + |s|, t)
    decreases |s|
  {
    if s == [] {
      assert s + t == t;
    } else {
      assert (s + t)[1..] == s[1..] + t;
      AtParts(raw, i + 1, s[1..], t);
    }
  }

  lemma {:induction false} AtPeek(raw: seq<Byte>, i: int, s: seq<Byte>, k: nat)
    requires At(raw, i, s) && k < |s|
    ensures Peek(raw, i + k) == s[k]
    decreases |s|
  {
    if k > 0 {
      AtPeek(raw, i + 1, s[1..], k - 1);
    }
  }

  lemma {:induction false} AtSelf(raw: seq<Byte>, i: nat)
    requires i <= |raw|
    ensures At(raw, i, raw[i..])
    decreases |raw| - i
  {
    if i < |raw| {
      assert raw[i..][1..] == raw[i + 1..];
      AtSelf(raw, i + 1);
    }
  }

  lemma SkipDecodes(raw: seq<Byte>, c: Coding, full: bool, m: seq<Byte>, o: int, i: int, ll: int, t: Token, r: LineEnd)
    requires r == Pieces(raw, c, full, m, o, i, ll)
    requires c.fmt == Yuyv && TokenOk(t, c.compressed) && ll > 1 && o + Width(t) <= MAX_FRAME_SIZE
    requires t.Skip? && At(raw, i, TokenBytes(t, full))
    ensures r == Pieces(raw, c, full, Effect(t, m, o, c.ls, full), o + Width(t), i + |TokenBytes(t, full)|,
                        ll - |TokenBytes(t, full)|)
  {
    AtPeek(raw, i, [2 * t.n + 1], 0);
    assert (2 * t.n + 1) / 2 == t.n;
  }

  lemma FullDecodes(raw: seq<Byte>, c: Coding, full: bool, m: seq<Byte>, o: int, i: int, ll: int, t: Token, r: LineEnd)
    requires r == Pieces(raw, c, full, m, o, i, ll)
    requires c.fmt == Yuyv && TokenOk(t, c.compressed) && ll > 1 && o + Width(t) <= MAX_FRAME_SIZE
    requires t.Lit? && full && At(raw, i, TokenBytes(t, full))
    ensures r == Pieces(raw, c, full, Effect(t, m, o, c.ls, full), o + Width(t), i + |TokenBytes(t, full)|,
                        ll - |TokenBytes(t, full)|)
  {
    var b := [t.y, t.u, t.y1, t.v];
    AtPeek(raw, i, b, 0);
    AtPeek(raw, i, b, 1);
    AtPeek(raw, i, b, 2);
    AtPeek(raw, i, b, 3);
    assert YuvConvert(raw, i, Yuyv) == b;
  }

  lemma LumaDecodes(raw: seq<Byte>, c: Coding, full: bool, m: seq<Byte>, o: int, i: int, ll: int, t: Token, r: LineEnd)
    requires r == Pieces(raw, c, full, m, o, i, ll)
    requires c.fmt == Yuyv && TokenOk(t, c.compressed) && ll > 1 && o + Width(t) <= MAX_FRAME_SIZE
    requires t.Lit? && !full && At(raw, i, TokenBytes(t, full))
    ensures r == Pieces(raw, c, full, Effect(t, m, o, c.ls, full), o + Width(t), i + |TokenBytes(t, full)|,
                        ll - |TokenBytes(t, full)|)
  {
    AtPeek(raw, i, [t.y, t.y1], 0);
    AtPeek(raw, i, [t.y, t.y1], 1);
  }

  /** The decoder takes a token for what it is. */
  lemma TokenDecodes(raw: seq<Byte>, c: Coding, full: bool, m: seq<Byte>, o: int, i: int, ll: int, t: Token, r: LineEnd)
    returns (m1: seq<Byte>, o1: int, i1: int, ll1: int)
    requires r == Pieces(raw, c, full, m, o, i, ll)
    requires c.fmt == Yuyv && TokenOk(t, c.compressed) && ll > 1 && o + Width(t) <= MAX_FRAME_SIZE
    requires At(raw, i, TokenBytes(t, full))
    ensures m1 == Effect(t, m, o, c.ls, full) && o1 == o + Width(t)
    ensures i1 == i + |TokenBytes(t, full)| && ll1 == ll - |TokenBytes(t, full)|
    ensures r == Pieces(raw, c, full, m1, o1, i1, ll1)
  {
    if t.Skip? {
      SkipDecodes(raw, c, full, m, o, i, ll, t, r);
    } else if full {
      FullDecodes(raw, c, full, m, o, i, ll, t, r);
    } else {
      LumaDecodes(raw, c, full, m, o, i, ll, t, r);
    }
    var n := |TokenBytes(t, full)|;
    m1, o1, i1, ll1 := Effect(t, m, o, c.ls, full), o + Width(t), i + n, ll - n;
  }

  lemma FirstToken(raw: seq<Byte>, c: Coding, full: bool, m: seq<Byte>, o: int, i: int, ll: int, ts: seq<Token>,
                   r: LineEnd)
    returns (m1: seq<Byte>, o1: int, i1: int, ll1: int)
    requires r == Pieces(raw, c, full, m, o, i, ll) && ts != []
    requires c.fmt == Yuyv && TokensOk(ts, c.compressed) && o + Span(ts) <= MAX_FRAME_SIZE
    requires At(raw, i, LineBytes(ts, full)) && ll == |LineBytes(ts, full)| + 1
    ensures r == Pieces(raw, c, full, m1, o1, i1, ll1) && i1 + ll1 == i + ll
    ensures At(raw, i1, LineBytes(ts[1..], full)) && ll1 == |LineBytes(ts[1..], full)| + 1
    ensures LineOver(ts, m, o, c.ls, full) == LineOver(ts[1..], m1, o1, c.ls, full)
    ensures o1 + Span(ts[1..]) == o + Span(ts)
  {
    AtParts(raw, i, TokenBytes(ts[0], full), LineBytes(ts[1..], full));
    m1, o1, i1, ll1 := TokenDecodes(raw, c, full, m, o, i, ll, ts[0], r);
  }

  /** The inner loop on a line of tokens, whatever follows it. */
  lemma {:induction false} LineDecodes(raw: seq<Byte>, c: Coding, full: bool, m: seq<Byte>, o: int, i: int, ll: int,
                                       ts: seq<Token>, r: LineEnd)
    requires r == Pieces(raw, c, full, m, o, i, ll)
    requires c.fmt == Yuyv && TokensOk(ts, c.compressed) && o + Span(ts) <= MAX_FRAME_SIZE
    requires At(raw, i, LineBytes(ts, full)) && ll == |LineBytes(ts, full)| + 1
    ensures r == LineEnd(LineOver(ts, m, o, c.ls, full), o + Span(ts), i + ll - 1, 1)
    decreases |ts|
  {
    if ts != [] {
      var m1, o1, i1, ll1 := FirstToken(raw, c, full, m, o, i, ll, ts, r);
      LineDecodes(raw, c, full, m1, o1, i1, ll1, ts[1..], r);
    }
  }

  // ------------------------------------------------------------------ picture

  function Little16(n: int): seq<Byte>
    requires 0 <= n < 65536
  {
    [n % 256, n / 256]
  }

  /** A line as sent: its length, its tokens, the end-of-line mark. */
  function Record(ts: seq<Token>, full: bool): seq<Byte>
    requires |LineBytes(ts, full)| < 65534
  {
    Little16(|LineBytes(ts, full)| + 1) + LineBytes(ts, full) + [EOL]
  }

  predicate Sendable(lines: seq<seq<Token>>, compressed: bool) {
    forall k :: 0 <= k < |lines| ==> TokensOk(lines[k], compressed) && Span(lines[k]) < 65534
  }

  /** All lines, every other one with chroma when subsampled, and the end marks. */
  function Stream(lines: seq<seq<Token>>, compressed: bool, sub422: bool, even: bool): seq<Byte>
    requires Sendable(lines, compressed)
    decreases |lines|
  {
    if lines == [] then [EOI, EOI, EOI, EOI]
    else
      LineBytesBound(lines[0], sub422 || even, compressed);
      Record(lines[0], sub422 || even) + Stream(lines[1..], compressed, sub422, !even)
  }

  /** A line takes no more bytes than it shows. */
  lemma {:induction false} LineBytesBound(ts: seq<Token>, full: bool, compressed: bool)
    requires TokensOk(ts, compressed)
    ensures |LineBytes(ts, full)| <= Span(ts)
  {
    if ts != [] {
      LineBytesBound(ts[1..], full, compressed);
    }
  }

  function Total(lines: seq<seq<Token>>): nat {
    if lines == [] then 0 else Span(lines[0]) + Total(lines[1..])
  }

  /** What the lines of a picture do to the memory. */
  function PictureOver(lines: seq<seq<Token>>, m: seq<Byte>, o: int, ls: int, sub422: bool, even: bool): (r: seq<Byte>)
    ensures |r| == |m|
    decreases |lines|
  {
    if lines == [] then m
    else PictureOver(lines[1..], LineOver(lines[0], m, o, ls, sub422 || even), o + Span(lines[0]), ls, sub422, !even)
  }

  /** The outer loop on the first line of a stream: what is left is the rest. */
  lemma StreamTurn(raw: seq<Byte>, c: Coding, m: seq<Byte>, o: int, i: int, size: int, ll: nat,
                   lines: seq<seq<Token>>, even: bool, r: Decoded)
    returns (m1: seq<Byte>, o1: int, end: int)
    requires r == Lines(raw, c, m, o, i, size, ll, even)
    requires c.fmt == Yuyv && !c.decimation && lines != [] && Sendable(lines, c.compressed)
    requires o + Span(lines[0]) <= MAX_FRAME_SIZE
    requires At(raw, i - 2, Stream(lines, c.compressed, c.sub422, even))
    requires size == |Stream(lines, c.compressed, c.sub422, even)| && ll == Length16(raw, i - 2)
    ensures m1 == LineOver(lines[0], m, o, c.ls, c.sub422 || even) && o1 == o + Span(lines[0])
    ensures At(raw, end, Stream(lines[1..], c.compressed, c.sub422, !even))
    ensures r == if lines[1..] == [] then Decoded(m1, o1)
                 else Lines(raw, c, m1, o1, end + 2, |Stream(lines[1..], c.compressed, c.sub422, !even)|,
                       Length16(raw, end), !even)
  {
    var full := c.sub422 || even;
    var ts, rest := lines[0], lines[1..];
    var tail := Stream(rest, c.compressed, c.sub422, !even);
    LineBytesBound(ts, full, c.compressed);
    StreamEnds(rest, c.compressed, c.sub422, !even);
    m1, o1, end := RecordDecodes(raw, c, m, o, i, size, ll, ts, tail, even, r);
    if rest == [] {
      FourMarks(raw, end);
    } else {
      StreamStart(raw, end, rest, c, !even);
    }
  }

  /** The outer loop on a stream of at least one line. */
  lemma {:induction false} LinesDecode(raw: seq<Byte>, c: Coding, m: seq<Byte>, o: int, i: int, size: int, ll: nat,
                                       lines: seq<seq<Token>>, even: bool, r: Decoded)
    requires r == Lines(raw, c, m, o, i, size, ll, even)
    requires c.fmt == Yuyv && !c.decimation && lines != [] && Sendable(lines, c.compressed)
    requires o + Total(lines) <= MAX_FRAME_SIZE
    requires At(raw, i - 2, Stream(lines, c.compressed, c.sub422, even))
    requires size == |Stream(lines, c.compressed, c.sub422, even)| && ll == Length16(raw, i - 2)
    ensures r == Decoded(PictureOver(lines, m, o, c.ls, c.sub422, even), o + Total(lines))
    decreases |lines|
  {
    var m1, o1, end := StreamTurn(raw, c, m, o, i, size, ll, lines, even, r);
    var rest := lines[1..];
    if rest != [] {
      var left := |Stream(rest, c.compressed, c.sub422, !even)|;
      LinesDecode(raw, c, m1, o1, end + 2, left, Length16(raw, end), rest, !even, r);
    }
  }

  lemma FourMarks(raw: seq<Byte>, i: int)
    requires At(raw, i, [EOI, EOI, EOI, EOI])
    ensures EndOfImage(raw, i)
  {
    var marks := [EOI, EOI, EOI, EOI];
    AtPeek(raw, i, marks, 0);
    AtPeek(raw, i, marks, 1);
    AtPeek(raw, i, marks, 2);
    AtPeek(raw, i, marks, 3);
  }

  /** The outer loop on one line as sent and what follows it. */
  lemma RecordDecodes(raw: seq<Byte>, c: Coding, m: seq<Byte>, o: int, i: int, size: int, ll: nat, ts: seq<Token>,
                      tail: seq<Byte>, even: bool, r: Decoded)
    returns (m1: seq<Byte>, o1: int, end: int)
    requires r == Lines(raw, c, m, o, i, size, ll, even)
    requires c.fmt == Yuyv && TokensOk(ts, c.compressed) && o + Span(ts) <= MAX_FRAME_SIZE
    requires |LineBytes(ts, c.sub422 || even)| < 65534 && |tail| > 3
    requires At(raw, i - 2, Record(ts, c.sub422 || even) + tail)
    requires size == |Record(ts, c.sub422 || even) + tail| && ll == Length16(raw, i - 2)
    ensures m1 == LineOver(ts, m, o, c.ls, c.sub422 || even) && o1 == o + Span(ts) && At(raw, end, tail)
    ensures r == if EndOfImage(raw, end) then Decoded(m1, o1)
                 else Lines(raw, c, m1, if c.decimation then o1 + c.ls else o1, end + 2, |tail|, Length16(raw, end),
                       if c.decimation then even else !even)
  {
    RecordAt(raw, i - 2, ts, c.sub422 || even, tail);
    m1, o1, end := LineTurn(raw, c, m, o, i, size, ll, ts, even, r);
  }

  lemma LineEnds(raw: seq<Byte>, c: Coding, full: bool, m: seq<Byte>, o: int, i: int, ll: int, ts: seq<Token>,
                 m1: seq<Byte>, o1: int, end: int)
    requires c.fmt == Yuyv && TokensOk(ts, c.compressed) && o + Span(ts) <= MAX_FRAME_SIZE
    requires At(raw, i, LineBytes(ts, full)) && ll == |LineBytes(ts, full)| + 1
    requires m1 == LineOver(ts, m, o, c.ls, full) && o1 == o + Span(ts) && end == i + ll
    ensures Pieces(raw, c, full, m, o, i, ll) == LineEnd(m1, o1, end - 1, 1)
  {
    LineDecodes(raw, c, full, m, o, i, ll, ts, Pieces(raw, c, full, m, o, i, ll));
  }

  /** The outer loop on one line as sent, with at least four bytes behind it. */
  lemma LineTurn(raw: seq<Byte>, c: Coding, m: seq<Byte>, o: int, i: int, size: int, ll: nat, ts: seq<Token>, even: bool,
                 r: Decoded)
    returns (m1: seq<Byte>, o1: int, end: int)
    requires r == Lines(raw, c, m, o, i, size, ll, even)
    requires c.fmt == Yuyv && TokensOk(ts, c.compressed) && o + Span(ts) <= MAX_FRAME_SIZE
    requires ll == |LineBytes(ts, c.sub422 || even)| + 1 && size - (ll + 2) > 3
    requires At(raw, i, LineBytes(ts, c.sub422 || even)) && Peek(raw, i + ll - 1) == EOL
    ensures m1 == LineOver(ts, m, o, c.ls, c.sub422 || even) && o1 == o + Span(ts) && end == i + ll
    ensures r == if EndOfImage(raw, end) then Decoded(m1, o1)
                 else Lines(raw, c, m1, if c.decimation then o1 + c.ls else o1, end + 2, size - (ll + 2), Length16(raw, end),
                       if c.decimation then even else !even)
  {
    var full := c.sub422 || even;
    m1, o1, end := LineOver(ts, m, o, c.ls, full), o + Span(ts), i + ll;
    LineEnds(raw, c, full, m, o, i, ll, ts, m1, o1, end);
    NextLine(raw, c, m, o, i, size, ll, even, r, m1, o1, end);
  }

  /** One turn of the outer loop past a complete line with more to come. */
  lemma NextLine(raw: seq<Byte>, c: Coding, m: seq<Byte>, o: int, i: int, size: int, ll: nat, even: bool, r: Decoded,
                 m1: seq<Byte>, o1: int, end: int)
    requires r == Lines(raw, c, m, o, i, size, ll, even) && size - (ll + 2) > 3
    requires Pieces(raw, c, c.sub422 || even, m, o, i, ll) == LineEnd(m1, o1, end - 1, 1) && Peek(raw, end - 1) == EOL
    ensures r == if EndOfImage(raw, end) then Decoded(m1, o1)
                 else Lines(raw, c, m1, if c.decimation then o1 + c.ls else o1, end + 2, size - (ll + 2),
                       Length16(raw, end), if c.decimation then even else !even)
  {
    LineStep(raw, c, m, o, i, size, ll, even, LineEnd(m1, o1, end - 1, 1), r);
  }

  /** The parts of a line as sent. */
  lemma RecordAt(raw: seq<Byte>, i: int, ts: seq<Token>, full: bool, tail: seq<Byte>)
    requires |LineBytes(ts, full)| < 65534 && At(raw, i, Record(ts, full) + tail)
    ensures Length16(raw, i) == |LineBytes(ts, full)| + 1
    ensures At(raw, i + 2, LineBytes(ts, full))
    ensures Peek(raw, i + 2 + |LineBytes(ts, full)|) == EOL
    ensures At(raw, i + 3 + |LineBytes(ts, full)|, tail)
  {
    var b := LineBytes(ts, full);
    var len := Little16(|b| + 1);
    var mark := [EOL];
    assert Record(ts, full) + tail == len + (b + (mark + tail));
    AtParts(raw, i, len, b + (mark + tail));
    AtParts(raw, i + 2, b, mark + tail);
    AtParts(raw, i + 2 + |b|, mark, tail);
    AtPeek(raw, i, len, 0);
    AtPeek(raw, i, len, 1);
  }

  /** A stream of lines does not start with end marks: no length is that large. */
  lemma StreamStart(raw: seq<Byte>, i: int, lines: seq<seq<Token>>, c: Coding, even: bool)
    requires lines != [] && Sendable(lines, c.compressed)
    requires At(raw, i, Stream(lines, c.compressed, c.sub422, even))
    ensures !EndOfImage(raw, i) && |Stream(lines, c.compressed, c.sub422, even)| > 3
  {
    LineBytesBound(lines[0], c.sub422 || even, c.compressed);
    RecordAt(raw, i, lines[0], c.sub422 || even, Stream(lines[1..], c.compressed, c.sub422, !even));
    StreamEnds(lines[1..], c.compressed, c.sub422, !even);
  }

  lemma {:induction false} StreamEnds(lines: seq<seq<Token>>, compressed: bool, sub422: bool, even: bool)
    requires Sendable(lines, compressed)
    ensures |Stream(lines, compressed, sub422, even)| >= 4
    decreases |lines|
  {
    if lines != [] {
      StreamEnds(lines[1..], compressed, sub422, !even);
    }
  }

  lemma HeaderKept(raw: seq<Byte>, header: seq<Byte>, rest: seq<Byte>, roi: Roi)
    requires |header| == FRAME_HEADER_SIZE && raw == header + rest
    ensures CodingOf(raw, Yuyv) == CodingOf(header, Yuyv) && HeaderOk(raw, roi) == HeaderOk(header, roi)
    ensures raw[FRAME_HEADER_SIZE..] == rest
  {
    assert forall k :: 0 <= k < |header| ==> Peek(raw, k) == header[k];
  }

  /** parse_picture on a header and a stream of lines, whatever the rest of the
      buffer holds. */
  lemma PictureDecodes(raw: seq<Byte>, header: seq<Byte>, lines: seq<seq<Token>>, rest: seq<Byte>, m: seq<Byte>,
                       roi: Roi)
    requires |header| == FRAME_HEADER_SIZE && HeaderOk(header, roi) && lines != []
    requires var c := CodingOf(header, Yuyv);
      && !c.decimation && Sendable(lines, c.compressed)
      && raw == header + (Stream(lines, c.compressed, c.sub422, true) + rest)
    requires Total(lines) <= MAX_FRAME_SIZE
    ensures var c := CodingOf(header, Yuyv);
      Picture(raw, |raw| - |rest|, m, Yuyv, roi) == Decoded(PictureOver(lines, m, 0, c.ls, c.sub422, true), Total(lines))
  {
    var c := CodingOf(header, Yuyv);
    HeaderKept(raw, header, Stream(lines, c.compressed, c.sub422, true) + rest, roi);
    AtSelf(raw, FRAME_HEADER_SIZE);
    AtParts(raw, FRAME_HEADER_SIZE, Stream(lines, c.compressed, c.sub422, true), rest);
    var size, ll := |raw| - |rest| - FRAME_HEADER_SIZE, Length16(raw, FRAME_HEADER_SIZE);
    LinesDecode(raw, c, m, 0, FRAME_HEADER_SIZE + 2, size, ll, lines, true,
                Lines(raw, c, m, 0, FRAME_HEADER_SIZE + 2, size, ll, true));
  }

  // ------------------------------------------------------------------ refusals

  /** A picture with a wrong magic, an unknown size, subsampling, order, compression or
      decimation, or of another region than asked for is refused untouched. */
  lemma HeaderRefused(raw: seq<Byte>, size: int, m: seq<Byte>, fmt: Palette, roi: Roi)
    requires !(Peek(raw, 0) == 0x19 && Peek(raw, 1) == 0x68)
             || Peek(raw, 16) > 1 || Peek(raw, 17) > 1 || Peek(raw, 18) > 1 || Peek(raw, 28) > 1 || Peek(raw, 29) > 1
             || Peek(raw, 24) != roi.colStart || Peek(raw, 25) != roi.colEnd
             || Peek(raw, 26) != roi.rowStart || Peek(raw, 27) != roi.rowEnd
    ensures Picture(raw, size, m, fmt, roi) == Failed(m)
  {
  }

  /** A skip that leads beyond the largest frame ends the decoding. */
  lemma SkipTooFar(raw: seq<Byte>, c: Coding, full: bool, m: seq<Byte>, o: int, i: int, ll: int, n: int)
    requires c.fmt == Yuyv && c.compressed && ll > 1 && 0 <= n < 128 && Peek(raw, i) == 2 * n + 1
    requires o + 2 * n > 352 * 288 * 4
    ensures Pieces(raw, c, full, m, o, i, ll) == GaveUp(m)
  {
  }
}
