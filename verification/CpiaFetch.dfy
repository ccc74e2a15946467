/** From the port to the frame (video/cpia.c: fetch_frame): reading an image and
    decoding it over the previous frame. */
module CpiaFetch {
  import opened Basics
  import opened CpiaDecoder
  import opened CpiaStream
  import opened CpiaRoundTrip
  import opened CpiaParport

  function Sent(lines: seq<seq<Token>>, roi: Roi, sub422: bool, compressed: bool): seq<Byte>
    requires Sendable(lines, compressed)
  {
    Header(roi, sub422, compressed) + Stream(lines, compressed, sub422, true)
  }

  lemma RunInPrefix(s: seq<Byte>, t: seq<Byte>, e: int)
    requires s <= t && e <= |s|
    ensures Run4(s, e) <==> Run4(t, e)
  {
  }

  /** A picture without an earlier run ends where the first run in the stream does. */
  lemma EndIsUnique(s: seq<Byte>, t: seq<Byte>, e: int)
    requires EndsAt(s, |s|) && s <= t && EndsAt(t, e)
    ensures e == |s|
  {
    RunInPrefix(s, t, |s|);
    if e < |s| {
      RunInPrefix(s, t, e);
    }
  }

  lemma PictureFetched(picture: seq<Byte>, image: seq<Byte>, buffer: seq<Byte>, n: int, lines: seq<seq<Token>>,
                       prev: seq<Byte>, cur: seq<Byte>, roi: Roi, sub422: bool, compressed: bool, size: nat)
    requires Encodes(lines, prev, cur, roi, sub422, compressed, size)
    requires Sendable(lines, compressed) && picture == Sent(lines, roi, sub422, compressed)
    requires EndsAt(picture, |picture|) && picture <= image && EndsAt(image, n)
    requires n <= |buffer| && buffer[..n] == image[..n]
    ensures Picture(buffer, n, prev, Yuyv, roi) == Decoded(cur, size)
  {
    EndIsUnique(picture, image, n);
    assert buffer == picture + buffer[n..];
    RoundTrip(lines, prev, cur, roi, sub422, compressed, size, buffer[n..]);
  }

  // ----------------------------------------- a run of four before the end

  predicate HasPrefix(raw: seq<Byte>, pos: nat, s: seq<Byte>, n: nat) {
    n <= |s| && pos + n <= |raw| && raw[pos..pos + n] == s[..n]
  }

  lemma PrefixPeek(raw: seq<Byte>, pos: nat, s: seq<Byte>, n: nat, k: nat)
    requires HasPrefix(raw, pos, s, n) && k < n
    ensures Peek(raw, pos + k) == s[k]
  {
    assert raw[pos..pos + n][k] == s[..n][k];
  }

  lemma PrefixRest(raw: seq<Byte>, pos: nat, a: seq<Byte>, b: seq<Byte>, n: nat)
    requires HasPrefix(raw, pos, a + b, n) && |a| <= n
    ensures HasPrefix(raw, pos + |a|, b, n - |a|)
  {
    assert raw[pos..pos + n][|a|..] == (a + b)[..n][|a|..];
  }

  /** What two length bytes of a record say, and its end mark. */
  lemma RecordPrefix(raw: seq<Byte>, pos: nat, ts: seq<Token>, full: bool, tail: seq<Byte>, n: nat)
    requires |LineBytes(ts, full)| < 65534 && HasPrefix(raw, pos, Record(ts, full) + tail, n) && n >= 2
    ensures Length16(raw, pos) == |LineBytes(ts, full)| + 1 < 65535
    ensures |Record(ts, full)| == |LineBytes(ts, full)| + 3
    ensures n >= |Record(ts, full)| ==> Peek(raw, pos + |Record(ts, full)| - 1) == EOL
  {
    var s, len := Record(ts, full) + tail, |LineBytes(ts, full)| + 1;
    PrefixPeek(raw, pos, s, n, 0);
    PrefixPeek(raw, pos, s, n, 1);
    assert s[0] == len % 256 && s[1] == len / 256;
    if n >= |Record(ts, full)| {
      PrefixPeek(raw, pos, s, n, |Record(ts, full)| - 1);
    }
  }

  /** One line of the framing. */
  lemma UnframedTurn(raw: seq<Byte>, pos: nat, total: nat)
    requires pos < total
    ensures var end := pos + 2 + Length16(raw, pos);
      Framed(raw, pos, total) ==>
        && end <= total && Peek(raw, end - 1) == EOL
        && ((end + 3 < total && EndOfImage(raw, end)) || Framed(raw, end, total))
  {
  }

  ghost predicate CutStream(raw: seq<Byte>, pos: nat, lines: seq<seq<Token>>, compressed: bool, sub422: bool, even: bool,
                            total: nat)
    requires Sendable(lines, compressed)
  {
    && pos < total && HasPrefix(raw, pos, Stream(lines, compressed, sub422, even), total - pos)
    && total - pos < |Stream(lines, compressed, sub422, even)|
  }

  /** A line of a stream that is cut off later: framed with it means framed behind it. */
  lemma CutTurn(raw: seq<Byte>, pos: nat, lines: seq<seq<Token>>, compressed: bool, sub422: bool, even: bool, total: nat)
    returns (end: nat)
    requires Sendable(lines, compressed) && CutStream(raw, pos, lines, compressed, sub422, even, total)
    requires Peek(raw, total - 1) != EOL && lines != [] && total - pos >= 2
    ensures end < total ==> CutStream(raw, end, lines[1..], compressed, sub422, !even, total)
    ensures Framed(raw, pos, total) ==> end < total && ((end + 3 < total && EndOfImage(raw, end)) || Framed(raw, end, total))
  {
    var n, full := total - pos, sub422 || even;
    LineBytesBound(lines[0], full, compressed);
    var record, rest := Record(lines[0], full), Stream(lines[1..], compressed, sub422, !even);
    RecordPrefix(raw, pos, lines[0], full, rest, n);
    end := pos + |record|;
    UnframedTurn(raw, pos, total);
    if |record| < n {
      PrefixRest(raw, pos, record, rest, n);
    }
  }

  /** A stream cut off behind a byte that is no end-of-line mark is not framed. */
  lemma {:induction false} CutNotFramed(raw: seq<Byte>, pos: nat, lines: seq<seq<Token>>, compressed: bool, sub422: bool,
                                        even: bool, total: nat)
    requires Sendable(lines, compressed) && CutStream(raw, pos, lines, compressed, sub422, even, total)
    requires Peek(raw, total - 1) != EOL
    ensures !Framed(raw, pos, total)
    decreases |lines|
  {
    var n := total - pos;
    if n == 1 {
      UnframedTurn(raw, pos, total);
    } else if lines == [] {
      MarksNotFramed(raw, pos, total);
    } else {
      var end := CutTurn(raw, pos, lines, compressed, sub422, even, total);
      if end < total {
        NoMarksAt(raw, end, lines[1..], compressed, sub422, !even, total - end);
        CutNotFramed(raw, end, lines[1..], compressed, sub422, !even, total);
      }
    }
  }

  lemma MarksNotFramed(raw: seq<Byte>, pos: nat, total: nat)
    requires pos + 2 <= total && total - pos < 4 && HasPrefix(raw, pos, [EOI, EOI, EOI, EOI], total - pos)
    ensures !Framed(raw, pos, total)
  {
    PrefixPeek(raw, pos, [EOI, EOI, EOI, EOI], total - pos, 0);
    PrefixPeek(raw, pos, [EOI, EOI, EOI, EOI], total - pos, 1);
    UnframedTurn(raw, pos, total);
  }

  /** Nor does what is left of it start with four end-of-image marks. */
  lemma NoMarksAt(raw: seq<Byte>, pos: nat, lines: seq<seq<Token>>, compressed: bool, sub422: bool, even: bool, n: nat)
    requires Sendable(lines, compressed) && HasPrefix(raw, pos, Stream(lines, compressed, sub422, even), n)
    requires n < |Stream(lines, compressed, sub422, even)|
    ensures n > 3 ==> !EndOfImage(raw, pos)
  {
    if n > 3 {
      LineBytesBound(lines[0], sub422 || even, compressed);
      RecordPrefix(raw, pos, lines[0], sub422 || even, Stream(lines[1..], compressed, sub422, !even), n);
    }
  }

  /** No run of four ends in the header of a picture with columns. */
  lemma NoRunInHeader(s: seq<Byte>, roi: Roi, sub422: bool, compressed: bool, e: int)
    requires roi.colStart < roi.colEnd && Header(roi, sub422, compressed) <= s && Run4(s, e)
    ensures e > FRAME_HEADER_SIZE
  {
    var h := Header(roi, sub422, compressed);
    assert forall k :: 0 <= k < |h| ==> s[k] == h[k] == HeaderByte(k, roi, sub422, compressed);
  }

  /** A picture in which a run of four stands before the end is cut off there, and the
      decoder refuses what is left of it. */
  lemma CutRefused(lines: seq<seq<Token>>, roi: Roi, sub422: bool, compressed: bool, buffer: seq<Byte>, n: nat,
                   prev: seq<Byte>)
    requires roi.colStart < roi.colEnd && Sendable(lines, compressed)
    requires var picture := Sent(lines, roi, sub422, compressed);
      Run4(picture, n) && n < |picture| && n <= |buffer| && buffer[..n] == picture[..n]
    ensures Picture(buffer, n, prev, Yuyv, roi).Failed?
  {
    var header, stream := Header(roi, sub422, compressed), Stream(lines, compressed, sub422, true);
    NoRunInHeader(header + stream, roi, sub422, compressed, n);
    assert HasPrefix(buffer, 0, header + stream, n);
    PrefixRest(buffer, 0, header, stream, n);
    PrefixPeek(buffer, 0, header + stream, n, n - 1);
    CutNotFramed(buffer, FRAME_HEADER_SIZE, lines, compressed, sub422, true, n);
    AcceptedIsFramed(buffer, n, prev, Yuyv, roi);
  }

  lemma {:induction false} StreamMarks(lines: seq<seq<Token>>, compressed: bool, sub422: bool, even: bool)
    requires Sendable(lines, compressed)
    ensures var s := Stream(lines, compressed, sub422, even); Run4(s, |s|)
    decreases |lines|
  {
    if lines != [] {
      LineBytesBound(lines[0], sub422 || even, compressed);
      StreamMarks(lines[1..], compressed, sub422, !even);
      RunBehind4(Record(lines[0], sub422 || even), Stream(lines[1..], compressed, sub422, !even));
    }
  }

  lemma RunBehind4(a: seq<Byte>, b: seq<Byte>)
    requires Run4(b, |b|)
    ensures Run4(a + b, |a + b|)
  {
    assert (a + b)[|a|..] == b;
  }

  /** A picture ends in a run of four. */
  lemma SentEnds(lines: seq<seq<Token>>, roi: Roi, sub422: bool, compressed: bool)
    requires Sendable(lines, compressed)
    ensures var picture := Sent(lines, roi, sub422, compressed); Run4(picture, |picture|)
  {
    StreamMarks(lines, compressed, sub422, true);
    RunBehind4(Header(roi, sub422, compressed), Stream(lines, compressed, sub422, true));
  }

  /** A picture with an earlier run is fetched up to that and refused. */
  lemma CutFetched(image: seq<Byte>, buffer: seq<Byte>, n: nat, lines: seq<seq<Token>>, prev: seq<Byte>, roi: Roi,
                   sub422: bool, compressed: bool)
    requires Sendable(lines, compressed) && roi.colStart < roi.colEnd && EndsAt(image, n)
    requires var picture := Sent(lines, roi, sub422, compressed); !EndsAt(picture, |picture|) && picture <= image
    requires n <= |buffer| && buffer[..n] == image[..n]
    ensures Picture(buffer, n, prev, Yuyv, roi).Failed?
  {
    var picture := Sent(lines, roi, sub422, compressed);
    SentEnds(lines, roi, sub422, compressed);
    var e :| 0 <= e <= |picture| - 1 && Run4(picture, e);
    RunInPrefix(picture, image, e);
    RunInPrefix(picture, image, n);
    assert n <= e;
    assert buffer[..n] == picture[..n];
    CutRefused(lines, roi, sub422, compressed, buffer, n, prev);
  }

  /** One turn of the loop in fetch_frame, in YUYV.  The camera sends cur, encoded
      over the frame in memory; it fits the buffer and the port keeps delivering, in
      whatever chunks.  If four end-of-image bytes in a row stand nowhere in the
      picture but at its end, the memory holds exactly cur afterwards; if they do and
      the picture has columns, it is refused.  What comes behind it makes no
      difference. */
  method FetchFrame(port: Port, buffer: array<Byte>, mem: array<Byte>, roi: Roi, ghost lines: seq<seq<Token>>,
                    ghost cur: seq<Byte>, ghost sub422: bool, ghost compressed: bool, ghost size: nat)
    returns (ret: int)
    requires port.pos <= |port.stream| && buffer.Length == MAX_IMAGE_SIZE && buffer != mem
    requires Encodes(lines, mem[..], cur, roi, sub422, compressed, size) && Sendable(lines, compressed)
    modifies port`pos, port`grants, buffer, mem
    ensures var picture := Sent(lines, roi, sub422, compressed);
      && |picture| <= MAX_IMAGE_SIZE && picture <= port.stream[old(port.pos)..]
      && old(port.Steady()) && |old(port.grants)| > MAX_IMAGE_SIZE
      ==> if NoRun(picture, |picture| - 1) then ret == size && mem[..] == cur
          else roi.colStart < roi.colEnd ==> ret == -1
  {
    ghost var prev := mem[..];
    ghost var image := port.stream[port.pos..];
    ghost var picture := Sent(lines, roi, sub422, compressed);
    SentEnds(lines, roi, sub422, compressed);
    var imageSize, got, stalled := StreamRead(port, buffer);
    if imageSize <= 0 {
      if picture <= image {
        RunInPrefix(picture, image, |picture|);
      }
      return imageSize;
    }
    ret := ParsePicture(mem, buffer[..], imageSize, Yuyv, roi);
    if picture <= image {
      if NoRun(picture, |picture| - 1) {
        PictureFetched(picture, image, buffer[..], imageSize, lines, prev, cur, roi, sub422, compressed, size);
      } else if roi.colStart < roi.colEnd {
        CutFetched(image, buffer[..], imageSize, lines, prev, roi, sub422, compressed);
      }
    }
  }
}
