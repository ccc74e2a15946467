/** The page ring of the Motion Eye driver (video/meye.c: ptable_copy,
    mchip_cont_read_frame, mchip_comp_read_frame): the device writes frames into a
    ring of pages and names the page a frame starts on. */
module MeyeRing {
  import opened Basics

  const PAGE_SIZE: int := 4096
  const NB_PAGES: int := 1024
  const NB_PAGES_MJPEG: int := 256
  const EOI_MARK: Byte := 0xd9

  /** The ring's bytes, page after page. */
  predicate IsRing(ring: seq<Byte>, pages: int) {
    pages > 0 && |ring| == pages * PAGE_SIZE
  }

  /** Byte x of the endless repetition of the ring. */
  function RingAt(ring: seq<Byte>, x: int): Byte
    requires |ring| > 0
  {
    ring[x % |ring|]
  }

  /** size bytes from the start of a page on, around the ring. */
  function Stretch(ring: seq<Byte>, start: int, size: nat): (r: seq<Byte>)
    requires |ring| > 0
    ensures |r| == size
  {
    seq<Byte>(size, k requires 0 <= k < size => RingAt(ring, start * PAGE_SIZE + k))
  }

  lemma MulStep(w: int, m: int)
    ensures (w + 1) * m == w * m + m
  {
  }

  /** w turns around a ring of len bytes. */
  function Turns(w: nat, len: nat): nat {
    if w == 0 then 0 else Turns(w - 1, len) + len
  }

  lemma {:induction false} ModWrapped(x: int, r: int, m: int, w: nat)
    requires 0 <= r < m && x == r + Turns(w, m)
    ensures x % m == r
    decreases w
  {
    if w > 0 {
      ModWrapped(x - m, r, m, w - 1);
      ModMinus(x, m);
    }
  }

  lemma ModMinus(x: int, m: int)
    requires m > 0
    ensures x % m == (x - m) % m
  {
    var q, r := (x - m) / m, (x - m) % m;
    assert x - m == m * q + r;
    MulStep(q, m);
    ModUnique(x, m, q + 1, r);
  }

  /** One memcpy of the loop: n bytes of page cur, which stand w turns on. */
  method CopyPage(buf: array<Byte>, i: nat, ring: seq<Byte>, pages: int, cur: int, n: nat, ghost base: int, ghost w: nat)
    requires IsRing(ring, pages) && 0 <= cur < pages && n <= PAGE_SIZE && i + n <= buf.Length
    requires base + i == cur * PAGE_SIZE + Turns(w, |ring|)
    modifies buf
    ensures forall k | i <= k < i + n :: buf[k] == RingAt(ring, base + k)
    ensures forall k | 0 <= k < i :: buf[k] == old(buf[k])
    ensures forall k | i + n <= k < buf.Length :: buf[k] == old(buf[k])
  {
    forall k | i <= k < i + n { buf[k] := ring[cur * PAGE_SIZE + (k - i)]; }
    forall k | i <= k < i + n
      ensures buf[k] == RingAt(ring, base + k)
    {
      ModWrapped(base + k, cur * PAGE_SIZE + (k - i), |ring|, w);
    }
  }

  /** ptable_copy. */
  method PtableCopy(buf: array<Byte>, ring: seq<Byte>, start: int, size: nat, pages: int)
    requires IsRing(ring, pages) && 0 <= start < pages && size <= buf.Length
    modifies buf
    ensures forall k | 0 <= k < size :: buf[k] == RingAt(ring, start * PAGE_SIZE + k)
    ensures forall k | size <= k < buf.Length :: buf[k] == old(buf[k])
  {
    var cur, i := start, 0;
    var whole := size / PAGE_SIZE * PAGE_SIZE;
    ghost var base, w, q := start * PAGE_SIZE, 0, 0;
    while i < whole
      invariant i == q * PAGE_SIZE && 0 <= q <= size / PAGE_SIZE && 0 <= cur < pages && w >= 0
      invariant base + i == cur * PAGE_SIZE + Turns(w, |ring|)
      invariant forall k | 0 <= k < i :: buf[k] == RingAt(ring, base + k)
      invariant forall k | size <= k < buf.Length :: buf[k] == old(buf[k])
    {
      CopyPage(buf, i, ring, pages, cur, PAGE_SIZE, base, w);
      cur := cur + 1;
      i := i + PAGE_SIZE;
      q := q + 1;
      if cur >= pages {
        cur := 0;
        w := w + 1;
      }
    }
    CopyPage(buf, i, ring, pages, cur, size % PAGE_SIZE, base, w);
  }

  // ------------------------------------------------------- compressed frames

  /** What the frame register says of a compressed frame. */
  function PtStart(v: nat): int { v / 0x80000 % 0x100 }

  function PtEnd(v: nat): int { v / 0x800 % 0x100 }

  function Trailer(v: nat): int { v / 2 % 0x400 }

  /** The fields of the register: a bit, the words of the last page, the pages it ends
      and starts on. */
  lemma RegisterFields(start: nat, end: nat, trailer: nat, low: nat)
    requires start < 0x100 && end < 0x100 && trailer < 0x400 && low < 2
    ensures var v := start * 0x80000 + end * 0x800 + trailer * 2 + low;
      PtStart(v) == start && PtEnd(v) == end && Trailer(v) == trailer
  {
    var v := start * 0x80000 + end * 0x800 + trailer * 2 + low;
    ModUnique(v, 0x80000, start, end * 0x800 + trailer * 2 + low);
    ModUnique(v, 0x800, start * 0x100 + end, trailer * 2 + low);
    ModUnique(v, 2, start * 0x40000 + end * 0x400 + trailer, low);
    ModUnique(v / 0x800, 0x100, start, end);
    ModUnique(v / 2, 0x400, start * 0x100 + end, trailer);
  }

  function FrameSize(v: nat): nat {
    if PtEnd(v) < PtStart(v) then
      (NB_PAGES_MJPEG - PtStart(v)) * PAGE_SIZE + PtEnd(v) * PAGE_SIZE + Trailer(v) * 4
    else (PtEnd(v) - PtStart(v)) * PAGE_SIZE + Trailer(v) * 4
  }

  /** The size is the way around the ring from the start page to the end position,
      always less than a turn. */
  lemma FrameSizeIsDistance(v: nat)
    ensures var ring := NB_PAGES_MJPEG * PAGE_SIZE;
      var end := PtEnd(v) * PAGE_SIZE + Trailer(v) * 4;
      && 0 <= end < ring && FrameSize(v) < ring
      && FrameSize(v) == (end - PtStart(v) * PAGE_SIZE) % ring
      && (PtStart(v) * PAGE_SIZE + FrameSize(v)) % ring == end
  {
    var ring := NB_PAGES_MJPEG * PAGE_SIZE;
    var end := PtEnd(v) * PAGE_SIZE + Trailer(v) * 4;
    var turns := if PtEnd(v) < PtStart(v) then 1 else 0;
    assert PtStart(v) * PAGE_SIZE + FrameSize(v) == turns * ring + end;
  }

  /** A complete JPEG image: an end marker, and before it at least one byte, with
      nothing behind it but fill bytes (Table B.1 and section B.1.1.3 of ITU-T
      Recommendation T.81). */
  predicate MarkedEnd(s: seq<Byte>, n: int) {
    3 <= n <= |s| && s[n - 2] == 0xff && s[n - 1] == EOI_MARK && forall k | n <= k < |s| :: s[k] == 0xff
  }

  ghost predicate Complete(s: seq<Byte>) {
    exists n :: MarkedEnd(s, n)
  }

  /** A compressed frame as the driver takes it: if it fits and is complete. */
  ghost function CompFrame(v: nat, ring: seq<Byte>, size: int): Option<seq<Byte>>
    requires |ring| > 0
  {
    var frame := Stretch(ring, PtStart(v), FrameSize(v));
    if FrameSize(v) <= size && Complete(frame) then Some(frame) else None
  }

  /** The loop that strips fill bytes and the test behind it. */
  method EndsComplete(buf: array<Byte>, fsize: int) returns (ok: bool)
    requires 0 <= fsize <= buf.Length
    ensures ok <==> Complete(buf[..fsize])
  {
    var i := fsize - 1;
    while i > 0 && buf[i] == 0xff
      invariant -1 <= i < fsize && (i == -1 ==> fsize == 0)
      invariant forall k | i < k < fsize :: buf[k] == 0xff
    {
      i := i - 1;
    }
    ok := !(i < 2 || buf[i - 1] != 0xff || buf[i] != EOI_MARK);
    ghost var s := buf[..fsize];
    if ok {
      assert MarkedEnd(s, i + 1);
    } else {
      forall n ensures !MarkedEnd(s, n) {
        NoEnd(s, i, n);
      }
    }
  }

  lemma NoEnd(s: seq<Byte>, i: int, n: int)
    requires -1 <= i < |s| && (i == -1 ==> |s| == 0) && forall k | i < k < |s| :: s[k] == 0xff
    requires i > 0 ==> s[i] != 0xff
    requires i < 2 || s[i - 1] != 0xff || s[i] != EOI_MARK
    ensures !MarkedEnd(s, n)
  {
  }

  /** mchip_comp_read_frame. */
  method CompReadFrame(v: nat, buf: array<Byte>, ring: seq<Byte>, size: int) returns (fsize: int)
    requires IsRing(ring, NB_PAGES_MJPEG) && buf.Length >= NB_PAGES_MJPEG * PAGE_SIZE
    modifies buf
    ensures var r := CompFrame(v, ring, size);
      (fsize == -1 <==> r.None?) && (r.Some? ==> fsize == |r.value| && buf[..fsize] == r.value)
  {
    var start, end, trailer := v / 0x80000 % 0x100, v / 0x800 % 0x100, v / 2 % 0x400;
    if end < start {
      fsize := (NB_PAGES_MJPEG - start) * PAGE_SIZE + end * PAGE_SIZE + trailer * 4;
    } else {
      fsize := (end - start) * PAGE_SIZE + trailer * 4;
    }
    if fsize > size {
      return -1;
    }
    FrameSizeIsDistance(v);
    PtableCopy(buf, ring, start, fsize, NB_PAGES_MJPEG);
    assert buf[..fsize] == Stretch(ring, PtStart(v), FrameSize(v));
    var ok := EndsComplete(buf, fsize);
    if !ok {
      return -1;
    }
  }

  /** mchip_cont_read_frame. */
  method ContReadFrame(v: nat, buf: array<Byte>, ring: seq<Byte>, size: nat)
    requires IsRing(ring, NB_PAGES) && size <= buf.Length
    modifies buf
    ensures buf[..size] == Stretch(ring, v / 0x20000 % 0x400, size)
  {
    PtableCopy(buf, ring, v / 0x20000 % 0x400, size, NB_PAGES);
  }

  /** A frame no longer than the ring repeats none of its bytes. */
  lemma NoLap(v: nat, j: nat, k: nat)
    requires j < k < FrameSize(v)
    ensures var ring := NB_PAGES_MJPEG * PAGE_SIZE;
      (PtStart(v) * PAGE_SIZE + j) % ring != (PtStart(v) * PAGE_SIZE + k) % ring
  {
    FrameSizeIsDistance(v);
  }
}
