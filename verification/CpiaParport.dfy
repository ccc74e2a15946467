/** The parallel port transport of the CPiA camera (video/cpia_pp.c: cpia_pp_read,
    cpia_read_nibble_stream, cpia_pp_streamRead): finding the end of an image in
    a stream that arrives in chunks of any size. */
module CpiaParport {

  import opened Basics
  import opened CpiaDecoder

  const MAX_IMAGE_SIZE: int := 352 * 288 * 2 + 64 + 288 * 3 + 5
  const CHUNK_SIZE: int := 4096

  /** Four end-of-image bytes end at e. */
  predicate Run4(s: seq<Byte>, e: int) {
    4 <= e <= |s| && s[e - 4] == EOI && s[e - 3] == EOI && s[e - 2] == EOI && s[e - 1] == EOI
  }

  predicate NoRun(s: seq<Byte>, n: int) {
    forall e | 0 <= e <= n :: !Run4(s, e)
  }

  /** The image ends at e: with the first run of four. */
  predicate EndsAt(s: seq<Byte>, e: int) {
    Run4(s, e) && NoRun(s, e - 1)
  }

  /** How many end-of-image bytes s[..n] ends with. */
  function Trailing(s: seq<Byte>, n: nat): nat
    requires n <= |s|
  {
    if n == 0 || s[n - 1] != EOI then 0 else 1 + Trailing(s, n - 1)
  }

  lemma {:induction false} TrailingAtMost(s: seq<Byte>, n: nat)
    requires n <= |s|
    ensures Trailing(s, n) <= n
  {
    if n > 0 && s[n - 1] == EOI {
      TrailingAtMost(s, n - 1);
    }
  }

  lemma TrailingIsRun(s: seq<Byte>, n: nat)
    requires n <= |s|
    ensures Trailing(s, n) >= 4 <==> Run4(s, n)
  {
    if n >= 4 {
      assert Trailing(s, n - 3) == if s[n - 4] == EOI then 1 + Trailing(s, n - 4) else 0;
      assert Trailing(s, n - 2) == if s[n - 3] == EOI then 1 + Trailing(s, n - 3) else 0;
      assert Trailing(s, n - 1) == if s[n - 2] == EOI then 1 + Trailing(s, n - 2) else 0;
    } else {
      TrailingAtMost(s, n);
    }
  }

  /** What one read of the port answers: an error, or how many bytes it got. */
  function Granted(grants: seq<int>, len: int, left: int): int {
    if grants == [] || grants[0] < 0 then -1
    else if grants[0] < len && grants[0] < left then grants[0]
    else if len < left then len else left
  }

  /** The port: the bytes the camera sends, how far they have been read and how the
      coming reads will fare (a negative number is an error; so is any later read). */
  class Port {
    const stream: seq<Byte>
    const nibble: bool
    var pos: nat
    var grants: seq<int>

    constructor (stream: seq<Byte>, nibble: bool, grants: seq<int>)
      ensures this.stream == stream && this.nibble == nibble && this.grants == grants && pos == 0
    {
      this.stream, this.nibble, this.grants, pos := stream, nibble, grants, 0;
    }

    /** No coming read fails or comes back empty while there are bytes. */
    predicate Steady()
      reads this
    {
      forall k | 0 <= k < |grants| :: grants[k] > 0
    }

    /** Bytes at.. of the buffer are the n the stream was at; the rest is as before. */
    twostate predicate Took(buffer: array<Byte>, at: nat, n: nat)
      requires at + n <= buffer.Length && old(pos) + n <= |stream|
      reads this, buffer
    {
      && pos == old(pos) + n
      && (forall k | at <= k < at + n :: buffer[k] == stream[old(pos) + (k - at)])
      && (forall k | 0 <= k < at :: buffer[k] == old(buffer[k]))
    }

    method ParportRead(buffer: array<Byte>, at: nat, len: nat) returns (n: int)
      requires at + len <= buffer.Length && pos <= |stream|
      modifies this`pos, this`grants, buffer
      ensures n == Granted(old(grants), len, |stream| - old(pos)) <= len
      ensures pos <= |stream| && Took(buffer, at, if n < 0 then 0 else n)
      ensures grants == if old(grants) == [] then [] else old(grants)[1..]
    {
      n := Granted(grants, len, |stream| - pos);
      if n > 0 {
        forall k | at <= k < at + n { buffer[k] := stream[pos + (k - at)]; }
        pos := pos + n;
      }
      grants := if grants == [] then [] else grants[1..];
    }

    /** The nibble mode read: it stops on its own after four end-of-image bytes in
        one call, or when the port times out. */
    method NibbleRead(buffer: array<Byte>, at: nat, len: nat) returns (i: nat)
      requires at + len <= buffer.Length && pos <= |stream|
      modifies this`pos, this`grants, buffer
      ensures i <= len && pos <= |stream| && old(pos) + i <= |stream| && Took(buffer, at, i)
      ensures old(Steady()) ==> Steady() && |grants| + pos + 1 >= |old(grants)| + old(pos)
      ensures old(Steady()) && old(grants) != [] && len > 0 && old(pos) < |stream| ==>
                i > 0 && |grants| + pos >= |old(grants)| + old(pos)
    {
      var patience := if grants == [] then 0 else grants[0];
      grants := if grants == [] then [] else grants[1..];
      var endseen := 0;
      i := 0;
      while i < len
        invariant i <= len && 0 <= endseen <= i
        invariant grants == if old(grants) == [] then [] else old(grants)[1..]
        invariant pos == old(pos) + i <= |stream|
        invariant Took(buffer, at, i)
      {
        if endseen > 3 {
          break;
        }
        if i >= patience || pos == |stream| {
          break;
        }
        var byte := stream[pos];
        buffer[at + i] := byte;
        pos := pos + 1;
        if byte == EOI {
          endseen := endseen + 1;
        } else {
          endseen := 0;
        }
        i := i + 1;
      }
    }

    /** The byte mode read: until len bytes are there or the port fails; then what
        there is. */
    method ByteRead(buffer: array<Byte>, at: nat, len: nat) returns (n: nat)
      requires at + len <= buffer.Length && pos <= |stream|
      modifies this`pos, this`grants, buffer
      ensures n <= len && pos <= |stream| && old(pos) + n <= |stream| && Took(buffer, at, n)
      ensures old(Steady()) ==> Steady() && (pos == |stream| || |grants| + pos >= |old(grants)| + old(pos))
      ensures old(Steady()) && old(grants) != [] && len > 0 && old(pos) < |stream| ==> n > 0
    {
      n := 0;
      while n < len
        invariant n <= len && pos == old(pos) + n <= |stream|
        invariant Took(buffer, at, n)
        invariant old(Steady()) ==> Steady() && (pos == |stream| || |grants| + pos >= |old(grants)| + old(pos))
        invariant n > 0 || grants == old(grants)
               || !(old(Steady()) && old(grants) != [] && len > 0 && old(pos) < |stream|)
        decreases |grants|
      {
        var got := ParportRead(buffer, at + n, len - n);
        if got < 0 {
          break;
        }
        n := n + got;
      }
    }

    method Read(buffer: array<Byte>, at: nat, len: nat) returns (n: nat)
      requires at + len <= buffer.Length && pos <= |stream|
      modifies this`pos, this`grants, buffer
      ensures n <= len && pos <= |stream| && old(pos) + n <= |stream| && Took(buffer, at, n)
      ensures old(Steady()) && old(grants) != [] && len > 0 && old(pos) < |stream| ==>
                n > 0 && Steady() && (pos == |stream| || |grants| + pos >= |old(grants)| + old(pos))
    {
      if nibble {
        n := NibbleRead(buffer, at, len);
      } else {
        n := ByteRead(buffer, at, len);
      }
    }
  }

  /** The search for the end in one chunk: how many of its n bytes were looked at,
      and the count of end-of-image bytes there. */
  method Scan(buffer: array<Byte>, ghost image: seq<Byte>, at: nat, n: nat, seen: nat) returns (i: nat, endseen: nat)
    requires at + n <= buffer.Length && at + n <= |image|
    requires forall k | at <= k < at + n :: buffer[k] == image[k]
    requires seen == Trailing(image, at) < 4
    ensures i <= n && endseen == Trailing(image, at + i) <= 4 && (endseen == 4 || i == n)
    ensures forall e | at < e <= at + i && Run4(image, e) :: e == at + i && endseen == 4
  {
    i, endseen := 0, seen;
    while i < n && endseen < 4
      invariant i <= n && endseen == Trailing(image, at + i) <= 4
      invariant forall e | at < e <= at + i && Run4(image, e) :: e == at + i && endseen == 4
    {
      if buffer[at + i] == EOI {
        endseen := endseen + 1;
      } else {
        endseen := 0;
      }
      i := i + 1;
      TrailingIsRun(image, at + i);
    }
  }

  /** Reading an image.  It succeeds exactly when the bytes that arrived contain a
      run of four end-of-image bytes; it returns where the first one ends, with the
      image in the buffer.  Never more than the buffer holds is asked for, and it
      gives up only when the buffer is full or a read brought nothing. */
  method StreamRead(port: Port, buffer: array<Byte>) returns (result: int, ghost got: nat, ghost stalled: bool)
    requires port.pos <= |port.stream| && buffer.Length == MAX_IMAGE_SIZE
    modifies port`pos, port`grants, buffer
    ensures old(port.pos) + got == port.pos <= |port.stream| && got <= MAX_IMAGE_SIZE
    ensures var image := port.stream[old(port.pos)..];
      && (result >= 0 ==> EndsAt(image, result) && result <= got && buffer[..result] == image[..result])
      && (result < 0 ==> result == -5 && NoRun(image, got) && (got == MAX_IMAGE_SIZE || stalled))
    ensures old(port.Steady()) && |old(port.grants)| > MAX_IMAGE_SIZE && stalled ==> port.pos == |port.stream|
  {
    ghost var start := port.pos;
    ghost var image := port.stream[start..];
    ghost var steady := port.Steady() && |port.grants| > MAX_IMAGE_SIZE;
    ghost var budget := |port.grants| + port.pos;
    var readBytes, endseen, blockSize := 0, 0, CHUNK_SIZE;
    stalled := false;
    while true
      invariant 0 <= readBytes && 0 <= blockSize <= CHUNK_SIZE && readBytes + blockSize <= MAX_IMAGE_SIZE
      invariant blockSize > 0 || readBytes == MAX_IMAGE_SIZE
      invariant start + readBytes == port.pos <= |port.stream|
      invariant forall k | 0 <= k < readBytes :: buffer[k] == image[k]
      invariant endseen == Trailing(image, readBytes) < 4 && NoRun(image, readBytes)
      invariant steady ==> port.pos == |port.stream| || (port.Steady() && |port.grants| + port.pos >= budget)
      decreases MAX_IMAGE_SIZE - readBytes
    {
      var newBytes := port.Read(buffer, readBytes, blockSize);
      if newBytes == 0 {
        stalled := blockSize > 0;
        return -5, readBytes, stalled;
      }
      var i;
      i, endseen := Scan(buffer, image, readBytes, newBytes, endseen);
      got := readBytes + newBytes;
      readBytes := readBytes + i;
      TrailingIsRun(image, readBytes);
      if endseen == 4 {
        return readBytes, got, false;
      }
      if MAX_IMAGE_SIZE - readBytes <= CHUNK_SIZE {
        blockSize := MAX_IMAGE_SIZE - readBytes;
      }
    }
  }
}
