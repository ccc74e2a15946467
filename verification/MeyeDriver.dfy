/** The driver's functions as they change its state (video/meye.c), each proved to
    be the step of the protocol it stands for. */
module MeyeDriver {
  import opened Basics
  import opened MeyeRing
  import opened MeyeQueues

  predicate Readable(mode: Mode, fs: seq<Frame>) {
    forall k | 0 <= k < |fs| :: IsRing(fs[k].ring, if mode.ContOut? then NB_PAGES else NB_PAGES_MJPEG)
  }

  class Driver {
    const c: Config
    const grabTemp: array<Byte>
    var bufs: Grabs
    var grabq: seq<Index>
    var doneq: seq<Index>
    var sequence: int
    var fnum: int

    function Get(): Meye
      reads this
    {
      Meye(bufs, grabq, doneq, sequence, fnum)
    }

    ghost predicate Valid()
      reads this
    {
      Inv(Get()) && grabTemp.Length >= NB_PAGES_MJPEG * PAGE_SIZE
    }

    constructor (c: Config)
      ensures Valid() && Initial(Get()) && this.c == c && fresh(grabTemp)
    {
      this.c := c;
      grabTemp := new Byte[NB_PAGES_MJPEG * PAGE_SIZE];
      bufs := seq(MAX_BUFNBRS, _ => Grab(Unused, 0, []));
      grabq, doneq, sequence, fnum := [], [], 0, 0;
    }

    method Qbuf(i: nat) returns (ok: bool)
      requires Valid()
      modifies this`bufs, this`grabq
      ensures Valid() && Get() == old(Get()).Step(c, MeyeQueues.Qbuf(i)) && ok == (i < c.buffers && i !in old(Get()).Line())
    {
      InvStep(Get(), c, MeyeQueues.Qbuf(i));
      if i < MAX_BUFNBRS {
        CanQueueIff(Get(), c, i);
      }
      if i >= c.buffers {
        return false;
      }
      if bufs[i].state != Unused {
        return false;
      }
      bufs := bufs[i := bufs[i].(state := Using)];
      grabq := Put(grabq, i);
      ok := true;
    }

    /** dqbuf once there is a done buffer, or without waiting for one. */
    method Dqbuf() returns (r: Reply)
      requires Valid()
      modifies this`bufs, this`doneq
      ensures Valid() && Get() == old(Get()).Step(c, MeyeQueues.Dqbuf) && r == old(Get()).Reply()
    {
      InvStep(Get(), c, MeyeQueues.Dqbuf);
      if doneq == [] {
        return Again;
      }
      var reqnr := doneq[0];
      doneq := doneq[1..];
      if bufs[reqnr].state != Done {
        return Invalid;
      }
      r := Got(Delivery(reqnr, bufs[reqnr].sequence, bufs[reqnr].data));
      bufs := bufs[reqnr := bufs[reqnr].(state := Unused)];
    }

    method Streamoff()
      requires Valid()
      modifies this`bufs, this`grabq, this`doneq
      ensures Valid() && Get() == old(Get()).Step(c, MeyeQueues.Streamoff)
      ensures grabq == [] && doneq == [] && forall i: Index :: bufs[i].state == Unused
    {
      InvStep(Get(), c, MeyeQueues.Streamoff);
      grabq, doneq := [], [];
      var i := 0;
      while i < MAX_BUFNBRS
        invariant 0 <= i <= MAX_BUFNBRS && grabq == [] && doneq == []
        invariant forall k | 0 <= k < i :: bufs[k] == old(bufs)[k].(state := Unused)
        invariant forall k | i <= k < MAX_BUFNBRS :: bufs[k] == old(bufs)[k]
      {
        bufs := bufs[i := bufs[i].(state := Unused)];
        i := i + 1;
      }
      assert bufs == old(Get()).Reset().bufs;
    }

    method FreeFrame()
      modifies this`fnum
      ensures Get() == old(Get()).FreeFrame()
    {
      fnum := fnum + 1;
      fnum := fnum % 4;
    }

    /** The end of a turn of the interrupt loop: buffer reqnr has been filled. */
    method Finish(reqnr: Index, data: seq<Byte>)
      modifies this`bufs, this`doneq, this`sequence
      ensures bufs == old(bufs)[reqnr := Grab(Done, old(sequence), data)]
      ensures doneq == Put(old(doneq), reqnr) && sequence == old(sequence) + 1
    {
      bufs := bufs[reqnr := bufs[reqnr].(data := data)];
      bufs := bufs[reqnr := bufs[reqnr].(state := Done)];
      bufs := bufs[reqnr := bufs[reqnr].(sequence := sequence)];
      sequence := sequence + 1;
      doneq := Put(doneq, reqnr);
    }

    /** One turn in uncompressed mode; without a queued buffer the handler returns. */
    method ContinuousTurn(f: Frame) returns (again: bool)
      requires IsRing(f.ring, NB_PAGES)
      modifies this`bufs, this`grabq, this`doneq, this`sequence, this`fnum
      ensures Get() == old(Get()).Serve(c, ContOut, f) && again == (old(grabq) != [])
    {
      if grabq == [] {
        FreeFrame();
        return false;
      }
      var reqnr := grabq[0];
      grabq := grabq[1..];
      var area := new Byte[c.image];
      ContReadFrame(f.v, area, f.ring, c.image);
      assert area[..] == area[..c.image];
      Finish(reqnr, area[..]);
      FreeFrame();
      again := true;
    }

    /** One turn in compressed mode. */
    method CompressedTurn(f: Frame)
      requires IsRing(f.ring, NB_PAGES_MJPEG) && grabTemp.Length >= NB_PAGES_MJPEG * PAGE_SIZE
      modifies this`bufs, this`grabq, this`doneq, this`sequence, this`fnum, grabTemp
      ensures Get() == old(Get()).Serve(c, ContComp, f)
    {
      var size := CompReadFrame(f.v, grabTemp, f.ring, c.size);
      if size == -1 {
        FreeFrame();
        return;
      }
      if grabq == [] {
        FreeFrame();
        return;
      }
      var reqnr := grabq[0];
      grabq := grabq[1..];
      Finish(reqnr, grabTemp[..size]);
      FreeFrame();
    }

    /** The interrupt handler, on the frames it finds ready. */
    method Irq(mode: Mode, fs: seq<Frame>)
      requires Valid() && Readable(mode, fs)
      modifies this`bufs, this`grabq, this`doneq, this`sequence, this`fnum, grabTemp
      ensures Valid() && Get() == old(Get()).Step(c, MeyeQueues.Irq(mode, fs))
    {
      InvStep(Get(), c, MeyeQueues.Irq(mode, fs));
      if mode != ContOut && mode != ContComp {
        return;
      }
      var k := 0;
      while k < |fs|
        invariant 0 <= k <= |fs|
        invariant Get().Service(c, mode, fs[k..]) == old(Get()).Service(c, mode, fs)
      {
        ghost var rest := fs[k..];
        assert rest[0] == fs[k] && rest[1..] == fs[k + 1..];
        if mode == ContOut {
          var again := ContinuousTurn(fs[k]);
          if !again {
            return;
          }
        } else {
          CompressedTurn(fs[k]);
        }
        k := k + 1;
      }
    }
  }
}
