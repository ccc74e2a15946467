/** The cafe_camera structure and the functions that update it in place
    (video/cafe_ccic.c), one method for each stretch of code that keeps its lock;
    CafeProtocol says what each does and proves what all of them keep. */
module CafeCamera {
  import opened CafeProtocol

  /** What an ioctl or read returns, or Held when it goes on to its next stretch
      with s_mutex held, or Waits when dqbuf lets go of it to sleep. */
  datatype Ret = Ok | EINVAL | EBUSY | EAGAIN | EINTR | EIO | Held | Waits

  class Camera {
    var mode: Mode
    var enabled: bool
    var nextBuf: int
    var valid: seq<bool>
    var specFrames: nat
    var sequence: nat
    var bufSeq: seq<nat>
    var sb: seq<SioBuf>
    var avail: seq<nat>
    var full: seq<nat>
    var tasklet: Tasklet
    var pending: bool
    var holder: Holder

    constructor (nbufs: nat)
      requires 2 <= nbufs <= 3
      ensures Valid() && Initial(Get()) && |valid| == nbufs
    {
      mode, enabled := Idle, false;
      nextBuf, valid, specFrames := -1, seq(nbufs, _ => false), 0;
      sequence, bufSeq := 0, seq(nbufs, _ => 0);
      sb, avail, full := [], [], [];
      tasklet, pending, holder := Resting, false, Nobody;
    }

    function Get(): Cam
      reads this
    {
      Cam(mode, enabled, nextBuf, valid, specFrames, sequence, bufSeq, sb, avail, full, tasklet, pending, holder)
    }

    /** What CafeProtocol proves of every run holds between any two calls. */
    ghost predicate Valid()
      reads this
    {
      Inv(Get())
    }

    /** cafe_reset_buffers. */
    method ResetBuffers()
      modifies this`nextBuf, this`valid, this`specFrames
      ensures Get() == old(Get()).ResetBuffers()
    {
      nextBuf := -1;
      for i := 0 to |valid|
        invariant nextBuf == -1 && |valid| == old(|valid|)
        invariant forall j :: 0 <= j < i ==> !valid[j]
      {
        valid := valid[i := false];
      }
      specFrames := 0;
      assert valid == seq(|valid|, _ => false);
    }

    /** cafe_read_setup, past its configuration steps. */
    method ReadSetup(state: Mode)
      modifies this
      ensures Get() == old(Get()).Setup(state)
    {
      ResetBuffers();
      mode := state;
      enabled := true;
    }

    /** cafe_ctlr_stop_dma up to its wait for the end of DMA. */
    method StopDma(cause: Cause)
      modifies this`enabled, this`holder
      ensures Get() == old(Get()).Stop(cause)
    {
      enabled := false;
      holder := Stopping(cause);
    }

    /** The rest of it, after the wait, and what streamoff or read return then; reqbufs
        goes on. */
    method StopDone() returns (ret: Ret)
      requires Valid() && Get().Enabled(StopIdle)
      modifies this
      ensures Valid() && Get() == old(Get()).Step(StopIdle)
      ensures ret == match old(holder).cause case Off => Ok case GivenUp => Held case TimedOut => EIO
    {
      InvStep(Get(), StopIdle);
      mode := Idle;
      match holder.cause {
        case Off =>
          holder := Nobody;
          return Ok;
        case GivenUp =>
          holder := Freeing;
          return Held;
        case TimedOut =>
          holder := Nobody;
          return EIO;
      }
    }

    /** cafe_vidioc_qbuf up to taking dev_lock. */
    method Qbuf(index: nat) returns (ret: Ret)
      requires Valid() && Get().Enabled(QbufFlag(index))
      modifies this
      ensures Valid() && Get() == old(Get()).Step(QbufFlag(index))
      ensures ret == if index >= |old(sb)| then EINVAL
                     else if WithUser(old(Get()), index) then Held
                     else if index in old(full) || JustCopied(old(Get()), index) then EBUSY
                     else Ok
    {
      InvStep(Get(), QbufFlag(index));
      if index >= |sb| {
        return EINVAL;
      }
      if sb[index].queued {
        return Ok;
      }
      if sb[index].done {
        return EBUSY;
      }
      sb := sb[index := sb[index].(queued := true)];
      holder := Queueing(index);
      return Held;
    }

    /** cafe_vidioc_qbuf from taking dev_lock: the buffer goes to the head. */
    method QbufList()
      requires Valid() && Get().Enabled(QbufAdd)
      modifies this
      ensures Valid() && Get() == old(Get()).Step(QbufAdd)
    {
      InvStep(Get(), QbufAdd);
      avail := [holder.sbuf] + avail;
      holder := Nobody;
    }

    /** cafe_vidioc_dqbuf from taking s_mutex, on entry or after a wait, to the end
        of its wait loop. */
    method DqbufWait(again: bool, nonblock: bool) returns (ret: Ret)
      requires Valid() && Get().Enabled(DqbufLook)
      modifies this
      ensures Valid() && Get() == old(Get()).Step(DqbufLook)
      ensures ret == if mode != Streaming then (if again then EINTR else EINVAL)
                     else if full != [] then Held
                     else if nonblock && !again then EAGAIN
                     else Waits
    {
      InvStep(Get(), DqbufLook);
      if !again {
        if mode != Streaming {
          return EINVAL;
        }
        if full == [] && nonblock {
          return EAGAIN;
        }
      }
      if full == [] && mode == Streaming {
        return Waits;
      }
      if mode != Streaming {
        return EINTR;
      }
      holder := Checked;
      return Held;
    }

    /** cafe_vidioc_dqbuf under dev_lock: unlinks the first buffer of sb_full. */
    method DqbufUnlink()
      requires Valid() && Get().Enabled(DqbufTake)
      modifies this
      ensures Valid() && Get() == old(Get()).Step(DqbufTake)
      ensures old(full) != [] && holder == Taken(old(full)[0]) && sb[old(full)[0]].done
    {
      InvStep(Get(), DqbufTake);
      var sbuf := full[0];
      full := full[1..];
      holder := Taken(sbuf);
    }

    method DqbufReturn() returns (index: nat)
      requires Valid() && Get().Enabled(DqbufFinish)
      modifies this
      ensures Valid() && Get() == old(Get()).Step(DqbufFinish)
      ensures old(Get()).Effects(DqbufFinish) == [Returned(index)] && WithUser(Get(), index)
      ensures index < |sb| && old(sb)[index].done && !sb[index].done && !sb[index].queued
    {
      InvStep(Get(), DqbufFinish);
      index := holder.sbuf;
      sb := sb[index := sb[index].(done := false)];
      holder := Nobody;
    }

    method Streamon() returns (ret: Ret)
      requires Valid() && Get().Enabled(StreamOn)
      modifies this
      ensures Valid() && Get() == old(Get()).Step(StreamOn)
      ensures ret == if old(mode) != Idle || old(sb) == [] then EINVAL else Ok
    {
      InvStep(Get(), StreamOn);
      if mode != Idle || |sb| == 0 {
        return EINVAL;
      }
      sequence := 0;
      ReadSetup(Streaming);
      return Ok;
    }

    method Streamoff() returns (ret: Ret)
      requires Valid() && Get().Enabled(StreamOff)
      modifies this
      ensures Valid() && Get() == old(Get()).Step(StreamOff)
      ensures ret == if old(mode) != Streaming then EINVAL else Held
    {
      InvStep(Get(), StreamOff);
      if mode != Streaming {
        return EINVAL;
      }
      StopDma(Off);
      return Held;
    }

    /** cafe_free_sio_buffers, which any mapped buffer prevents. */
    method FreeSioBuffers(mapped: bool) returns (ret: Ret)
      modifies this
      ensures Get() == if mapped then old(Get()) else old(Get()).(sb := [], avail := [], full := [])
      ensures ret == if mapped then EBUSY else Ok
    {
      if mapped {
        return EBUSY;
      }
      sb := [];
      avail := [];
      full := [];
      return Ok;
    }

    /** cafe_vidioc_reqbufs; count is what the limits and memory allow. */
    method Reqbufs(count: nat, mapped: bool, foreign: bool) returns (ret: Ret)
      requires Valid() && Get().Enabled(ReqBufs(count, mapped, foreign))
      modifies this
      ensures Valid() && Get() == old(Get()).Step(ReqBufs(count, mapped, foreign))
      ensures ret == if count == 0 && old(mode) == Streaming then Held
                     else if !mapped && (count == 0 || (old(mode) == Idle && !foreign)) then Ok else EBUSY
      ensures ret == Ok ==> |sb| == count && forall b :: 0 <= b < count ==> WithUser(Get(), b)
      ensures ret != Ok ==> sb == old(sb) && avail == old(avail) && full == old(full)
    {
      InvStep(Get(), ReqBufs(count, mapped, foreign));
      if count == 0 {
        if mode == Streaming {
          StopDma(GivenUp);
          return Held;
        }
        ret := FreeSioBuffers(mapped);
        return;
      }
      if mode != Idle || foreign {
        return EBUSY;
      }
      if |sb| > 0 {
        ret := FreeSioBuffers(mapped);
        if ret != Ok {
          return;
        }
      }
      NoBuffersNoLists(Get());
      while |sb| < count
        invariant |sb| <= count
        invariant forall i :: 0 <= i < |sb| ==> sb[i] == SioBuf(false, false, 0)
        invariant Get() == old(Get()).(sb := sb, avail := [], full := [])
      {
        sb := sb + [SioBuf(false, false, 0)];
      }
      assert sb == seq(count, _ => SioBuf(false, false, 0));
      return Ok;
    }

    /** cafe_vidioc_reqbufs for no buffers, after it has stopped the controller. */
    method ReqbufsFrees(mapped: bool) returns (ret: Ret)
      requires Valid() && Get().Enabled(FreeBufs(mapped))
      modifies this
      ensures Valid() && Get() == old(Get()).Step(FreeBufs(mapped))
      ensures ret == (if mapped then EBUSY else Ok) && (ret == Ok ==> sb == [] && avail == [] && full == [])
    {
      InvStep(Get(), FreeBufs(mapped));
      ret := FreeSioBuffers(mapped);
      holder := Nobody;
    }

    /** The first look cafe_v4l_read takes at the state. */
    method Read() returns (ret: Ret)
      requires Valid() && Get().Enabled(ReadEnter)
      modifies this
      ensures Valid() && Get() == old(Get()).Step(ReadEnter)
      ensures ret == if old(mode) == Flaked || old(mode) == NotReady then EIO
                     else if old(mode) != Idle && old(mode) != SpecRead then EBUSY
                     else Held
    {
      InvStep(Get(), ReadEnter);
      if mode == SpecRead {
        if nextBuf >= 0 {
          holder := ReadFirst;
          return Held;
        }
      } else if mode == Flaked || mode == NotReady {
        return EIO;
      } else if mode != Idle {
        return EBUSY;
      }
      holder := ReadAgain;
      return Held;
    }

    /** cafe_v4l_read with nothing to deliver, or after a first delivery of no bytes,
        which it takes for none: the owner is checked and a capture set up. */
    method ReadGoesOn(foreign: bool) returns (ret: Ret)
      requires Valid() && Get().Enabled(ReadOn(foreign))
      modifies this
      ensures Valid() && Get() == old(Get()).Step(ReadOn(foreign))
      ensures ret == if foreign then EBUSY else Held
    {
      InvStep(Get(), ReadOn(foreign));
      if foreign {
        holder := Nobody;
        return EBUSY;
      }
      if mode != SpecRead {
        ReadSetup(SingleRead);
      }
      holder := ReadWaiting;
      return Held;
    }

    /** cafe_v4l_read after its wait, for a frame or a timeout. */
    method ReadAwake()
      requires Valid() && Get().Enabled(ReadWake)
      modifies this
      ensures Valid() && Get() == old(Get()).Step(ReadWake)
      ensures holder == if old(nextBuf) < 0 then Stopping(TimedOut) else ReadReady
    {
      InvStep(Get(), ReadWake);
      if nextBuf < 0 {
        StopDma(TimedOut);
        return;
      }
      holder := ReadReady;
    }

    /** cafe_deliver_buffer under dev_lock. */
    method DeliverBuffer() returns (ok: bool, bufno: nat)
      requires nextBuf < |valid|
      modifies this`valid, this`nextBuf, this`specFrames
      ensures ok == (old(nextBuf) >= 0)
      ensures Get() == if ok then old(Get()).DeliverNext() else old(Get())
      ensures ok ==> bufno == old(nextBuf)
    {
      if nextBuf < 0 {
        return false, 0;
      }
      bufno := nextBuf;
      valid := valid[bufno := false];
      nextBuf := nextBuf + 1;
      if nextBuf >= |valid| {
        nextBuf := 0;
      }
      if !valid[nextBuf] {
        nextBuf := -1;
      }
      specFrames := 0;
      ok := true;
    }

    /** A delivery of len bytes and what read does then: there is always a next
        buffer, but of a first one of no bytes read does not take notice. */
    method ReadDelivers(len: nat) returns (ret: Ret, bufno: nat)
      requires Valid() && holder.Delivers()
      modifies this
      ensures Valid() && Get() == old(Get()).Step(Delivery(old(holder), len))
      ensures ret == if old(holder) == ReadFirst && len == 0 then Held else Ok
      ensures old(Get()).Effects(Delivery(old(holder), len)) == [Delivered(bufno)]
    {
      InvStep(Get(), Delivery(holder, len));
      var ok;
      ok, bufno := DeliverBuffer();
      if ok && len == 0 && holder == ReadFirst {
        holder := ReadAgain;
        return Held, bufno;
      }
      holder := Nobody;
      ret := if ok then Ok else EIO;
    }

    method FrameComplete(frame: nat)
      requires frame < |valid| == |bufSeq|
      modifies this
      ensures Get() == old(Get()).FrameComplete(frame)
    {
      valid := valid[frame := true];
      if nextBuf < 0 {
        nextBuf := frame;
      }
      sequence := sequence + 1;
      bufSeq := bufSeq[frame := sequence];
      Advance();
    }

    /** The switch at its end. */
    method Advance()
      modifies this`mode, this`specFrames, this`enabled, this`pending
      ensures Get() == old(Get()).Advance()
    {
      match mode {
        case SingleRead =>
          mode := SpecRead;
          specFrames := 0;
        case SpecRead =>
          specFrames := specFrames + 1;
          if specFrames >= |valid| {
            enabled := false;
            mode := Idle;
          }
        case Streaming =>
          pending := true;
        case _ =>
      }
    }

    /** cafe_frame_irq: every frame whose end-of-frame bit is set. */
    method FrameIrq(irqs: seq<bool>)
      requires Valid() && |irqs| == |valid|
      modifies this
      ensures Valid() && Get() == CompleteAll(old(Get()), irqs, |irqs|)
    {
      for frame := 0 to |irqs|
        invariant |valid| == |bufSeq| == |irqs|
        invariant Get() == CompleteAll(old(Get()), irqs, frame)
      {
        if irqs[frame] {
          FrameComplete(frame);
        }
      }
      InterruptIsRun(old(Get()), irqs, |irqs|);
      InvRun(old(Get()), Completions(irqs, |irqs|));
    }

    /** The loop of cafe_frame_tasklet from turn i, with dev_lock held, until it
        drops the lock to copy or ends. */
    method TaskletLoop(i0: nat)
      requires Get().Shaped()
      modifies this`nextBuf, this`valid, this`tasklet
      ensures Get() == old(Get()).TaskLoop(i0)
    {
      var i := i0;
      while i < |valid|
        invariant Get().Shaped() && valid == old(valid) && tasklet == old(tasklet)
        invariant Get().TaskLoop(i) == old(Get()).TaskLoop(i0)
        decreases |valid| - i
      {
        var bufno := nextBuf;
        if bufno < 0 {
          break;
        }
        nextBuf := nextBuf + 1;
        if nextBuf >= |valid| {
          nextBuf := 0;
        }
        i := i + 1;
        if !valid[bufno] {
          continue;
        }
        if avail == [] {
          break;
        }
        valid := valid[bufno := false];
        tasklet := Copying(i - 1, bufno, avail[0]);
        return;
      }
      tasklet := Resting;
    }

    method TaskletStart()
      requires Valid() && Get().Enabled(TaskStart)
      modifies this
      ensures Valid() && Get() == old(Get()).Step(TaskStart)
    {
      InvStep(Get(), TaskStart);
      pending := false;
      TaskletLoop(0);
    }

    /** The copy of cafe_frame_tasklet, without dev_lock. */
    method TaskletCopy()
      requires Valid() && Get().Enabled(TaskCopy)
      modifies this
      ensures Valid() && Get() == old(Get()).Step(TaskCopy)
      ensures tasklet.Copied? && old(sb)[tasklet.sbuf].queued && !sb[tasklet.sbuf].queued && tasklet.sbuf in avail
    {
      CopyKeeps(Get());
      CopyFrame();
    }

    method CopyFrame()
      requires Get().Shaped() && tasklet.Copying?
      modifies this`sb, this`tasklet
      ensures Get() == old(Get()).FinishCopy()
    {
      var sbuf := tasklet.sbuf;
      sb := sb[sbuf := sb[sbuf].(sequence := bufSeq[tasklet.bufno])];
      sb := sb[sbuf := sb[sbuf].(queued := false)];
      sb := sb[sbuf := sb[sbuf].(done := true)];
      tasklet := Copied(tasklet.i, sbuf);
    }

    /** cafe_frame_tasklet with dev_lock again: moves the buffer and goes on. */
    method TaskletRetake()
      requires Valid() && Get().Enabled(TaskRetake)
      modifies this
      ensures Valid() && Get() == old(Get()).Step(TaskRetake)
      ensures full == old(full) + [old(tasklet.sbuf)] && old(tasklet.sbuf) !in avail && old(tasklet.sbuf) !in old(full)
    {
      RetakeKeeps(Get());
      MoveFilled();
    }

    method MoveFilled()
      requires Get().Shaped() && tasklet.Copied?
      modifies this`avail, this`full, this`nextBuf, this`valid, this`tasklet
      ensures Get() == old(Get()).Step(TaskRetake)
      ensures avail == Remove(old(avail), old(tasklet.sbuf)) && full == old(full) + [old(tasklet.sbuf)]
    {
      var i, sbuf := tasklet.i, tasklet.sbuf;
      ShapedMoved(Get());
      avail := Remove(avail, sbuf);
      full := full + [sbuf];
      TaskletLoop(i + 1);
    }
  }

  /** What read does with len bytes to deliver: of a first delivery that delivers
      nothing it does not take notice. */
  function Delivery(h: Holder, len: nat): Event {
    if h == ReadFirst && len == 0 then DeliverNothing else Deliver
  }

  /** A copy always goes into a buffer that is queued and waits. */
  lemma CopyKeeps(s: Cam)
    requires Inv(s) && s.Enabled(TaskCopy)
    ensures Inv(s.Step(TaskCopy)) && s.sb[s.tasklet.sbuf].queued && s.tasklet.sbuf in s.avail
  {
    InvStep(s, TaskCopy);
  }

  /** The buffer copied waits no longer, and was not full before. */
  lemma RetakeKeeps(s: Cam)
    requires Inv(s) && s.Enabled(TaskRetake)
    ensures Inv(s.Step(TaskRetake)) && s.tasklet.sbuf !in s.full && s.tasklet.sbuf !in Remove(s.avail, s.tasklet.sbuf)
  {
    InvStep(s, TaskRetake);
    RemoveFacts(s.avail, s.tasklet.sbuf);
  }

  lemma NoBuffersNoLists(s: Cam)
    requires s.Shaped()
    ensures s.avail != [] || s.full != [] ==> s.sb != []
  {
    if s.avail != [] {
      assert s.avail[0] in s.avail;
    }
    if s.full != [] {
      assert s.full[0] in s.full;
    }
  }

  /** An interrupt whose first n end-of-frame bits are handled. */
  function CompleteAll(s: Cam, irqs: seq<bool>, n: nat): (t: Cam)
    requires n <= |irqs| == |s.valid| == |s.bufSeq|
    ensures |t.valid| == |s.valid| == |t.bufSeq|
  {
    if n == 0 then s
    else if irqs[n - 1] then CompleteAll(s, irqs, n - 1).FrameComplete(n - 1)
    else CompleteAll(s, irqs, n - 1)
  }

  function Completions(irqs: seq<bool>, n: nat): seq<Event>
    requires n <= |irqs|
  {
    if n == 0 then [] else Completions(irqs, n - 1) + (if irqs[n - 1] then [Frame(n - 1)] else [])
  }

  /** An interrupt is a run of frame events, one for each bit set. */
  lemma {:induction false} InterruptIsRun(s: Cam, irqs: seq<bool>, n: nat)
    requires s.Shaped() && n <= |irqs| == |s.valid|
    ensures Run(s, Completions(irqs, n)) && Final(s, Completions(irqs, n)) == CompleteAll(s, irqs, n)
    ensures CompleteAll(s, irqs, n).Shaped()
  {
    if n > 0 {
      InterruptIsRun(s, irqs, n - 1);
      if irqs[n - 1] {
        FrameShaped(CompleteAll(s, irqs, n - 1), n - 1);
        RunExtend(s, Completions(irqs, n - 1), Frame(n - 1));
      } else {
        assert Completions(irqs, n) == Completions(irqs, n - 1);
      }
    }
  }

  lemma FrameShaped(s: Cam, f: nat)
    requires s.Shaped() && f < |s.valid|
    ensures s.Step(Frame(f)).Shaped()
  {
  }

  lemma {:induction false} RunExtend(s: Cam, es: seq<Event>, e: Event)
    requires Run(s, es) && Final(s, es).Shaped() && Final(s, es).Enabled(e) && Final(s, es).Step(e).Shaped()
    ensures Run(s, es + [e]) && Final(s, es + [e]) == Final(s, es).Step(e)
    decreases |es|
  {
    if es == [] {
      assert ([] + [e])[1..] == [];
    } else {
      assert (es + [e])[1..] == es[1..] + [e];
      RunExtend(s.Step(es[0]), es[1..], e);
    }
  }
}
