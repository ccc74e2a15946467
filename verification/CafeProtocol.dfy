/** The buffer protocol of the Cafe CCIC camera driver (video/cafe_ccic.c): the
    DMA ring, the two lists of streaming buffers and their flags, shared by the
    ioctls (under s_mutex), the frame interrupt (under dev_lock) and the frame
    tasklet, which drops dev_lock while it copies.  An event is a section of code
    that neither sleeps nor drops the lock it runs under; between any two of them
    the others may go on. */
module CafeProtocol {
  import opened Basics

  datatype Mode = NotReady | Idle | Flaked | SingleRead | SpecRead | Streaming

  /** A cafe_sio_buffer: the QUEUED and DONE flags and the frame number. */
  datatype SioBuf = SioBuf(queued: bool, done: bool, sequence: nat)

  /** Where the frame tasklet is: not running, copying DMA buffer bufno to
      streaming buffer sbuf in turn i of its loop, or done copying and about to
      take dev_lock again. */
  datatype Tasklet = Resting | Copying(i: nat, bufno: nat, sbuf: nat) | Copied(i: nat, sbuf: nat)

  /** What the holder of s_mutex is in the middle of: nobody holds it; qbuf has
      set QUEUED but not yet added the buffer; dqbuf has left its wait loop;
      dqbuf has unlinked a buffer but not yet cleared DONE; read found a frame of
      a speculative capture and is about to deliver it; it found none, or has
      delivered no bytes of it, and goes on; it waits for a frame; it has seen one
      and is about to deliver it; the controller is off and DMA may still end;
      reqbufs, with the controller stopped, is about to free the buffers. */
  datatype Holder =
    | Nobody
    | Queueing(sbuf: nat)
    | Checked
    | Taken(sbuf: nat)
    | ReadFirst
    | ReadAgain
    | ReadWaiting
    | ReadReady
    | Stopping(cause: Cause)
    | Freeing
  {
    predicate Delivers() { ReadFirst? || ReadReady? }
  }

  /** Who stops the controller: streamoff, reqbufs, or a read that timed out. */
  datatype Cause = Off | GivenUp | TimedOut

  /** foreign: another file owns the device; mapped: some buffer is mapped. */
  datatype Event =
    | QbufFlag(index: nat)
    | QbufAdd
    | DqbufLook
    | DqbufTake
    | DqbufFinish
    | StreamOn
    | StreamOff
    | ReqBufs(count: nat, mapped: bool, foreign: bool)
    | ReadEnter
    | ReadOn(foreign: bool)
    | ReadWake
    | Deliver
    | DeliverNothing
    | StopIdle
    | FreeBufs(mapped: bool)
    | Frame(frame: nat)
    | TaskStart
    | TaskCopy
    | TaskRetake
  {
    predicate Delivers() { Deliver? || DeliverNothing? }
  }

  /** What an event does that others can see: a frame completed in DMA buffer f;
      it was handed to read, or taken by the tasklet; all were reset; a buffer
      was moved to sb_full; dqbuf returned it; the lists were emptied; a buffer joined
      the waiting ones; it was filled with the frame in f. */
  datatype Effect =
    | Completed(f: nat)
    | Delivered(f: nat)
    | Took(f: nat)
    | Reset
    | Moved(b: nat)
    | Returned(b: nat)
    | Emptied
    | Queued(b: nat)
    | Filled(b: nat, f: nat)

  function Remove(s: seq<nat>, b: nat): seq<nat> {
    if s == [] then [] else (if s[0] == b then [] else [s[0]]) + Remove(s[1..], b)
  }

  datatype Cam = Cam(
    mode: Mode, enabled: bool,
    nextBuf: int, valid: seq<bool>, specFrames: nat, sequence: nat, bufSeq: seq<nat>,
    sb: seq<SioBuf>, avail: seq<nat>, full: seq<nat>,
    tasklet: Tasklet, pending: bool, holder: Holder)
  {
    function NBufs(): nat { |valid| }

    /** The DMA buffer after n in the ring. */
    function After(n: nat): nat {
      if n + 1 >= NBufs() then 0 else n + 1
    }

    /** cafe_reset_buffers. */
    function ResetBuffers(): Cam {
      this.(nextBuf := -1, valid := seq(NBufs(), _ => false), specFrames := 0)
    }

    /** cafe_read_setup, past its configuration steps. */
    function Setup(m: Mode): Cam {
      ResetBuffers().(mode := m, enabled := true)
    }

    /** cafe_ctlr_stop_dma up to its wait. */
    function Stop(cause: Cause): Cam {
      this.(enabled := false, holder := Stopping(cause))
    }

    /** Whether reqbufs gives the buffers up at once. */
    predicate Frees(count: nat, mapped: bool, foreign: bool) {
      !mapped && if count == 0 then mode != Streaming else mode == Idle && !foreign
    }

    /** Read is about to set a capture up. */
    predicate SetsUp() {
      holder == ReadAgain && mode != SpecRead
    }

    /** Read without a frame at hand: sets a capture up if none runs, and waits. */
    function Settled(foreign: bool): Cam {
      if foreign then this.(holder := Nobody)
      else (if mode == SpecRead then this else Setup(SingleRead)).(holder := ReadWaiting)
    }

    predicate CanQueue(index: nat) {
      index < |sb| && !sb[index].queued && !sb[index].done
    }

    /** cafe_frame_complete. */
    function FrameComplete(f: nat): Cam
      requires f < |valid| == |bufSeq|
    {
      var s := this.(valid := valid[f := true],
                     nextBuf := if nextBuf < 0 then f else nextBuf,
                     sequence := sequence + 1,
                     bufSeq := bufSeq[f := sequence + 1]);
      s.Advance()
    }

    /** What a completed frame makes of the state. */
    function Advance(): Cam {
      match mode
      case SingleRead => this.(mode := SpecRead, specFrames := 0)
      case SpecRead =>
        if specFrames + 1 >= NBufs() then this.(specFrames := specFrames + 1, enabled := false, mode := Idle)
        else this.(specFrames := specFrames + 1)
      case Streaming => this.(pending := true)
      case _ => this
    }

    /** cafe_deliver_buffer up to the copy, when there is a next buffer. */
    function DeliverNext(): Cam
      requires 0 <= nextBuf < |valid|
    {
      var s := this.(valid := valid[nextBuf := false]);
      s.(nextBuf := if s.valid[After(nextBuf)] then After(nextBuf) else -1, specFrames := 0)
    }

    /** Turn i of the tasklet's loop and those after it, until the lock is
        dropped for a copy or the loop ends. */
    function TaskLoop(i: nat): Cam
      requires nextBuf < |valid|
      decreases |valid| - i
    {
      if i >= NBufs() || nextBuf < 0 then this.(tasklet := Resting)
      else
        var bufno := nextBuf;
        var s := this.(nextBuf := After(bufno));
        if !valid[bufno] then s.TaskLoop(i + 1)
        else if avail == [] then s.(tasklet := Resting)
        else s.(valid := valid[bufno := false], tasklet := Copying(i, bufno, avail[0]))
    }

    /** The flags and frame number a finished copy leaves behind. */
    function FinishCopy(): Cam
      requires tasklet.Copying? && tasklet.bufno < |bufSeq| && tasklet.sbuf < |sb|
    {
      this.(sb := sb[tasklet.sbuf := SioBuf(false, true, bufSeq[tasklet.bufno])],
            tasklet := Copied(tasklet.i, tasklet.sbuf))
    }

    function MoveToFull(): Cam
      requires tasklet.Copied?
    {
      this.(avail := Remove(avail, tasklet.sbuf), full := full + [tasklet.sbuf])
    }

    /** The shape of a state: two or three DMA buffers, indices in range. */
    predicate Shaped() {
      && 2 <= |valid| <= 3 && |bufSeq| == |valid|
      && -1 <= nextBuf < |valid|
      && (forall b :: b in avail ==> b < |sb|)
      && (forall b :: b in full ==> b < |sb|)
      && (tasklet.Copying? ==> tasklet.bufno < |valid| && tasklet.i < |valid| && tasklet.sbuf < |sb|)
      && (tasklet.Copied? ==> tasklet.i < |valid| && tasklet.sbuf < |sb|)
      && (holder.Queueing? || holder.Taken? ==> holder.sbuf < |sb|)
    }

    /** Whether the event can happen: an ioctl needs s_mutex, the tasklet must be
        at the right place.  Buffers are not freed under a running copy. */
    predicate Enabled(e: Event) {
      match e
      case QbufFlag(_) => holder.Nobody?
      case QbufAdd => holder.Queueing?
      case DqbufLook => holder.Nobody?
      case DqbufTake => holder.Checked?
      case DqbufFinish => holder.Taken?
      case StreamOn => holder.Nobody?
      case StreamOff => holder.Nobody?
      case ReqBufs(count, mapped, foreign) =>
        holder.Nobody? && (mapped ==> sb != []) && (Frees(count, mapped, foreign) ==> tasklet.Resting?)
      case ReadEnter => holder.Nobody?
      case ReadOn(_) => holder.ReadAgain?
      case ReadWake => holder.ReadWaiting?
      case Deliver => holder.Delivers()
      case DeliverNothing => holder.ReadFirst?
      case StopIdle => holder.Stopping?
      case FreeBufs(mapped) => holder.Freeing? && (if mapped then sb != [] else tasklet.Resting?)
      case Frame(f) => f < NBufs()
      case TaskStart => pending && tasklet.Resting?
      case TaskCopy => tasklet.Copying?
      case TaskRetake => tasklet.Copied?
    }

    function Step(e: Event): Cam
      requires Shaped() && Enabled(e)
    {
      match e
      case QbufFlag(index) =>
        if CanQueue(index) then this.(sb := sb[index := sb[index].(queued := true)], holder := Queueing(index))
        else this
      case QbufAdd => this.(avail := [holder.sbuf] + avail, holder := Nobody)
      case DqbufLook => if mode == Streaming && full != [] then this.(holder := Checked) else this
      case DqbufTake => if full == [] then this.(holder := Nobody)
                        else this.(full := full[1..], holder := Taken(full[0]))
      case DqbufFinish =>
        this.(sb := sb[holder.sbuf := sb[holder.sbuf].(done := false)], holder := Nobody)
      case StreamOn => if mode != Idle || sb == [] then this else this.(sequence := 0).Setup(Streaming)
      case StreamOff => if mode != Streaming then this else Stop(Off)
      case ReqBufs(count, mapped, foreign) =>
        if count == 0 && mode == Streaming then Stop(GivenUp)
        else if Frees(count, mapped, foreign) then
          this.(sb := seq(count, _ => SioBuf(false, false, 0)), avail := [], full := [])
        else this
      case ReadEnter =>
        if mode == SpecRead && nextBuf >= 0 then this.(holder := ReadFirst)
        else if mode == SpecRead || mode == Idle then this.(holder := ReadAgain)
        else this
      case ReadOn(foreign) => Settled(foreign)
      case ReadWake => if nextBuf >= 0 then this.(holder := ReadReady) else Stop(TimedOut)
      case Deliver => if nextBuf < 0 then this.(holder := Nobody) else DeliverNext().(holder := Nobody)
      case DeliverNothing => if nextBuf < 0 then this.(holder := Nobody) else DeliverNext().(holder := ReadAgain)
      case StopIdle => this.(mode := Idle, holder := if holder.cause.GivenUp? then Freeing else Nobody)
      case FreeBufs(mapped) =>
        if mapped then this.(holder := Nobody) else this.(sb := [], avail := [], full := [], holder := Nobody)
      case Frame(f) => FrameComplete(f)
      case TaskStart => this.(pending := false).TaskLoop(0)
      case TaskCopy => FinishCopy()
      case TaskRetake => MoveToFull().TaskLoop(tasklet.i + 1)
    }

    /** The DMA buffer a tasklet loop from turn i would take, if any. */
    function Takes(i: nat): seq<Effect>
      requires nextBuf < |valid|
    {
      if TaskLoop(i).tasklet.Copying? then [Took(TaskLoop(i).tasklet.bufno)] else []
    }

    function Effects(e: Event): seq<Effect>
      requires Shaped() && Enabled(e)
    {
      match e
      case QbufAdd => [Queued(holder.sbuf)]
      case DqbufFinish => [Returned(holder.sbuf)]
      case StreamOn => if mode != Idle || sb == [] then [] else [Reset]
      case ReqBufs(count, mapped, foreign) => if Frees(count, mapped, foreign) then [Emptied] else []
      case ReadOn(foreign) => if mode != SpecRead && !foreign then [Reset] else []
      case FreeBufs(mapped) => if mapped then [] else [Emptied]
      case Deliver => if nextBuf < 0 then [] else [Delivered(nextBuf)]
      case DeliverNothing => if nextBuf < 0 then [] else [Delivered(nextBuf)]
      case Frame(f) => [Completed(f)]
      case TaskStart => this.(pending := false).Takes(0)
      case TaskCopy => [Filled(tasklet.sbuf, tasklet.bufno)]
      case TaskRetake => [Moved(tasklet.sbuf)] + MoveToFull().Takes(tasklet.i + 1)
      case _ => []
    }
  }

  // -------------------------------------------------------------- invariant

  ghost predicate NoDup(s: seq<nat>) {
    forall i, j :: 0 <= i < j < |s| ==> s[i] != s[j]
  }

  /** Buffer b has been copied but not yet moved to sb_full. */
  predicate JustCopied(s: Cam, b: nat) {
    s.tasklet.Copied? && s.tasklet.sbuf == b
  }

  /** The two lists hold each buffer at most once, and none that an ioctl is in
      the middle of handling. */
  ghost predicate ListsOk(s: Cam) {
    && NoDup(s.avail) && NoDup(s.full)
    && (forall b :: b in s.avail ==> b !in s.full)
    && (s.holder.Queueing? || s.holder.Taken? ==> s.holder.sbuf !in s.avail && s.holder.sbuf !in s.full)
    && (s.tasklet != Resting ==> s.tasklet.sbuf in s.avail)
  }

  /** The flags tell where a buffer is. */
  ghost predicate FlagsOk(s: Cam) {
    forall b :: 0 <= b < |s.sb| ==>
      && (s.sb[b].queued <==> (b in s.avail && !JustCopied(s, b)) || s.holder == Queueing(b))
      && (s.sb[b].done <==> b in s.full || JustCopied(s, b) || s.holder == Taken(b))
  }

  ghost predicate Inv(s: Cam) {
    && s.Shaped() && ListsOk(s) && FlagsOk(s)
    && (s.holder.Checked? ==> s.full != [] && s.mode == Streaming)
    && (s.holder.Delivers() ==> s.nextBuf >= 0)
    && Bounded(s)
  }

  /** An idle or stopping controller is off, and a speculative capture has not run
      for as many frames as there are DMA buffers. */
  predicate Bounded(s: Cam) {
    && (s.mode == Idle || s.holder.Stopping? ==> !s.enabled)
    && (s.mode == SpecRead ==> s.specFrames < s.NBufs())
  }

  predicate Initial(s: Cam) {
    && 2 <= |s.valid| <= 3 && |s.bufSeq| == |s.valid| && s.nextBuf == -1
    && (forall f :: 0 <= f < |s.valid| ==> !s.valid[f])
    && s.mode == Idle && !s.enabled && s.sb == [] && s.avail == [] && s.full == []
    && s.tasklet == Resting && !s.pending && s.holder == Nobody
  }

  lemma {:induction false} RemoveFacts(s: seq<nat>, b: nat)
    ensures forall c: nat :: c in Remove(s, b) <==> c in s && c != b
    ensures NoDup(s) ==> NoDup(Remove(s, b))
    ensures b !in s ==> Remove(s, b) == s
  {
    if s != [] {
      RemoveFacts(s[1..], b);
      assert s == [s[0]] + s[1..];
      if NoDup(s) {
        assert NoDup(s[1..]);
        assert s[0] !in s[1..];
      }
    }
  }

  /** A tasklet loop moves only the ring position, one valid bit and itself; a
      copy it starts is of a valid frame, to the head of sb_avail. */
  lemma {:induction false} TaskLoopFacts(s: Cam, i: nat)
    requires s.Shaped()
    ensures var t := s.TaskLoop(i);
      && t == s.(nextBuf := t.nextBuf, valid := t.valid, tasklet := t.tasklet)
      && -1 <= t.nextBuf < |s.valid| && |t.valid| == |s.valid| && (s.nextBuf >= 0 ==> t.nextBuf >= 0)
      && (t.tasklet == Resting || t.tasklet.Copying?)
      && (t.tasklet.Resting? ==> t.valid == s.valid)
      && (t.tasklet.Copying? ==>
            && i <= t.tasklet.i < |s.valid| && t.tasklet.bufno < |s.valid|
            && s.avail != [] && t.tasklet.sbuf == s.avail[0]
            && s.valid[t.tasklet.bufno] && t.valid == s.valid[t.tasklet.bufno := false])
    decreases |s.valid| - i
  {
    if i < s.NBufs() && s.nextBuf >= 0 {
      var n := s.(nextBuf := s.After(s.nextBuf));
      if !s.valid[s.nextBuf] {
        TaskLoopFacts(n, i + 1);
      }
    }
  }

  /** The DMA buffer k places behind the next one, round the ring. */
  function Place(s: Cam, k: nat): nat
    requires s.Shaped() && s.nextBuf >= 0
  {
    (s.nextBuf + k) % |s.valid|
  }

  /** The first buffer from the next one on that holds a frame is j places away. */
  predicate FirstFull(s: Cam, j: nat)
    requires s.Shaped() && s.nextBuf >= 0
  {
    s.valid[Place(s, j)] && forall l :: 0 <= l < j ==> !s.valid[Place(s, l)]
  }

  lemma PlaceNext(s: Cam, n: Cam, k: nat)
    requires s.Shaped() && s.nextBuf >= 0 && n == s.(nextBuf := s.After(s.nextBuf))
    ensures n.Shaped() && n.nextBuf >= 0 && Place(n, k) == Place(s, k + 1)
    ensures Place(s, 0) == s.nextBuf && Place(s, 1) == n.nextBuf
  {
    if |s.valid| == 2 {
    } else {
      assert |s.valid| == 3;
    }
  }

  /** What the tasklet must do from turn i on: it starts a copy of the first full DMA
      buffer it comes to, to the buffer at the head of the waiting ones; it rests if it
      comes to none in the turns it has left, if none waits or if there is no next one. */
  lemma {:induction false} TaskLoopExact(s: Cam, i: nat, t: Cam)
    requires s.Shaped() && i <= |s.valid| && t == s.TaskLoop(i)
    ensures s.nextBuf < 0 ==> t == s.(tasklet := Resting)
    ensures s.nextBuf >= 0 && (forall l :: 0 <= l < |s.valid| - i ==> !s.valid[Place(s, l)]) ==>
              t == s.(tasklet := Resting, nextBuf := Place(s, |s.valid| - i))
    ensures s.nextBuf >= 0 ==> forall j {:trigger FirstFull(s, j)} | 0 <= j < |s.valid| - i && FirstFull(s, j) ::
              t == if s.avail == [] then s.(tasklet := Resting, nextBuf := Place(s, j + 1))
                   else s.(tasklet := Copying(i + j, Place(s, j), s.avail[0]), nextBuf := Place(s, j + 1),
                           valid := s.valid[Place(s, j) := false])
    decreases |s.valid| - i
  {
    if i < |s.valid| && s.nextBuf >= 0 {
      var n := s.(nextBuf := s.After(s.nextBuf));
      PlaceNext(s, n, 0);
      if !s.valid[s.nextBuf] {
        TaskLoopExact(n, i + 1, t);
        TurnDown(s, n, i);
      }
    } else if s.nextBuf >= 0 {
      PlaceNext(s, s.(nextBuf := s.After(s.nextBuf)), 0);
    }
  }

  /** The view from the buffer behind an empty one. */
  lemma TurnDown(s: Cam, n: Cam, i: nat)
    requires s.Shaped() && i < |s.valid| && s.nextBuf >= 0 && !s.valid[s.nextBuf]
    requires n == s.(nextBuf := s.After(s.nextBuf))
    ensures n.Shaped() && n.nextBuf >= 0 && forall l: nat :: Place(n, l) == Place(s, l + 1)
    ensures forall j | 1 <= j && FirstFull(s, j) :: FirstFull(n, j - 1)
    ensures Place(s, 0) == s.nextBuf
  {
    forall l: nat ensures Place(n, l) == Place(s, l + 1) {
      PlaceNext(s, n, l);
    }
    PlaceNext(s, n, 0);
  }

  lemma {:induction false} FirstOf(s: Cam, l: nat) returns (j: nat)
    requires s.Shaped() && s.nextBuf >= 0 && s.valid[Place(s, l)]
    ensures j <= l && FirstFull(s, j)
    decreases l
  {
    if k :| 0 <= k < l && s.valid[Place(s, k)] {
      j := FirstOf(s, k);
    } else {
      j := l;
    }
  }

  /** So a copy is started if and only if a buffer waits and one of the DMA buffers
      still to be looked at holds a frame. */
  lemma TaskletCopiesIff(s: Cam, i: nat)
    requires s.Shaped() && i <= |s.valid|
    ensures s.TaskLoop(i).tasklet.Copying? <==>
              s.avail != [] && s.nextBuf >= 0 && exists l :: 0 <= l < |s.valid| - i && s.valid[Place(s, l)]
  {
    TaskLoopExact(s, i, s.TaskLoop(i));
    if s.nextBuf >= 0 {
      if l :| 0 <= l < |s.valid| - i && s.valid[Place(s, l)] {
        var j := FirstOf(s, l);
      }
    }
  }

  lemma InvTaskLoop(s: Cam, i: nat)
    requires Inv(s.(tasklet := Resting))
    requires s.Shaped()
    ensures Inv(s.TaskLoop(i))
  {
    TaskLoopFacts(s, i);
    LoopInv(s, s.TaskLoop(i));
  }

  lemma LoopInv(s: Cam, t: Cam)
    requires Inv(s.(tasklet := Resting)) && t == s.(nextBuf := t.nextBuf, valid := t.valid, tasklet := t.tasklet)
    requires -1 <= t.nextBuf < |s.valid| && |t.valid| == |s.valid| && (s.nextBuf >= 0 ==> t.nextBuf >= 0)
    requires t.tasklet == Resting || (t.tasklet.Copying? && t.tasklet.i < |s.valid| && t.tasklet.bufno < |s.valid|
                                      && s.avail != [] && t.tasklet.sbuf == s.avail[0])
    ensures Inv(t)
  {
    var u := s.(tasklet := Resting);
    assert u.avail == t.avail && u.full == t.full && u.sb == t.sb && u.holder == t.holder;
    assert u.Shaped();
    assert t.tasklet.Copying? ==> t.tasklet.sbuf in u.avail;
  }

  /** Every event keeps the invariant. */
  lemma InvStep(s: Cam, e: Event)
    requires Inv(s) && s.Enabled(e)
    ensures Inv(s.Step(e))
  {
    match e
    case TaskStart => InvTaskLoop(s.(pending := false), 0);
    case TaskCopy => InvTaskCopy(s);
    case TaskRetake => InvTaskRetake(s);
    case QbufFlag(_) => InvQbufFlag(s, e);
    case QbufAdd => InvQbufAdd(s);
    case DqbufTake => InvDqbufTake(s);
    case DqbufFinish => InvDqbufFinish(s);
    case ReqBufs(_, _, _) => InvReqBufs(s, e);
    case Frame(_) => InvFrame(s, e, s.Step(e));
    case DqbufLook => InvDqbufLook(s);
    case StreamOn => InvStream(s, e, s.Step(e));
    case StreamOff => InvStream(s, e, s.Step(e));
    case Deliver => InvDeliver(s, e, s.Step(e));
    case DeliverNothing => InvDeliver(s, e, s.Step(e));
    case StopIdle => InvStop(s, e, s.Step(e));
    case FreeBufs(_) => InvFree(s, e);
    case _ => InvRead(s, e, s.Step(e));
  }

  lemma InvDqbufLook(s: Cam)
    requires Inv(s) && s.Enabled(DqbufLook)
    ensures Inv(s.Step(DqbufLook))
  {
  }

  lemma InvQbufFlag(s: Cam, e: Event)
    requires Inv(s) && s.Enabled(e) && e.QbufFlag?
    ensures Inv(s.Step(e))
  {
  }

  lemma InvDqbufFinish(s: Cam)
    requires Inv(s) && s.Enabled(DqbufFinish)
    ensures Inv(s.Step(DqbufFinish))
  {
  }

  lemma InvReqBufs(s: Cam, e: Event)
    requires Inv(s) && s.Enabled(e) && e.ReqBufs?
    ensures Inv(s.Step(e))
  {
  }

  /** A change of the ring alone. */
  predicate RingOnly(s: Cam, t: Cam) {
    && t.sb == s.sb && t.avail == s.avail && t.full == s.full && t.tasklet == s.tasklet
    && |t.valid| == |s.valid| && |t.bufSeq| == |s.bufSeq| && -1 <= t.nextBuf < |t.valid|
    && (t.holder == s.holder || (!t.holder.Queueing? && !t.holder.Taken? && !s.holder.Queueing? && !s.holder.Taken?))
    && (t.holder.Checked? ==> s.holder.Checked? && (s.mode.Streaming? ==> t.mode.Streaming?))
    && (t.holder.Delivers() ==> t.nextBuf >= 0)
    && Bounded(t)
  }

  lemma RingOnlyInv(s: Cam, t: Cam)
    requires Inv(s) && RingOnly(s, t)
    ensures Inv(t)
  {
  }

  lemma InvFree(s: Cam, e: Event)
    requires Inv(s) && s.Enabled(e) && e.FreeBufs?
    ensures Inv(s.Step(e))
  {
  }

  lemma InvFrame(s: Cam, e: Event, t: Cam)
    requires Inv(s) && s.Enabled(e) && e.Frame? && t == s.Step(e)
    ensures Inv(t)
  {
    assert RingOnly(s, t);
    RingOnlyInv(s, t);
  }

  // The events that touch neither the lists nor the flags.

  lemma InvStream(s: Cam, e: Event, t: Cam)
    requires Inv(s) && s.Enabled(e) && t == s.Step(e) && (e.StreamOn? || e.StreamOff?)
    ensures Inv(t)
  {
    assert RingOnly(s, t);
    RingOnlyInv(s, t);
  }

  lemma InvRead(s: Cam, e: Event, t: Cam)
    requires Inv(s) && s.Enabled(e) && t == s.Step(e) && (e.ReadEnter? || e.ReadOn? || e.ReadWake?)
    ensures Inv(t)
  {
    assert RingOnly(s, t);
    RingOnlyInv(s, t);
  }

  lemma InvStop(s: Cam, e: Event, t: Cam)
    requires Inv(s) && s.Enabled(e) && t == s.Step(e) && e.StopIdle?
    ensures Inv(t)
  {
    assert RingOnly(s, t);
    RingOnlyInv(s, t);
  }

  lemma InvDeliver(s: Cam, e: Event, t: Cam)
    requires Inv(s) && s.Enabled(e) && t == s.Step(e) && e.Delivers()
    ensures Inv(t)
  {
    assert RingOnly(s, t);
    RingOnlyInv(s, t);
  }

  lemma InvTaskRetake(s: Cam)
    requires Inv(s) && s.Enabled(TaskRetake)
    ensures Inv(s.Step(TaskRetake))
  {
    RemoveFacts(s.avail, s.tasklet.sbuf);
    InvTaskLoop(s.MoveToFull(), s.tasklet.i + 1);
  }

  lemma InvQbufAdd(s: Cam)
    requires Inv(s) && s.Enabled(QbufAdd)
    ensures Inv(s.Step(QbufAdd))
  {
    assert forall b :: b in s.Step(QbufAdd).avail <==> b == s.holder.sbuf || b in s.avail;
  }

  lemma InvDqbufTake(s: Cam)
    requires Inv(s) && s.Enabled(DqbufTake)
    ensures Inv(s.Step(DqbufTake))
  {
    assert s.full == [s.full[0]] + s.full[1..];
    assert forall b :: b in s.full <==> b == s.full[0] || b in s.full[1..];
  }

  lemma InvTaskCopy(s: Cam)
    requires Inv(s) && s.Enabled(TaskCopy)
    ensures Inv(s.Step(TaskCopy))
  {
  }

  // ------------------------------------------------------------------- runs

  /** Each event of the run can happen where it stands. */
  ghost predicate Run(s: Cam, es: seq<Event>)
    decreases |es|
  {
    s.Shaped()
    && (es == [] || (s.Enabled(es[0]) && Run(s.Step(es[0]), es[1..])))
  }

  function Final(s: Cam, es: seq<Event>): Cam
    requires Run(s, es)
    decreases |es|
  {
    if es == [] then s else Final(s.Step(es[0]), es[1..])
  }

  function History(s: Cam, es: seq<Event>): seq<Effect>
    requires Run(s, es)
    decreases |es|
  {
    if es == [] then [] else s.Effects(es[0]) + History(s.Step(es[0]), es[1..])
  }

  /** The invariant holds after every run, however the ioctls, the interrupt and
      the tasklet interleave. */
  lemma {:induction false} InvRun(s: Cam, es: seq<Event>)
    requires Inv(s) && Run(s, es)
    ensures Inv(Final(s, es))
    decreases |es|
  {
    if es != [] {
      InvStep(s, es[0]);
      InvRun(s.Step(es[0]), es[1..]);
    }
  }

  lemma {:induction false} RunConcat(s: Cam, es: seq<Event>, e: Event)
    requires Run(s, es + [e])
    ensures Run(s, es) && Final(s, es).Shaped() && Final(s, es).Enabled(e)
    ensures Final(s, es + [e]) == Final(s, es).Step(e)
    ensures History(s, es + [e]) == History(s, es) + Final(s, es).Effects(e)
    decreases |es|
  {
    if es == [] {
      assert ([] + [e])[1..] == [];
    } else {
      assert (es + [e])[1..] == es[1..] + [e];
      var t := s.Step(es[0]);
      RunConcat(t, es[1..], e);
      Regroup(s.Effects(es[0]), History(t, es[1..]), Final(t, es[1..]).Effects(e));
    }
  }

  // ---------------------------------------------------- where a buffer is

  /** Places a streaming buffer can be in. */
  predicate WithUser(s: Cam, b: nat) {
    b !in s.avail && b !in s.full && s.holder != Queueing(b) && s.holder != Taken(b)
  }

  predicate WithIoctl(s: Cam, b: nat) {
    s.holder == Queueing(b) || s.holder == Taken(b)
  }

  predicate InCopy(s: Cam, b: nat) {
    s.tasklet != Resting && s.tasklet.sbuf == b
  }

  predicate Waiting(s: Cam, b: nat) {
    b in s.avail && !InCopy(s, b)
  }

  function One(p: bool): nat { if p then 1 else 0 }

  /** After every run each buffer is in exactly one place.  The user's buffers
      are those with neither flag; QUEUED is set while a buffer waits, is being
      copied or is being queued; DONE from the end of the copy until dqbuf has
      given it back. */
  lemma OnePlace(s: Cam, es: seq<Event>, b: nat)
    requires Initial(s) && Run(s, es) && b < |Final(s, es).sb|
    ensures var t := Final(s, es);
      && One(WithUser(t, b)) + One(WithIoctl(t, b)) + One(Waiting(t, b)) + One(InCopy(t, b)) + One(b in t.full) == 1
      && NoDup(t.avail) && NoDup(t.full)
      && (WithUser(t, b) <==> !t.sb[b].queued && !t.sb[b].done)
      && (t.sb[b].queued <==> Waiting(t, b) || (InCopy(t, b) && t.tasklet.Copying?) || t.holder == Queueing(b))
      && (t.sb[b].done <==> b in t.full || (InCopy(t, b) && t.tasklet.Copied?) || t.holder == Taken(b))
  {
    InvRun(s, es);
  }

  /** dqbuf never takes from an empty list, although it rechecks nothing after
      its wait loop. */
  lemma DqbufTakesSomething(s: Cam, es: seq<Event>)
    requires Initial(s) && Run(s, es) && Final(s, es).Enabled(DqbufTake)
    ensures var t := Final(s, es); t.Shaped() && t.full != [] && t.Step(DqbufTake).holder == Taken(t.full[0])
  {
    InvRun(s, es);
  }

  /** read, too, finds what it waited for: a delivery never meets a missing next
      buffer, not even with a tasklet left over. */
  lemma ReadHasNext(s: Cam, es: seq<Event>)
    requires Initial(s) && Run(s, es) && Final(s, es).holder.Delivers()
    ensures 0 <= Final(s, es).nextBuf < Final(s, es).NBufs()
  {
    InvRun(s, es);
  }

  /** Nobody else shortens sb_full: without s_mutex one can only append. */
  lemma OnlyIoctlsTake(s: Cam, e: Event)
    requires s.Shaped() && s.Enabled(e)
    requires e.Frame? || e.TaskStart? || e.TaskCopy? || e.TaskRetake?
    ensures s.full <= s.Step(e).full && s.Step(e).holder == s.holder
  {
    if e.TaskStart? {
      TaskLoopFacts(s.(pending := false), 0);
    } else if e.TaskRetake? {
      ShapedMoved(s);
      TaskLoopFacts(s.MoveToFull(), s.tasklet.i + 1);
    }
  }

  lemma ShapedMoved(s: Cam)
    requires s.Shaped() && s.tasklet.Copied?
    ensures s.MoveToFull().Shaped()
  {
    RemoveFacts(s.avail, s.tasklet.sbuf);
  }

  // ------------------------------------------------------- order of buffers

  function Moves(h: seq<Effect>): seq<nat> {
    if h == [] then [] else (if h[0].Moved? then [h[0].b] else []) + Moves(h[1..])
  }

  function Returns(h: seq<Effect>): seq<nat> {
    if h == [] then [] else (if h[0].Returned? then [h[0].b] else []) + Returns(h[1..])
  }

  /** The buffer dqbuf has in hand and those behind it on sb_full. */
  function Line(s: Cam): seq<nat> {
    (if s.holder.Taken? then [s.holder.sbuf] else []) + s.full
  }

  function Deliveries(h: seq<Effect>): nat {
    if h == [] then 0 else One(h[0].Delivered?) + Deliveries(h[1..])
  }

  predicate Resets(s: Cam, e: Event) {
    match e
    case StreamOn => s.mode == Idle && s.sb != []
    case ReadOn(foreign) => s.mode != SpecRead && !foreign
    case _ => false
  }

  predicate Empties(s: Cam, e: Event) {
    match e
    case ReqBufs(count, mapped, foreign) => s.Frees(count, mapped, foreign)
    case FreeBufs(mapped) => !mapped
    case _ => false
  }

  /** What the effects of one event amount to. */
  lemma EffectsFacts(s: Cam, e: Event)
    requires s.Shaped() && s.Enabled(e)
    ensures var fx := s.Effects(e);
      && (Reset in fx <==> Resets(s, e))
      && (Emptied in fx <==> Empties(s, e)) && (Emptied in fx ==> s.Step(e).avail == [] == s.Step(e).full)
      && Moves(fx) == (if e.TaskRetake? then [s.tasklet.sbuf] else [])
      && Returns(fx) == (if e.DqbufFinish? then [s.holder.sbuf] else [])
      && Deliveries(fx) == One(e.Delivers() && s.nextBuf >= 0)
  {
    var fx := s.Effects(e);
    if e.TaskRetake? {
      ShapedMoved(s);
      TaskLoopFacts(s.MoveToFull(), s.tasklet.i + 1);
      var rest := s.MoveToFull().Takes(s.tasklet.i + 1);
      NoneProjected(rest);
      assert fx[1..] == rest;
    } else if e.TaskStart? {
      NoneProjected(fx);
    } else {
      assert fx == [] || fx[1..] == [];
    }
  }

  lemma NoneProjected(fx: seq<Effect>)
    requires fx == [] || (|fx| == 1 && fx[0].Took?)
    ensures Moves(fx) == [] && Returns(fx) == [] && Deliveries(fx) == 0
  {
    assert fx == [] || fx[1..] == [];
  }

  lemma StepInOrder(s: Cam, e: Event)
    requires s.Shaped() && s.Enabled(e) && Emptied !in s.Effects(e)
    ensures Line(s) + Moves(s.Effects(e)) == Returns(s.Effects(e)) + Line(s.Step(e))
  {
    EffectsFacts(s, e);
    if e.TaskRetake? {
      LineGrows(s);
    } else if e.DqbufFinish? {
      LineShrinks(s);
    } else {
      SameLine(s, e);
    }
    NoChange(Line(s), Line(s.Step(e)));
  }

  lemma NoChange(a: seq<nat>, b: seq<nat>)
    ensures a == b ==> a + [] == [] + b
    ensures [] + a == a
  {
  }

  lemma LineShrinks(s: Cam)
    requires s.Shaped() && s.Enabled(DqbufFinish)
    ensures Line(s) == [s.holder.sbuf] + Line(s.Step(DqbufFinish)) && Line(s) + [] == Line(s)
  {
    assert [] + s.full == s.full;
  }

  lemma LineGrows(s: Cam)
    requires s.Shaped() && s.Enabled(TaskRetake)
    ensures Line(s.Step(TaskRetake)) == Line(s) + [s.tasklet.sbuf]
  {
    ShapedMoved(s);
    TaskLoopFacts(s.MoveToFull(), s.tasklet.i + 1);
  }

  lemma SameLine(s: Cam, e: Event)
    requires s.Shaped() && s.Enabled(e) && Emptied !in s.Effects(e)
    requires !e.TaskRetake? && !e.DqbufFinish?
    ensures Line(s.Step(e)) == Line(s)
  {
    EffectsFacts(s, e);
    if e.DqbufTake? {
      assert s.full != [] ==> s.full == [s.full[0]] + s.full[1..];
    } else if e.TaskStart? {
      TaskLoopFacts(s.(pending := false), 0);
    }
  }

  lemma ProjectHead(x: Effect, h: seq<Effect>)
    ensures Moves([x] + h) == (if x.Moved? then [x.b] else []) + Moves(h)
    ensures Returns([x] + h) == (if x.Returned? then [x.b] else []) + Returns(h)
    ensures Deliveries([x] + h) == One(x.Delivered?) + Deliveries(h)
  {
    assert ([x] + h)[1..] == h;
  }

  lemma {:induction false} ProjectConcat(g: seq<Effect>, h: seq<Effect>)
    ensures Moves(g + h) == Moves(g) + Moves(h) && Returns(g + h) == Returns(g) + Returns(h)
    ensures Deliveries(g + h) == Deliveries(g) + Deliveries(h)
    decreases |g|
  {
    if g == [] {
      assert g + h == h;
    } else {
      ProjectConcat(g[1..], h);
      ProjectHead(g[0], g[1..] + h);
      assert [g[0]] + (g[1..] + h) == g + h;
      Regroup(if g[0].Moved? then [g[0].b] else [], Moves(g[1..]), Moves(h));
      Regroup(if g[0].Returned? then [g[0].b] else [], Returns(g[1..]), Returns(h));
    }
  }

  /** While the buffers are not reallocated, dqbuf returns them in the order the
      tasklet filled them: what it returned, what it holds and sb_full together
      are what the tasklet moved, whatever happened in between. */
  lemma {:induction false} ReturnedInOrder(s: Cam, es: seq<Event>)
    requires Run(s, es) && Emptied !in History(s, es)
    ensures Line(s) + Moves(History(s, es)) == Returns(History(s, es)) + Line(Final(s, es))
    decreases |es|
  {
    if es != [] {
      var t := s.Step(es[0]);
      HistoryParts(s, es);
      StepInOrder(s, es[0]);
      ReturnedInOrder(t, es[1..]);
      var h, r := s.Effects(es[0]), History(t, es[1..]);
      ProjectConcat(h, r);
      Splice(Line(s), Moves(h), Moves(r), Returns(h), Line(t), Returns(r), Line(Final(s, es)));
    }
  }

  lemma Splice(a: seq<nat>, m: seq<nat>, n: seq<nat>, p: seq<nat>, b: seq<nat>, q: seq<nat>, c: seq<nat>)
    ensures a + m == p + b && b + n == q + c ==> a + (m + n) == p + q + c
  {
    if a + m == p + b && b + n == q + c {
      calc {
        a + (m + n);
        (a + m) + n;
        p + (b + n);
        p + q + c;
      }
    }
  }

  lemma HistoryParts(s: Cam, es: seq<Event>)
    requires Run(s, es) && es != []
    ensures forall x :: x in History(s, es) <==> x in s.Effects(es[0]) || x in History(s.Step(es[0]), es[1..])
  {
  }

  /** From an empty start, what dqbuf returned is a prefix of what was moved. */
  lemma ReturnsPrefix(s: Cam, es: seq<Event>)
    requires Run(s, es) && Emptied !in History(s, es) && s.full == [] && !s.holder.Taken?
    ensures Returns(History(s, es)) <= Moves(History(s, es))
  {
    ReturnedInOrder(s, es);
    var m := Moves(History(s, es));
    assert Line(s) + m == m;
  }

  // --------------------------------------------------------------- read mode

  /** The next buffer, if there is one, holds a frame. */
  predicate NextOk(s: Cam) {
    0 <= s.nextBuf < |s.valid| ==> s.valid[s.nextBuf]
  }

  /** No streaming tasklet will touch the ring again: none is scheduled, and one
      that is copying is in its last turn. */
  predicate Quiet(s: Cam) {
    !s.pending && (s.tasklet == Resting || s.tasklet.i + 1 >= s.NBufs())
  }

  predicate ReadSession(s: Cam) {
    && s.Shaped() && Quiet(s) && NextOk(s) && s.mode != Streaming
    && (s.mode == SpecRead ==> s.specFrames < s.NBufs())
    && (s.holder.Delivers() ==> s.nextBuf >= 0)
  }

  lemma ReadSessionStep(s: Cam, e: Event)
    requires ReadSession(s) && s.Enabled(e) && s.Step(e).Shaped() && Reset !in s.Effects(e)
    ensures ReadSession(s.Step(e))
  {
    EffectsFacts(s, e);
    if e.TaskStart? || e.TaskCopy? || e.TaskRetake? {
      QuietTasklet(s, e);
    } else if e.Frame? {
      QuietFrame(s, e);
    } else {
      QuietRest(s, e);
    }
  }

  lemma QuietTasklet(s: Cam, e: Event)
    requires ReadSession(s) && s.Enabled(e) && s.Step(e).Shaped() && (e.TaskStart? || e.TaskCopy? || e.TaskRetake?)
    ensures ReadSession(s.Step(e))
  {
    if e.TaskRetake? {
      ShapedMoved(s);
    }
  }

  lemma QuietFrame(s: Cam, e: Event)
    requires ReadSession(s) && s.Enabled(e) && s.Step(e).Shaped() && e.Frame?
    ensures ReadSession(s.Step(e))
  {
  }

  lemma QuietRest(s: Cam, e: Event)
    requires ReadSession(s) && s.Enabled(e) && s.Step(e).Shaped() && !Resets(s, e)
    requires !e.TaskStart? && !e.TaskCopy? && !e.TaskRetake? && !e.Frame?
    ensures ReadSession(s.Step(e))
  {
  }

  lemma {:induction false} ReadSessionRun(s: Cam, es: seq<Event>)
    requires ReadSession(s) && Run(s, es) && Reset !in History(s, es)
    ensures ReadSession(Final(s, es))
    decreases |es|
  {
    if es != [] {
      HistoryParts(s, es);
      ReadSessionStep(s, es[0]);
      ReadSessionRun(s.Step(es[0]), es[1..]);
    }
  }

  /** The runs of one capture: everything until the ring is next reset. */
  ghost predicate Capture(s: Cam, es: seq<Event>) {
    Run(s, es) && Reset !in History(s, es)
  }

  /** A read capture always has a valid next buffer or none exactly when no
      streaming tasklet is left over at its set-up.  With one left over, the
      first frame is enough to go wrong. */
  lemma ReadSafeIffQuiet(s: Cam)
    requires Inv(s) && s.SetsUp()
    ensures Quiet(s) <==> forall es :: Capture(s.Step(ReadOn(false)), es) ==> NextOk(Final(s.Step(ReadOn(false)), es))
  {
    var t := s.Step(ReadOn(false));
    if Quiet(s) {
      forall es | Capture(t, es)
        ensures NextOk(Final(t, es))
      {
        ReadSessionRun(t, es);
      }
    } else {
      var es := LeftoverRun(s);
      assert Capture(t, es) && !NextOk(Final(t, es));
    }
  }

  lemma RunBehind(s: Cam, e: Event, es: seq<Event>)
    requires s.Shaped() && s.Enabled(e) && Run(s.Step(e), es)
    ensures Run(s, [e] + es) && Final(s, [e] + es) == Final(s.Step(e), es)
    ensures History(s, [e] + es) == s.Effects(e) + History(s.Step(e), es)
  {
    assert ([e] + es)[1..] == es;
  }

  lemma LeftoverStates(s: Cam) returns (s1: Cam, s2: Cam, s3: Cam, s4: Cam)
    requires Initial(s)
    ensures s.Shaped() && s.Enabled(ReqBufs(1, false, false)) && s1 == s.Step(ReqBufs(1, false, false))
    ensures s1.Shaped() && s1.Enabled(StreamOn) && s2 == s1.Step(StreamOn)
    ensures s2.Shaped() && s2.Enabled(Frame(0)) && s3 == s2.Step(Frame(0))
    ensures s3.Shaped() && s3.Enabled(StreamOff) && s4 == s3.Step(StreamOff)
    ensures s4.Shaped() && s4.holder == Stopping(Off) && s4.pending
  {
    s1 := s.Step(ReqBufs(1, false, false));
    assert s1 == s.(sb := [SioBuf(false, false, 0)]);
    s2 := s1.Step(StreamOn);
    s3 := s2.Step(Frame(0));
    s4 := s3.Step(StreamOff);
  }

  /** And one can be left over: streamoff does not wait for the tasklet. */
  lemma LeftoverHappens(s: Cam)
    requires Initial(s)
    ensures var es := [ReqBufs(1, false, false), StreamOn, Frame(0), StreamOff, StopIdle];
      && Run(s, es) && Final(s, es).mode == Idle && Final(s, es).holder == Nobody && !Quiet(Final(s, es))
  {
    var s1, s2, s3, s4 := LeftoverStates(s);
    RunBehind(s4, StopIdle, []);
    RunBehind(s3, StreamOff, [StopIdle]);
    RunBehind(s2, Frame(0), [StreamOff, StopIdle]);
    RunBehind(s1, StreamOn, [Frame(0), StreamOff, StopIdle]);
    RunBehind(s, ReqBufs(1, false, false), [StreamOn, Frame(0), StreamOff, StopIdle]);
  }

  /** Finishing a tasklet turn, then starting a scheduled one, after frame 0. */
  lemma LeftoverRun(s: Cam) returns (es: seq<Event>)
    requires Inv(s) && s.SetsUp() && !Quiet(s)
    ensures Capture(s.Step(ReadOn(false)), es) && !NextOk(Final(s.Step(ReadOn(false)), es))
  {
    var t := s.Step(ReadOn(false));
    InvStep(s, ReadOn(false));
    InvStep(t, Frame(0));
    var rest := LeftoverTail(t.Step(Frame(0)));
    RunBehind(t, Frame(0), rest);
    es := [Frame(0)] + rest;
  }

  function TaskletEvent(t: Tasklet): Event {
    if t.Resting? then TaskStart else if t.Copied? then TaskRetake else TaskCopy
  }

  lemma LeftoverTail(u: Cam) returns (es: seq<Event>)
    requires Inv(u) && !Quiet(u) && u.mode == SpecRead && u.nextBuf == 0 && u.valid[0] && !u.valid[1]
    ensures Capture(u, es) && !NextOk(Final(u, es))
    decreases if u.tasklet.Resting? then 0 else if u.tasklet.Copied? then 1 else 2
  {
    var e := TaskletEvent(u.tasklet);
    InvStep(u, e);
    LeftoverStep(u, e);
    var rest := [];
    if NextOk(u.Step(e)) {
      rest := LeftoverTail(u.Step(e));
    }
    RunBehind(u, e, rest);
    es := [e] + rest;
  }

  /** A tasklet at work goes wrong in this step or is closer to it. */
  lemma LeftoverStep(u: Cam, e: Event)
    requires Inv(u) && !Quiet(u) && u.mode == SpecRead && u.nextBuf == 0 && u.valid[0] && !u.valid[1]
    requires e == TaskletEvent(u.tasklet)
    ensures u.Enabled(e) && Reset !in u.Effects(e)
    ensures var v := u.Step(e); v.Shaped() && (NextOk(v) ==>
      && !Quiet(v) && v.mode == SpecRead && v.nextBuf == 0 && v.valid[0] && !v.valid[1]
      && ((e.TaskCopy? && v.tasklet.Copied?) || (e.TaskRetake? && v.tasklet.Resting?)))
  {
    InvStep(u, e);
    EffectsFacts(u, e);
  }

  /** How one effect changes whether frame f is fresh. */
  predicate Refreshed(before: bool, x: Effect, f: nat) {
    match x
    case Completed(g) => g == f || before
    case Delivered(g) => g != f && before
    case Took(g) => g != f && before
    case Reset => false
    case _ => before
  }

  /** Frame f is fresh after the effects h, given whether it was before: it has
      completed since the ring was last reset, and was not given to anyone since
      it last completed. */
  predicate Fresh(before: bool, h: seq<Effect>, f: nat)
    decreases |h|
  {
    if h == [] then before else Fresh(Refreshed(before, h[0], f), h[1..], f)
  }

  lemma {:induction false} FreshConcat(before: bool, g: seq<Effect>, h: seq<Effect>, f: nat)
    ensures Fresh(before, g + h, f) == Fresh(Fresh(before, g, f), h, f)
    decreases |g|
  {
    if g == [] {
      assert g + h == h;
    } else {
      assert (g + h)[1..] == g[1..] + h;
      FreshConcat(Refreshed(before, g[0], f), g[1..], h, f);
    }
  }

  /** The valid bits are exactly the fresh frames. */
  lemma ValidStep(s: Cam, e: Event, f: nat)
    requires s.Shaped() && s.Enabled(e) && f < |s.valid| && f < |s.Step(e).valid|
    ensures s.Step(e).valid[f] <==> Fresh(s.valid[f], s.Effects(e), f)
  {
    match e
    case TaskRetake => ValidRetake(s, f);
    case TaskStart => ValidStart(s, f);
    case Frame(_) => ValidFrame(s, e, f);
    case Deliver => ValidDeliver(s, e, f);
    case DeliverNothing => ValidDeliver(s, e, f);
    case _ => ValidRest(s, e, f);
  }

  lemma ValidStart(s: Cam, f: nat)
    requires s.Shaped() && s.Enabled(TaskStart) && f < |s.valid| && f < |s.Step(TaskStart).valid|
    ensures s.Step(TaskStart).valid[f] <==> Fresh(s.valid[f], s.Effects(TaskStart), f)
  {
    TaskLoopFacts(s.(pending := false), 0);
  }

  lemma ValidFrame(s: Cam, e: Event, f: nat)
    requires s.Shaped() && s.Enabled(e) && e.Frame? && f < |s.valid| && f < |s.Step(e).valid|
    ensures s.Step(e).valid[f] <==> Fresh(s.valid[f], s.Effects(e), f)
  {
  }

  lemma ValidDeliver(s: Cam, e: Event, f: nat)
    requires s.Shaped() && s.Enabled(e) && e.Delivers() && f < |s.valid| && f < |s.Step(e).valid|
    ensures s.Step(e).valid[f] <==> Fresh(s.valid[f], s.Effects(e), f)
  {
  }

  lemma ValidRetake(s: Cam, f: nat)
    requires s.Shaped() && s.Enabled(TaskRetake) && f < |s.valid| && f < |s.Step(TaskRetake).valid|
    ensures s.Step(TaskRetake).valid[f] <==> Fresh(s.valid[f], s.Effects(TaskRetake), f)
  {
    ShapedMoved(s);
    TaskLoopFacts(s.MoveToFull(), s.tasklet.i + 1);
    var rest := s.MoveToFull().Takes(s.tasklet.i + 1);
    FreshConcat(s.valid[f], [Moved(s.tasklet.sbuf)], rest, f);
    assert rest == [] || rest[1..] == [];
  }

  /** The events that complete and hand over nothing. */
  lemma ValidRest(s: Cam, e: Event, f: nat)
    requires s.Shaped() && s.Enabled(e) && f < |s.valid| && f < |s.Step(e).valid|
    requires !e.TaskRetake? && !e.TaskStart? && !e.Frame? && !e.Delivers()
    ensures s.Step(e).valid[f] <==> Fresh(s.valid[f], s.Effects(e), f)
  {
  }

  lemma StepKeepsRing(s: Cam, e: Event)
    requires s.Shaped() && s.Enabled(e)
    ensures |s.Step(e).valid| == |s.valid|
  {
    if e.TaskStart? {
      TaskLoopFacts(s.(pending := false), 0);
    } else if e.TaskRetake? {
      ShapedMoved(s);
      TaskLoopFacts(s.MoveToFull(), s.tasklet.i + 1);
    }
  }

  lemma {:induction false} ValidIsFresh(s: Cam, es: seq<Event>, f: nat)
    requires Run(s, es) && f < |s.valid|
    ensures |Final(s, es).valid| == |s.valid|
    ensures Final(s, es).valid[f] <==> Fresh(s.valid[f], History(s, es), f)
    decreases |es|
  {
    if es != [] {
      var t := s.Step(es[0]);
      StepKeepsRing(s, es[0]);
      ValidStep(s, es[0], f);
      ValidIsFresh(t, es[1..], f);
      FreshConcat(s.valid[f], s.Effects(es[0]), History(t, es[1..]), f);
    }
  }

  /** What read delivers: in a capture set up with no tasklet left over, there
      is a next buffer whenever it delivers, and that buffer's frame completed
      since the set-up and has not been delivered since it last completed. */
  lemma ReadDeliversFresh(s: Cam, es: seq<Event>, e: Event)
    requires Inv(s) && s.SetsUp() && Quiet(s)
    requires Capture(s.Step(ReadOn(false)), es + [e]) && e.Delivers()
    ensures Run(s.Step(ReadOn(false)), es)
    ensures var u := Final(s.Step(ReadOn(false)), es);
      u.nextBuf >= 0 && Fresh(false, History(s.Step(ReadOn(false)), es), u.nextBuf)
  {
    var t := s.Step(ReadOn(false));
    RunConcat(t, es, e);
    assert forall x :: x in History(t, es) ==> x in History(t, es + [e]);
    ReadSessionRun(t, es);
    var u := Final(t, es);
    KeepsRing(t, es);
    ValidIsFresh(t, es, u.nextBuf);
  }

  lemma {:induction false} KeepsRing(s: Cam, es: seq<Event>)
    requires Run(s, es)
    ensures |Final(s, es).valid| == |s.valid|
    decreases |es|
  {
    if es != [] {
      StepKeepsRing(s, es[0]);
      KeepsRing(s.Step(es[0]), es[1..]);
    }
  }

  lemma EmptyReadStates(s: Cam) returns (u: Cam, v: Cam, t: Cam)
    requires s.Shaped() && s.mode == SpecRead && s.holder == Nobody && s.nextBuf >= 0
    requires s.valid[s.After(s.nextBuf)]
    ensures u == s.Step(ReadEnter) && s.Effects(ReadEnter) == [] && u.Shaped()
    ensures u.Enabled(DeliverNothing) && v == u.Step(DeliverNothing) && u.Effects(DeliverNothing) == [Delivered(s.nextBuf)]
    ensures v.Shaped() && v.Enabled(ReadOn(false)) && t == v.Step(ReadOn(false)) && v.Effects(ReadOn(false)) == []
    ensures t.Shaped() && t.holder == ReadWaiting && t.nextBuf == s.After(s.nextBuf)
  {
    u := s.Step(ReadEnter);
    assert u == s.(holder := ReadFirst);
    v := u.Step(DeliverNothing);
    t := v.Step(ReadOn(false));
  }

  lemma EmptyReadSecond(t: Cam)
    requires t.Shaped() && t.holder == ReadWaiting && t.nextBuf >= 0
    ensures Run(t, [ReadWake, Deliver]) && Final(t, [ReadWake, Deliver]).holder == Nobody
    ensures History(t, [ReadWake, Deliver]) == [Delivered(t.nextBuf)]
  {
    var u := t.Step(ReadWake);
    RunBehind(u, Deliver, []);
    RunBehind(t, ReadWake, [Deliver]);
  }

  /** A read of no bytes costs two frames: the first delivery looks as if there
      had been nothing to deliver, and read goes on to another. */
  lemma EmptyReadTakesTwo(s: Cam)
    requires Inv(s) && s.mode == SpecRead && s.holder == Nobody && s.nextBuf >= 0 && s.valid[s.After(s.nextBuf)]
    ensures var es := [ReadEnter, DeliverNothing, ReadOn(false), ReadWake, Deliver];
      && Run(s, es) && Final(s, es).holder == Nobody
      && History(s, es) == [Delivered(s.nextBuf), Delivered(s.After(s.nextBuf))]
  {
    var u, v, t := EmptyReadStates(s);
    EmptyReadSecond(t);
    RunBehind(v, ReadOn(false), [ReadWake, Deliver]);
    RunBehind(u, DeliverNothing, [ReadOn(false), ReadWake, Deliver]);
    RunBehind(s, ReadEnter, [DeliverNothing, ReadOn(false), ReadWake, Deliver]);
  }

  function Frames(es: seq<Event>): nat {
    if es == [] then 0 else One(es[0].Frame?) + Frames(es[1..])
  }

  /** A speculative capture nobody reads stops by itself: after as many frames
      as there are DMA buffers the controller is off and the device idle. */
  lemma {:induction false} SpeculationStops(s: Cam, es: seq<Event>)
    requires Inv(s) && Capture(s, es) && Deliveries(History(s, es)) == 0 && (s.mode == SpecRead || s.mode == Idle)
    ensures var t := Final(s, es);
      || (t.mode == Idle && !t.enabled)
      || (s.mode == SpecRead && t.mode == SpecRead && t.specFrames == s.specFrames + Frames(es) < s.NBufs())
    decreases |es|
  {
    if es != [] {
      var t := s.Step(es[0]);
      HistoryParts(s, es);
      ProjectConcat(s.Effects(es[0]), History(t, es[1..]));
      InvStep(s, es[0]);
      SpeculationStep(s, es[0]);
      SpeculationStops(t, es[1..]);
    }
  }

  lemma SpeculationStep(s: Cam, e: Event)
    requires Inv(s) && s.Enabled(e) && Reset !in s.Effects(e) && Deliveries(s.Effects(e)) == 0
    requires s.mode == SpecRead || s.mode == Idle
    ensures var t := s.Step(e);
      && t.NBufs() == s.NBufs()
      && ((t.mode == Idle && !t.enabled)
          || (s.mode == SpecRead && t.mode == SpecRead && t.specFrames == s.specFrames + One(e.Frame?) < s.NBufs()))
  {
    EffectsFacts(s, e);
    if e.TaskStart? || e.TaskRetake? {
      TaskletOnly(s, e);
    } else if e.Frame? {
      SpeculationFrame(s, e);
    } else {
      SpeculationRest(s, e);
    }
  }

  lemma TaskletOnly(s: Cam, e: Event)
    requires s.Shaped() && s.Enabled(e) && (e.TaskStart? || e.TaskRetake?)
    ensures var t := s.Step(e);
      t.NBufs() == s.NBufs() && t.mode == s.mode && t.enabled == s.enabled && t.specFrames == s.specFrames
  {
    if e.TaskStart? {
      TaskLoopFacts(s.(pending := false), 0);
    } else {
      ShapedMoved(s);
      TaskLoopFacts(s.MoveToFull(), s.tasklet.i + 1);
    }
  }

  lemma SpeculationFrame(s: Cam, e: Event)
    requires s.Shaped() && s.Enabled(e) && e.Frame?
    requires (s.mode == SpecRead && s.specFrames < s.NBufs()) || (s.mode == Idle && !s.enabled)
    ensures var t := s.Step(e);
      && t.NBufs() == s.NBufs()
      && ((t.mode == Idle && !t.enabled)
          || (s.mode == SpecRead && t.mode == SpecRead && t.specFrames == s.specFrames + 1 < s.NBufs()))
  {
  }

  lemma SpeculationRest(s: Cam, e: Event)
    requires s.Shaped() && s.Enabled(e) && !e.Frame? && !e.TaskStart? && !e.TaskRetake?
    requires !Resets(s, e) && !(e.Delivers() && s.nextBuf >= 0) && Bounded(s) && (s.mode == SpecRead || s.mode == Idle)
    ensures var t := s.Step(e);
      && t.NBufs() == s.NBufs()
      && ((t.mode == Idle && !t.enabled) || (t.mode == s.mode == SpecRead && t.specFrames == s.specFrames))
  {
  }
}
