/** The USB transport of the CPiA camera (video/cpia_usb.c: cpia_usb_complete,
    cpia_usb_streamRead, cpia_usb_open): a ring of three frame buffers between the
    completion handler and the reader.  Handler and reader run side by side, so
    a run is a sequence of small events. */
module CpiaUsb {
  import opened Basics
  import opened CpiaDecoder

  /** CPIA_MAX_FRAME_SIZE, already whole pages, and 100 bytes. */
  const FRAMEBUF_LEN: int := MAX_FRAME_SIZE + 100

  datatype Status = Empty | Reading | Ready

  /** The data of a buffer is as much of it as its length field covers. */
  datatype Buf = Buf(status: Status, data: seq<Byte>)

  type Slot = i: int | 0 <= i < 3

  type Ring = s: seq<Buf> | |s| == 3 witness [Buf(Empty, []), Buf(Empty, []), Buf(Empty, [])]

  /** Reader is between its check and the end of its copy, of that buffer. */
  datatype Reader = Idle | Copying(slot: Slot)

  /** The handler starts on a completed transfer; it looks at the next packet of it
      (stale is the byte the transfer buffer holds behind a packet); the reader
      wakes and checks; the reader is done copying. */
  datatype Event = UrbStart | Packet(payload: seq<Byte>, stale: Byte) | ReadBegin | ReadEnd

  predicate Headed(d: seq<Byte>) {
    |d| >= 2 && d[0] == MAGIC_0 && d[1] == MAGIC_1
  }

  predicate Footed(d: seq<Byte>) {
    |d| > 4 && d[|d| - 1] == EOI && d[|d| - 2] == EOI && d[|d| - 3] == EOI && d[|d| - 4] == EOI
  }

  /** The test a first packet must pass, which looks at two bytes of the transfer
      buffer even when the packet has one. */
  predicate Opens(p: seq<Byte>, stale: Byte) {
    p != [] && p[0] == MAGIC_0 && (if |p| > 1 then p[1] else stale) == MAGIC_1
  }

  function Next(i: Slot): Slot { (i + 1) % 3 }

  /** skip: the transfer at hand has been given up for lack of room. */
  datatype Usb = Usb(bufs: Ring, work: Slot, cur: Slot, skip: bool, reader: Reader)
  {
    function Data(): seq<Byte> { bufs[work].data }

    /** The handler comes to look at this packet and has room for it. */
    predicate Takes(e: Event) {
      e.Packet? && !skip && |Data()| + |e.payload| <= FRAMEBUF_LEN
    }

    /** This event completes the frame in the work buffer. */
    predicate Completes(e: Event) {
      Takes(e) && e.payload == [] && Footed(Data())
    }

    function Step(e: Event): Usb {
      match e
      case UrbStart =>
        this.(skip := false, bufs := if bufs[work].status.Empty? then bufs[work := Buf(Reading, [])] else bufs)
      case Packet(p, stale) =>
        if skip then this
        else if |Data()| + |p| > FRAMEBUF_LEN then this.(skip := true)
        else if p != [] then
          if Data() != [] || Opens(p, stale) then this.(bufs := bufs[work := bufs[work].(data := Data() + p)])
          else this
        else if Footed(Data()) then
          this.(bufs := bufs[work := bufs[work].(status := Ready)][Next(work) := Buf(Empty, [])],
                cur := work, work := Next(work))
        else this
      case ReadBegin =>
        if reader.Idle? && bufs[cur].status.Ready? && |bufs[cur].data| >= 4 then this.(reader := Copying(cur)) else this
      case ReadEnd =>
        if reader.Copying? then
          this.(bufs := bufs[reader.slot := bufs[reader.slot].(status := Empty)], reader := Idle)
        else this
    }
  }

  function AfterOpen(): Usb {
    Usb([Buf(Empty, []), Buf(Empty, []), Buf(Empty, [])], 1, 0, false, Idle)
  }

  function Run(s: Usb, es: seq<Event>): Usb
    decreases |es|
  {
    if es == [] then s else Run(s.Step(es[0]), es[1..])
  }

  // ---------------------------------------------------------------- the ring

  /** What holds at every moment: the work buffer is the successor of the current
      one, never ready, none is overfull, and a ready buffer holds a whole frame. */
  ghost predicate Inv(s: Usb) {
    && s.work == Next(s.cur)
    && !s.bufs[s.work].status.Ready?
    && forall i: Slot :: |s.bufs[i].data| <= FRAMEBUF_LEN && (s.bufs[i].status.Ready? ==> Footed(s.bufs[i].data))
  }

  lemma InvStep(s: Usb, e: Event)
    requires Inv(s)
    ensures Inv(s.Step(e))
  {
  }

  lemma {:induction false} InvRun(s: Usb, es: seq<Event>)
    requires Inv(s)
    ensures Inv(Run(s, es))
    decreases |es|
  {
    if es != [] {
      InvStep(s, es[0]);
      InvRun(s.Step(es[0]), es[1..]);
    }
  }

  /** Not a packet of one byte that would open a frame on the strength of a stale one. */
  predicate NoStub(e: Event) {
    e.Packet? && |e.payload| == 1 ==> !Opens(e.payload, e.stale)
  }

  /** Every buffer in use starts with the two magic bytes. */
  ghost predicate AllHeaded(s: Usb) {
    forall i: Slot :: s.bufs[i].data == [] || Headed(s.bufs[i].data)
  }

  lemma {:induction false} HeadedRun(s: Usb, es: seq<Event>)
    requires AllHeaded(s) && forall k | 0 <= k < |es| :: NoStub(es[k])
    ensures AllHeaded(Run(s, es))
    decreases |es|
  {
    if es != [] {
      assert NoStub(es[0]);
      HeadedRun(s.Step(es[0]), es[1..]);
    }
  }

  /** In every run after open, work follows current and a ready frame ends in four
      end-of-image bytes; with no stub among the packets it starts with the magic. */
  lemma ReadyIsFramed(es: seq<Event>, i: Slot)
    ensures var s := Run(AfterOpen(), es);
      && s.work == Next(s.cur)
      && (s.bufs[i].status.Ready? ==>
            Footed(s.bufs[i].data) && ((forall k | 0 <= k < |es| :: NoStub(es[k])) ==> Headed(s.bufs[i].data)))
  {
    InvRun(AfterOpen(), es);
    if forall k | 0 <= k < |es| :: NoStub(es[k]) {
      HeadedRun(AfterOpen(), es);
    }
  }

  /** A first packet of one byte gets in on the strength of a stale byte. */
  lemma StubGetsIn()
    ensures var s := Run(AfterOpen(), [UrbStart, Packet([0x19], 0x68), Packet([255, 255, 255, 255], 0), Packet([], 0)]);
      s.bufs[s.cur].status.Ready? && !Headed(s.bufs[s.cur].data)
  {
    var s1 := AfterOpen().Step(UrbStart);
    var s2 := s1.Step(Packet([0x19], 0x68));
    var s3 := s2.Step(Packet([255, 255, 255, 255], 0));
    var s4 := s3.Step(Packet([], 0));
    assert s3.Data() == [0x19, 255, 255, 255, 255];
    var es := [UrbStart, Packet([0x19], 0x68), Packet([255, 255, 255, 255], 0), Packet([], 0)];
    assert es[1..][1..][1..][1..] == [];
    assert Run(AfterOpen(), es) == Run(s1, es[1..]) == Run(s2, es[1..][1..]) == Run(s3, es[1..][1..][1..]) == s4;
  }

  // ------------------------------------------------- a frame is what was sent

  /** The bytes the handler came to look at. */
  function Taken(s: Usb, es: seq<Event>): seq<Byte>
    decreases |es|
  {
    if es == [] then []
    else (if s.Takes(es[0]) then es[0].payload else []) + Taken(s.Step(es[0]), es[1..])
  }

  predicate SliceAt(d: seq<Byte>, past: seq<Byte>, x: int) {
    0 <= x && x + |d| <= |past| && past[x..x + |d|] == d
  }

  ghost predicate IsStretch(d: seq<Byte>, past: seq<Byte>) {
    exists x :: SliceAt(d, past, x)
  }

  /** The work buffer holds the latest bytes and a ready one a stretch of them. */
  ghost predicate Traced(s: Usb, past: seq<Byte>) {
    && SliceAt(s.Data(), past, |past| - |s.Data()|)
    && forall i: Slot :: s.bufs[i].status.Ready? ==> IsStretch(s.bufs[i].data, past)
  }

  lemma SliceKept(d: seq<Byte>, past: seq<Byte>, x: int, more: seq<Byte>)
    requires SliceAt(d, past, x)
    ensures SliceAt(d, past + more, x)
  {
    assert (past + more)[x..x + |d|] == past[x..x + |d|];
  }

  lemma SliceGrows(d: seq<Byte>, past: seq<Byte>, more: seq<Byte>)
    requires SliceAt(d, past, |past| - |d|)
    ensures SliceAt(d + more, past + more, |past + more| - |d + more|)
  {
    assert (past + more)[|past| - |d|..] == past[|past| - |d|..] + more;
  }

  lemma TracedStep(s: Usb, past: seq<Byte>, e: Event)
    requires Inv(s) && Traced(s, past)
    ensures Traced(s.Step(e), past + if s.Takes(e) then e.payload else [])
  {
    var more := if s.Takes(e) then e.payload else [];
    var t := s.Step(e);
    SliceGrows(s.Data(), past, more);
    forall i: Slot | t.bufs[i].status.Ready?
      ensures IsStretch(t.bufs[i].data, past + more)
    {
      if s.bufs[i].status.Ready? {
        var x :| SliceAt(s.bufs[i].data, past, x);
        SliceKept(s.bufs[i].data, past, x, more);
      } else {
        assert i == s.work;
        SliceKept(s.Data(), past, |past| - |s.Data()|, more);
      }
    }
  }

  lemma {:induction false} TracedRun(s: Usb, past: seq<Byte>, es: seq<Event>)
    requires Inv(s) && Traced(s, past)
    ensures Traced(Run(s, es), past + Taken(s, es))
    decreases |es|
  {
    if es == [] {
      assert past + Taken(s, es) == past;
    } else {
      var more := if s.Takes(es[0]) then es[0].payload else [];
      var t := s.Step(es[0]);
      InvStep(s, es[0]);
      TracedStep(s, past, es[0]);
      TracedRun(t, past + more, es[1..]);
      Regroup(past, more, Taken(t, es[1..]));
    }
  }

  /** A ready frame is an unbroken stretch of the bytes that were taken, in order. */
  lemma ReadyIsContiguous(es: seq<Event>, i: Slot)
    requires Run(AfterOpen(), es).bufs[i].status.Ready?
    ensures IsStretch(Run(AfterOpen(), es).bufs[i].data, Taken(AfterOpen(), es))
  {
    TracedAtFirst();
    TracedRun(AfterOpen(), [], es);
    NothingBefore(Taken(AfterOpen(), es));
    TracedReady(Run(AfterOpen(), es), Taken(AfterOpen(), es), i);
  }

  lemma TracedAtFirst()
    ensures Inv(AfterOpen()) && Traced(AfterOpen(), [])
  {
  }

  lemma TracedReady(s: Usb, past: seq<Byte>, i: Slot)
    requires Traced(s, past) && s.bufs[i].status.Ready?
    ensures IsStretch(s.bufs[i].data, past)
  {
  }

  lemma NothingBefore(s: seq<Byte>)
    ensures [] + s == s
  {
  }

  // -------------------------------------------------------------- the reader

  /** How many frames a run completes. */
  function Completions(s: Usb, es: seq<Event>): nat
    decreases |es|
  {
    if es == [] then 0 else (if s.Completes(es[0]) then 1 else 0) + Completions(s.Step(es[0]), es[1..])
  }

  predicate NoReadEnd(es: seq<Event>) {
    forall k | 0 <= k < |es| :: !es[k].ReadEnd?
  }

  /** How many frames may still complete before the handler comes to buffer b. */
  function Distance(s: Usb, b: Slot): int {
    (b - s.work) % 3
  }

  /** While fewer frames complete than the buffer is away, it is left alone. */
  lemma {:induction false} LeftAlone(s: Usb, es: seq<Event>, b: Slot)
    requires Inv(s) && Completions(s, es) < Distance(s, b) && NoReadEnd(es)
    ensures Run(s, es).bufs[b] == s.bufs[b]
    decreases |es|
  {
    if es != [] {
      var t := s.Step(es[0]);
      InvStep(s, es[0]);
      assert !es[0].ReadEnd?;
      assert Distance(t, b) == Distance(s, b) - if s.Completes(es[0]) then 1 else 0;
      LeftAlone(t, es[1..], b);
    }
  }

  /** The buffer a reader starts to copy is not written to before a second further
      frame completes. */
  lemma ReaderUndisturbed(s: Usb, es: seq<Event>)
    requires Inv(s) && s.reader.Idle? && s.Step(ReadBegin).reader.Copying? && NoReadEnd(es)
    requires Completions(s.Step(ReadBegin), es) <= 1
    ensures Run(s.Step(ReadBegin), es).bufs[s.cur] == s.bufs[s.cur]
  {
    LeftAlone(s.Step(ReadBegin), es, s.cur);
  }

  /** The second one empties it under the reader's hands. */
  lemma SecondFrameHitsReader(s: Usb, es: seq<Event>, e: Event)
    requires Inv(s) && s.reader.Idle? && s.Step(ReadBegin).reader.Copying? && NoReadEnd(es)
    requires Completions(s.Step(ReadBegin), es) == 1 && Run(s.Step(ReadBegin), es).Completes(e)
    ensures Run(s.Step(ReadBegin), es).Step(e).bufs[s.cur] == Buf(Empty, [])
  {
    WorkMoves(s.Step(ReadBegin), es);
  }

  /** The n-th buffer behind i. */
  function Around(i: Slot, n: nat): Slot
    decreases n
  {
    if n == 0 then i else Around(Next(i), n - 1)
  }

  lemma {:induction false} WorkMoves(s: Usb, es: seq<Event>)
    requires Inv(s)
    ensures Run(s, es).work == Around(s.work, Completions(s, es))
    decreases |es|
  {
    if es != [] {
      var t := s.Step(es[0]);
      InvStep(s, es[0]);
      assert t.work == if s.Completes(es[0]) then Next(s.work) else s.work;
      WorkMoves(t, es[1..]);
    }
  }

  predicate Starts(s: Usb, e: Event) { s.reader.Idle? && s.Step(e).reader.Copying? }

  /** In every run after open a reader starts only on a whole frame, the one completed
      last. */
  lemma StartsOnFrame(es: seq<Event>, e: Event)
    requires Starts(Run(AfterOpen(), es), e)
    ensures var s := Run(AfterOpen(), es);
      && e == ReadBegin && s.Step(e).reader == Copying(s.cur) && s.bufs[s.cur].status.Ready? && Footed(s.bufs[s.cur].data)
  {
    InvRun(AfterOpen(), es);
  }

  /** And whenever one is ready, a reader that comes starts on it. */
  lemma ReadyIsServed(s: Usb)
    requires Inv(s) && s.reader.Idle?
    ensures Starts(s, ReadBegin) <==> s.bufs[s.cur].status.Ready?
  {
  }

  /** The frames the reads of a run are of, by their number, k having completed before. */
  function FramesRead(s: Usb, es: seq<Event>, k: nat): seq<nat>
    decreases |es|
  {
    if es == [] then []
    else (if Starts(s, es[0]) then [k] else [])
         + FramesRead(s.Step(es[0]), es[1..], k + if s.Completes(es[0]) then 1 else 0)
  }

  predicate RisingFrom(ns: seq<nat>, floor: nat) {
    (forall i | 0 <= i < |ns| :: ns[i] > floor) && forall i, j | 0 <= i < j < |ns| :: ns[i] < ns[j]
  }

  /** Of the k frames completed, number f was the last that was read. */
  predicate LastRead(s: Usb, k: nat, f: nat) {
    && f <= k
    && (s.reader.Idle? && s.bufs[s.cur].status.Ready? ==> f < k)
    && (s.reader.Copying? && f == k ==> s.reader.slot == s.cur)
  }

  lemma LastReadStep(s: Usb, e: Event, k: nat, f: nat)
    requires Inv(s) && LastRead(s, k, f)
    ensures Starts(s, e) ==> f < k
    ensures LastRead(s.Step(e), k + if s.Completes(e) then 1 else 0, if Starts(s, e) then k else f)
  {
  }

  lemma RisingBehind(k: nat, ns: seq<nat>, f: nat)
    requires f < k && RisingFrom(ns, k)
    ensures RisingFrom([k] + ns, f)
  {
  }

  /** No frame is read twice. */
  lemma {:induction false} ReadOnce(s: Usb, es: seq<Event>, k: nat, f: nat)
    requires Inv(s) && LastRead(s, k, f)
    ensures RisingFrom(FramesRead(s, es, k), f)
    decreases |es|
  {
    if es != [] {
      var t, k1 := s.Step(es[0]), k + if s.Completes(es[0]) then 1 else 0;
      var rest := FramesRead(t, es[1..], k1);
      InvStep(s, es[0]);
      LastReadStep(s, es[0], k, f);
      if Starts(s, es[0]) {
        ReadOnce(t, es[1..], k1, k);
        RisingBehind(k, rest, f);
      } else {
        ReadOnce(t, es[1..], k1, f);
        assert [] + rest == rest;
      }
    }
  }

  /** In every run after open the frames read are ones completed, each at most once and
      in order. */
  lemma EachReadOnce(es: seq<Event>)
    ensures RisingFrom(FramesRead(AfterOpen(), es, 0), 0)
  {
    ReadOnce(AfterOpen(), es, 0, 0);
  }

  /** A packet for which there is no room ends its transfer: nothing of what follows in
      it is taken. */
  lemma NoRoom(s: Usb, e: Event, es: seq<Event>)
    requires Inv(s) && !s.skip && e.Packet? && |s.Data()| + |e.payload| > FRAMEBUF_LEN
    requires forall k | 0 <= k < |es| :: es[k].Packet?
    ensures Run(s, [e] + es) == s.(skip := true)
  {
    assert ([e] + es)[1..] == es;
    SkipsRest(s.Step(e), es);
  }

  // ------------------------------------------------------ which frames arrive

  /** The events go on with a frame of which d has come: packets over any transfers,
      none of them an end of the frame, and whatever the reader does meanwhile. */
  predicate Continues(d: seq<Byte>, es: seq<Event>)
    decreases |es|
  {
    es == [] || (
      match es[0]
      case Packet(p, _) => (p == [] ==> !Footed(d)) && Continues(d + p, es[1..])
      case _ => Continues(d, es[1..]))
  }

  function Payload(e: Event): seq<Byte> {
    if e.Packet? then e.payload else []
  }

  function Bytes(es: seq<Event>): seq<Byte>
    decreases |es|
  {
    if es == [] then [] else Payload(es[0]) + Bytes(es[1..])
  }

  /** A frame, up to the empty packet that ends it: an opening packet and more. */
  predicate IsFrame(first: Event, es: seq<Event>) {
    && first.Packet? && Opens(first.payload, first.stale) && Continues(first.payload, es)
    && Footed(first.payload + Bytes(es)) && |first.payload + Bytes(es)| <= FRAMEBUF_LEN
  }

  /** The buffer the frame goes into is emptied on the way: a transfer starts while it
      is marked empty.  It is so marked from the beginning when another frame ended in
      the transfer in which this one begins, or when a reader whose copy of it is
      overdue, mine, gets done. */
  predicate Wiped(empty: bool, mine: bool, es: seq<Event>)
    decreases |es|
  {
    es != [] && (
      match es[0]
      case UrbStart => empty || Wiped(false, mine, es[1..])
      case ReadEnd => Wiped(empty || mine, false, es[1..])
      case _ => Wiped(empty, mine, es[1..]))
  }

  predicate Marked(s: Usb) { s.bufs[s.work].status.Empty? }

  /** The reader copies what is the work buffer by now. */
  predicate Overdue(s: Usb) { s.reader == Copying(s.work) }

  predicate WipesNow(s: Usb, e: Event) { e.UrbStart? && Marked(s) }

  /** One event that does not wipe the frame out: what it brings is added. */
  lemma GathersOne(s: Usb, e: Event)
    requires Inv(s) && s.Data() != [] && !s.skip && |s.Data()| + |Payload(e)| <= FRAMEBUF_LEN && !WipesNow(s, e)
    requires e.Packet? && e.payload == [] ==> !Footed(s.Data())
    ensures var t := s.Step(e);
      && t.work == s.work && t.cur == s.cur && !t.skip && t.Data() == s.Data() + Payload(e)
      && Marked(t) == (Marked(s) || (e.ReadEnd? && Overdue(s))) && Overdue(t) == (Overdue(s) && !e.ReadEnd?)
  {
    assert s.Data() + [] == s.Data();
  }

  /** Unless it is wiped out, all of a frame goes into the work buffer, however it
      spreads over transfers. */
  lemma {:induction false} Gathers(s: Usb, es: seq<Event>)
    requires Inv(s) && s.Data() != [] && !s.skip && Continues(s.Data(), es) && |s.Data()| + |Bytes(es)| <= FRAMEBUF_LEN
    requires !Wiped(Marked(s), Overdue(s), es)
    ensures var t := Run(s, es);
      Inv(t) && t.work == s.work && t.cur == s.cur && !t.skip && t.Data() == s.Data() + Bytes(es)
    decreases |es|
  {
    if es == [] {
      assert s.Data() + [] == s.Data();
    } else {
      InvStep(s, es[0]);
      GathersOne(s, es[0]);
      assert s.Data() + [] == s.Data();
      Regroup(s.Data(), Payload(es[0]), Bytes(es[1..]));
      Gathers(s.Step(es[0]), es[1..]);
    }
  }

  /** Buffer w does not hold more than n bytes when it is the work buffer or the
      current one. */
  predicate AtMost(s: Usb, w: Slot, n: nat) {
    |s.Data()| <= n && (s.cur == w ==> |s.bufs[w].data| <= n)
  }

  /** From an empty work buffer no frame can grow beyond the bytes that come. */
  lemma {:induction false} BytesBound(s: Usb, es: seq<Event>, w: Slot, n: nat)
    requires Inv(s) && AtMost(s, w, n)
    ensures Inv(Run(s, es)) && AtMost(Run(s, es), w, n + |Bytes(es)|)
    decreases |es|
  {
    if es != [] {
      InvStep(s, es[0]);
      BytesBound(s.Step(es[0]), es[1..], w, n + |Payload(es[0])|);
    }
  }

  /** Once it is wiped out, the bytes still to come are too few. */
  lemma {:induction false} TooFew(s: Usb, es: seq<Event>)
    requires Inv(s) && s.Data() != [] && !s.skip && Continues(s.Data(), es) && |s.Data()| + |Bytes(es)| <= FRAMEBUF_LEN
    requires Wiped(Marked(s), Overdue(s), es)
    ensures Inv(Run(s, es)) && AtMost(Run(s, es), s.work, |Bytes(es)|)
    decreases |es|
  {
    var t := s.Step(es[0]);
    InvStep(s, es[0]);
    if WipesNow(s, es[0]) {
      BytesBound(t, es[1..], s.work, 0);
    } else {
      GathersOne(s, es[0]);
      assert s.Data() + [] == s.Data();
      TooFew(t, es[1..]);
    }
  }

  lemma Opened(s: Usb, first: Event)
    requires Inv(s) && s.Data() == [] && !s.skip && first.Packet? && Opens(first.payload, first.stale)
    requires |first.payload| <= FRAMEBUF_LEN
    ensures var t := s.Step(first);
      && Inv(t) && t.work == s.work && t.cur == s.cur && !t.skip && t.reader == s.reader
      && t.bufs[t.work] == s.bufs[s.work].(data := first.payload)
  {
    assert [] + first.payload == first.payload;
  }

  /** The empty packet that ends a frame. */
  lemma Ended(s: Usb)
    requires Inv(s) && !s.skip && Footed(s.Data())
    ensures var t := s.Step(Packet([], 0));
      && Inv(t) && t.cur == s.work && t.work == Next(s.work) && !t.skip && t.reader == s.reader
      && t.bufs[t.cur] == Buf(Ready, s.Data()) && t.bufs[t.work] == Buf(Empty, [])
  {
  }

  lemma FrameArrives(s: Usb, first: Event, es: seq<Event>)
    requires Inv(s) && s.Data() == [] && !s.skip && IsFrame(first, es) && !Wiped(Marked(s), Overdue(s), es)
    ensures var t := Run(s.Step(first), es).Step(Packet([], 0));
      t.cur == s.work && t.bufs[t.cur] == Buf(Ready, first.payload + Bytes(es))
  {
    Opened(s, first);
    Gathers(s.Step(first), es);
    Ended(Run(s.Step(first), es));
  }

  lemma FrameIsLost(s: Usb, first: Event, es: seq<Event>)
    requires Inv(s) && s.Data() == [] && !s.skip && IsFrame(first, es) && Wiped(Marked(s), Overdue(s), es)
    ensures var t := Run(s.Step(first), es).Step(Packet([], 0));
      t.cur == s.work ==> |t.bufs[t.cur].data| < |first.payload + Bytes(es)|
  {
    Opened(s, first);
    TooFew(s.Step(first), es);
    AtMostStep(Run(s.Step(first), es), s.work, |Bytes(es)|);
  }

  lemma AtMostStep(s: Usb, w: Slot, n: nat)
    requires Inv(s) && AtMost(s, w, n)
    ensures AtMost(s.Step(Packet([], 0)), w, n)
  {
  }

  /** A frame that is sent becomes the current one, ready and byte for byte, if and
      only if it is not wiped out on the way. */
  lemma FrameArrivesIff(s: Usb, first: Event, es: seq<Event>)
    requires Inv(s) && s.Data() == [] && !s.skip && IsFrame(first, es)
    ensures var t := Run(s.Step(first), es).Step(Packet([], 0));
      (t.cur == s.work && t.bufs[t.cur] == Buf(Ready, first.payload + Bytes(es)))
      <==> !Wiped(Marked(s), Overdue(s), es)
  {
    if Wiped(Marked(s), Overdue(s), es) {
      FrameIsLost(s, first, es);
    } else {
      FrameArrives(s, first, es);
    }
  }

  /** The events without the packets that come before the frame is wiped out. */
  function Without(empty: bool, mine: bool, es: seq<Event>): seq<Event>
    decreases |es|
  {
    if es == [] then []
    else
      match es[0]
      case UrbStart => [es[0]] + (if empty then es[1..] else Without(false, mine, es[1..]))
      case ReadEnd => [es[0]] + Without(empty || mine, false, es[1..])
      case Packet(_, _) => Without(empty, mine, es[1..])
      case ReadBegin => [es[0]] + Without(empty, mine, es[1..])
  }

  /** The state as if nothing of the frame in the work buffer had come. */
  function Forget(s: Usb): Usb {
    s.(bufs := s.bufs[s.work := s.bufs[s.work].(data := [])])
  }

  lemma ForgetStep(s: Usb, e: Event)
    requires Inv(s) && !e.Packet?
    ensures s.Step(e).work == s.work && Forget(s).Step(e) == Forget(s.Step(e))
    ensures WipesNow(s, e) ==> Forget(s.Step(e)) == s.Step(e)
  {
    assert s.bufs[s.work := s.bufs[s.work]] == s.bufs;
  }

  lemma ForgetPacket(s: Usb, e: Event)
    requires Inv(s) && s.Data() != [] && !s.skip && |s.Data()| + |Payload(e)| <= FRAMEBUF_LEN && e.Packet?
    requires e.payload == [] ==> !Footed(s.Data())
    ensures Forget(s.Step(e)) == Forget(s)
  {
    assert s.bufs[s.work := s.bufs[s.work]] == s.bufs;
  }

  /** Nothing is left of a frame that is wiped out: all goes on as if its packets up
      to there had never come, whatever follows. */
  lemma {:induction false} WipedIsForgotten(s: Usb, es: seq<Event>)
    requires Inv(s) && s.Data() != [] && !s.skip && Continues(s.Data(), es) && |s.Data()| + |Bytes(es)| <= FRAMEBUF_LEN
    requires Wiped(Marked(s), Overdue(s), es)
    ensures Run(s, es) == Run(Forget(s), Without(Marked(s), Overdue(s), es))
    decreases |es|
  {
    var e, t, rest := es[0], s.Step(es[0]), Without(Marked(s), Overdue(s), es);
    InvStep(s, e);
    assert s.Data() + [] == s.Data();
    if e.Packet? {
      GathersOne(s, e);
      ForgetPacket(s, e);
      WipedIsForgotten(t, es[1..]);
    } else {
      ForgetStep(s, e);
      assert rest[0] == e;
      if WipesNow(s, e) {
        assert rest[1..] == es[1..];
      } else {
        GathersOne(s, e);
        WipedIsForgotten(t, es[1..]);
        assert rest[1..] == Without(Marked(t), Overdue(t), es[1..]);
      }
    }
  }

  // A late reader loses a frame that begins in a transfer of its own.

  const WHOLE: seq<Byte> := [0x19, 0x68, 255, 255, 255, 255]

  lemma RunOne(s: Usb, e: Event, es: seq<Event>)
    ensures Run(s, [e] + es) == Run(s.Step(e), es)
  {
    assert ([e] + es)[1..] == es;
  }

  /** A whole frame in two packets of one transfer. */
  lemma WholeFrame(s: Usb, es: seq<Event>) returns (t: Usb)
    requires Inv(s) && s.Data() == [] && !s.skip
    ensures Run(s, [Packet(WHOLE, 0)] + ([Packet([], 0)] + es)) == Run(t, es)
    ensures Inv(t) && t.cur == s.work && t.bufs[t.cur] == Buf(Ready, WHOLE) && t.bufs[t.work] == Buf(Empty, [])
    ensures !t.skip && t.reader == s.reader && t.work == Next(s.work)
  {
    var u := s.Step(Packet(WHOLE, 0));
    RunOne(s, Packet(WHOLE, 0), [Packet([], 0)] + es);
    RunOne(u, Packet([], 0), es);
    Opened(s, Packet(WHOLE, 0));
    Ended(u);
    t := u.Step(Packet([], 0));
  }

  /** A reader starts on the first of three frames and is still at it when the
      transfer behind the third starts. */
  function Late(): seq<Event> {
    [UrbStart] + ([Packet(WHOLE, 0)] + ([Packet([], 0)] + ([ReadBegin]
      + ([Packet(WHOLE, 0)] + ([Packet([], 0)] + ([Packet(WHOLE, 0)] + ([Packet([], 0)] + ([UrbStart] + []))))))))
  }

  lemma LateReader() returns (s: Usb)
    ensures s == Run(AfterOpen(), Late())
    ensures Inv(s) && s.bufs[s.work] == Buf(Reading, []) && !s.skip && Overdue(s)
  {
    var third := [Packet(WHOLE, 0)] + ([Packet([], 0)] + ([UrbStart] + []));
    var second := [Packet(WHOLE, 0)] + ([Packet([], 0)] + third);
    var a := AfterOpen().Step(UrbStart);
    RunOne(AfterOpen(), UrbStart, [Packet(WHOLE, 0)] + ([Packet([], 0)] + ([ReadBegin] + second)));
    var b := WholeFrame(a, [ReadBegin] + second);
    var c := b.Step(ReadBegin);
    RunOne(b, ReadBegin, second);
    InvStep(b, ReadBegin);
    var d := WholeFrame(c, third);
    var e := WholeFrame(d, [UrbStart] + []);
    RunOne(e, UrbStart, []);
    InvStep(e, UrbStart);
    s := e.Step(UrbStart);
  }

  function LateFrame(): seq<Event> {
    [ReadEnd] + ([UrbStart] + ([Packet([255, 255, 255, 255], 0)] + []))
  }

  lemma LateIsFrame()
    ensures IsFrame(Packet([0x19, 0x68], 0), LateFrame()) && Bytes(LateFrame()) == [255, 255, 255, 255]
  {
    var es := LateFrame();
    assert es[1..] == [UrbStart] + ([Packet([255, 255, 255, 255], 0)] + []);
    assert es[1..][1..] == [Packet([255, 255, 255, 255], 0)] && es[1..][1..][1..] == [];
    assert [0x19, 0x68] + [255, 255, 255, 255] == WHOLE;
  }

  lemma LateFrameRun(s: Usb)
    requires Inv(s) && s.bufs[s.work] == Buf(Reading, []) && !s.skip && Overdue(s)
    ensures var t := Run(s.Step(Packet([0x19, 0x68], 0)), LateFrame());
      Inv(t) && t.cur == s.cur && t.work == s.work && t.Data() == []
  {
    var last := Packet([255, 255, 255, 255], 0);
    Opened(s, Packet([0x19, 0x68], 0));
    var a := s.Step(Packet([0x19, 0x68], 0));
    var b := a.Step(ReadEnd);
    var c := b.Step(UrbStart);
    InvStep(a, ReadEnd);
    InvStep(b, UrbStart);
    RunOne(a, ReadEnd, [UrbStart] + ([last] + []));
    RunOne(b, UrbStart, [last] + []);
    RunOne(c, last, []);
    assert c.Step(last) == c;
  }

  /** The frame that follows is lost although no other ended in the transfer in which
      it begins: the reader gets done and the next transfer starts. */
  lemma LateReaderLoses()
    ensures var s, first := Run(AfterOpen(), Late()), Packet([0x19, 0x68], 0);
      && s.bufs[s.work] == Buf(Reading, []) && !s.skip && IsFrame(first, LateFrame())
      && var t := Run(s.Step(first), LateFrame()).Step(Packet([], 0)); t.cur == s.cur && t.Data() == []
  {
    var s := LateReader();
    LateIsFrame();
    LateFrameRun(s);
  }

  /** Such a frame starts with the magic if and only if its opening packet is longer
      than a byte or the byte behind that one is right. */
  lemma HeadedIff(first: Event, es: seq<Event>)
    requires IsFrame(first, es)
    ensures Headed(first.payload + Bytes(es)) <==> |first.payload| > 1 || Bytes(es)[0] == MAGIC_1
  {
    var d := first.payload + Bytes(es);
    assert d[0] == first.payload[0];
    assert d[1] == if |first.payload| > 1 then first.payload[1] else Bytes(es)[0];
  }

  // ------------------------------------------------------------ the functions

  /** A packet of a completed transfer. */
  datatype IsoPacket = IsoPacket(payload: seq<Byte>, stale: Byte)

  function Events(ps: seq<IsoPacket>): seq<Event> {
    seq(|ps|, k requires 0 <= k < |ps| => Packet(ps[k].payload, ps[k].stale))
  }

  class UsbCamera {
    var bufs: Ring
    var work: Slot
    var cur: Slot

    function Get(skip: bool, reader: Reader): Usb
      reads this
    {
      Usb(bufs, work, cur, skip, reader)
    }

    constructor ()
      ensures Get(false, Idle) == AfterOpen()
    {
      bufs := [Buf(Empty, []), Buf(Empty, []), Buf(Empty, [])];
      cur, work := 0, 1;
    }

    /** The completion handler; it resubmits the transfer unless room ran out. */
    method Complete(packets: seq<IsoPacket>, ghost reader: Reader) returns (resubmit: bool)
      modifies this
      ensures Get(!resubmit, reader) == Run(old(Get(false, reader)), [UrbStart] + Events(packets))
    {
      if bufs[work].status == Empty {
        bufs := bufs[work := Buf(Reading, [])];
      }
      ghost var es := [UrbStart] + Events(packets);
      assert es[1..] == Events(packets);
      var i := 0;
      while i < |packets|
        invariant 0 <= i <= |packets|
        invariant Run(Get(false, reader), Events(packets)[i..]) == Run(old(Get(false, reader)), es)
      {
        assert Events(packets)[i..][1..] == Events(packets)[i + 1..];
        var p := packets[i].payload;
        if FRAMEBUF_LEN < |bufs[work].data| + |p| {
          SkipsRest(Get(true, reader), Events(packets)[i + 1..]);
          return false;
        }
        if p != [] {
          if bufs[work].data != [] || Opens(p, packets[i].stale) {
            bufs := bufs[work := bufs[work].(data := bufs[work].data + p)];
          }
        } else if Footed(bufs[work].data) {
          bufs := bufs[work := bufs[work].(status := Ready)];
          cur := work;
          work := Next(work);
          bufs := bufs[work := Buf(Empty, [])];
        }
        i := i + 1;
      }
      resubmit := true;
    }

    /** The first half of streamRead, after the wait: the buffer to copy, or none. */
    method BeginRead() returns (mybuff: Reader)
      ensures Get(false, mybuff) == Get(false, Idle).Step(ReadBegin)
    {
      if bufs[cur].status != Ready || |bufs[cur].data| < 4 {
        return Idle;
      }
      mybuff := Copying(cur);
    }

    /** The second half, when the buffer has been copied. */
    method EndRead(mybuff: Reader) returns (n: int)
      requires mybuff.Copying?
      modifies this`bufs
      ensures Get(false, Idle) == old(Get(false, mybuff)).Step(ReadEnd) && n == |old(bufs)[mybuff.slot].data|
    {
      bufs := bufs[mybuff.slot := bufs[mybuff.slot].(status := Empty)];
      n := |bufs[mybuff.slot].data|;
    }
  }

  lemma {:induction false} SkipsRest(s: Usb, es: seq<Event>)
    requires s.skip && forall k | 0 <= k < |es| :: es[k].Packet?
    ensures Run(s, es) == s
    decreases |es|
  {
    if es != [] {
      assert s.Step(es[0]) == s;
      SkipsRest(s, es[1..]);
    }
  }
}
