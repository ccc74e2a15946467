/** The buffer queues of the Motion Eye driver (video/meye.c: meye_irq, vidioc_qbuf,
    vidioc_dqbuf, vidioc_streamoff, meye_open): applications queue buffers to be
    filled, the interrupt handler fills them and queues them as done. */
module MeyeQueues {
  import opened Basics
  import opened MeyeRing

  const MAX_BUFNBRS: int := 32

  datatype State = Unused | Using | Done

  /** A capture buffer and what it holds. */
  datatype Grab = Grab(state: State, sequence: int, data: seq<Byte>)

  type Index = i: int | 0 <= i < MAX_BUFNBRS

  type Grabs = s: seq<Grab> | |s| == MAX_BUFNBRS witness seq(MAX_BUFNBRS, _ => Grab(Unused, 0, []))

  datatype Mode = ContOut | ContComp | Other

  /** A frame the device has ready: its frame register and the ring at that moment. */
  datatype Frame = Frame(v: nat, ring: seq<Byte>)

  type Count = n: nat | n <= MAX_BUFNBRS

  /** Buffers in use, the size of each and of an uncompressed image. */
  datatype Config = Config(buffers: Count, size: nat, image: nat)

  datatype Delivery = Delivery(index: Index, sequence: int, data: seq<Byte>)

  datatype Reply = Again | Invalid | Got(d: Delivery)

  datatype Event = Qbuf(i: nat) | Dqbuf | Streamoff | Open | Irq(mode: Mode, frames: seq<Frame>)
  {
    predicate Resets() { Streamoff? || Open? }

    predicate Ok() { Irq? ==> forall k | 0 <= k < |frames| :: |frames[k].ring| > 0 }
  }

  /** kfifo_put on a fifo of 32 indices: there is no room for more. */
  function Put(q: seq<Index>, i: Index): seq<Index> {
    if |q| < MAX_BUFNBRS then q + [i] else q
  }

  /** What reading a ready frame gives. */
  ghost function Fetched(c: Config, mode: Mode, f: Frame): Option<seq<Byte>>
    requires |f.ring| > 0
  {
    if mode.ContOut? then Some(Stretch(f.ring, f.v / 0x20000 % 0x400, c.image)) else CompFrame(f.v, f.ring, c.size)
  }

  datatype Meye = Meye(bufs: Grabs, grabq: seq<Index>, doneq: seq<Index>, sequence: int, fnum: int)
  {
    function FreeFrame(): Meye { this.(fnum := (fnum + 1) % 4) }

    /** The next buffer in line gets the frame. */
    function Fill(data: seq<Byte>): Meye
      requires grabq != []
    {
      this.(bufs := bufs[grabq[0] := Grab(Done, sequence, data)], grabq := grabq[1..],
            doneq := Put(doneq, grabq[0]), sequence := sequence + 1)
    }

    /** One turn of the interrupt loop. */
    ghost function Serve(c: Config, mode: Mode, f: Frame): Meye
      requires |f.ring| > 0
    {
      var got := Fetched(c, mode, f);
      if grabq != [] && got.Some? then Fill(got.value).FreeFrame() else FreeFrame()
    }

    /** The interrupt loop on the frames that are ready. */
    ghost function Service(c: Config, mode: Mode, fs: seq<Frame>): Meye
      requires forall k | 0 <= k < |fs| :: |fs[k].ring| > 0
      decreases |fs|
    {
      if fs == [] || mode.Other? then this
      else if mode.ContOut? && grabq == [] then FreeFrame()
      else Serve(c, mode, fs[0]).Service(c, mode, fs[1..])
    }

    function Reset(): Meye {
      this.(bufs := seq(MAX_BUFNBRS, k requires 0 <= k < |bufs| => bufs[k].(state := Unused)), grabq := [], doneq := [])
    }

    predicate CanQueue(c: Config, i: nat) {
      i < c.buffers && bufs[i].state.Unused?
    }

    function Reply(): Reply {
      if doneq == [] then Again
      else if bufs[doneq[0]].state != Done then Invalid
      else Got(Delivery(doneq[0], bufs[doneq[0]].sequence, bufs[doneq[0]].data))
    }

    ghost function Step(c: Config, e: Event): Meye
      requires e.Ok()
    {
      match e
      case Qbuf(i) =>
        if CanQueue(c, i) then this.(bufs := bufs[i := bufs[i].(state := Using)], grabq := Put(grabq, i)) else this
      case Dqbuf =>
        if doneq == [] then this
        else if bufs[doneq[0]].state != Done then this.(doneq := doneq[1..])
        else this.(doneq := doneq[1..], bufs := bufs[doneq[0] := bufs[doneq[0]].(state := Unused)])
      case Streamoff => Reset()
      case Open => Reset()
      case Irq(mode, fs) => Service(c, mode, fs)
    }

    /** The buffers queued and not yet handed back, in line. */
    function Line(): seq<Index> { doneq + grabq }
  }

  // ----------------------------------------------------------- the invariant

  predicate Distinct(q: seq<Index>) {
    forall i, j | 0 <= i < j < |q| :: q[i] != q[j]
  }

  /** Every queued buffer stands in line once, in the queue its state says, the done
      ones carry rising sequence numbers, and fnum names one of four registers. */
  ghost predicate Inv(s: Meye) {
    && 0 <= s.fnum < 4
    && Distinct(s.Line())
    && (forall i: Index :: i in s.grabq <==> s.bufs[i].state == Using)
    && (forall i: Index :: i in s.doneq <==> s.bufs[i].state == Done)
    && Rising(s)
  }

  predicate Rising(s: Meye) {
    && (forall k | 0 <= k < |s.doneq| :: s.bufs[s.doneq[k]].sequence < s.sequence)
    && forall j, k | 0 <= j < k < |s.doneq| :: s.bufs[s.doneq[j]].sequence < s.bufs[s.doneq[k]].sequence
  }

  lemma {:induction false} DistinctFits(q: seq<Index>, n: nat)
    requires Distinct(q) && forall k | 0 <= k < |q| :: q[k] < n
    ensures |q| <= n
    decreases n
  {
    var first := if q == [] then 0 else q[0];
    if n > 0 && q != [] {
      if k :| 0 <= k < |q| && q[k] == n - 1 {
        DistinctFits(q[..k] + q[k + 1..], n - 1);
      } else {
        DistinctFits(q, n - 1);
      }
    }
  }

  /** No fifo can overflow: the two of them together never hold more than 32. */
  lemma NeverOverfull(s: Meye)
    requires Inv(s)
    ensures |s.grabq| + |s.doneq| <= MAX_BUFNBRS
  {
    DistinctFits(s.Line(), MAX_BUFNBRS);
  }

  lemma RoomToFill(s: Meye)
    requires Inv(s) && s.grabq != []
    ensures Put(s.doneq, s.grabq[0]) == s.doneq + [s.grabq[0]]
  {
    NeverOverfull(s);
  }

  lemma RoomToQueue(s: Meye, i: Index)
    requires Inv(s) && s.bufs[i].state.Unused?
    ensures Put(s.grabq, i) == s.grabq + [i] && i !in s.Line()
  {
    assert i !in s.doneq && i !in s.grabq;
    NeverOverfull(Meye(s.bufs[i := s.bufs[i].(state := Using)], s.grabq + [i], s.doneq, s.sequence, s.fnum)) by {
      assert s.doneq + (s.grabq + [i]) == s.Line() + [i];
    }
  }

  lemma FillInv(s: Meye, data: seq<Byte>)
    requires Inv(s) && s.grabq != []
    ensures Inv(s.Fill(data)) && s.Fill(data).Line() == s.Line()
  {
    var i := s.grabq[0];
    var t := s.Fill(data);
    RoomToFill(s);
    assert t.Line() == s.Line();
    assert i in s.Line();
    forall k: Index
      ensures (k in t.grabq <==> t.bufs[k].state == Using) && (k in t.doneq <==> t.bufs[k].state == Done)
    {
      assert k in s.grabq <==> k == i || k in s.grabq[1..];
      if k == i {
        FirstOnly(s.doneq, s.grabq);
      }
    }
  }

  lemma FirstOnly(a: seq<Index>, b: seq<Index>)
    requires b != [] && Distinct(a + b)
    ensures b[0] !in b[1..] && b[0] !in a
  {
    var q := a + b;
    assert q[|a|] == b[0];
    forall k | 1 <= k < |b| ensures b[k] != b[0] {
      assert q[|a| + k] == b[k];
    }
    forall k | 0 <= k < |a| ensures a[k] != b[0] {
      assert q[k] == a[k];
    }
  }

  lemma {:induction false} ServiceInv(s: Meye, c: Config, mode: Mode, fs: seq<Frame>)
    requires Inv(s) && forall k | 0 <= k < |fs| :: |fs[k].ring| > 0
    ensures Inv(s.Service(c, mode, fs)) && s.Service(c, mode, fs).Line() == s.Line()
    decreases |fs|
  {
    if fs != [] && !mode.Other? && !(mode.ContOut? && s.grabq == []) {
      var got := Fetched(c, mode, fs[0]);
      if s.grabq != [] && got.Some? {
        FillInv(s, got.value);
      }
      ServiceInv(s.Serve(c, mode, fs[0]), c, mode, fs[1..]);
    }
  }

  /** Of n ready frames an interrupt uses up all in compressed mode, and in
      uncompressed mode one more than there are queued buffers at most. */
  function UsedUp(s: Meye, mode: Mode, n: nat): nat {
    match mode
    case ContOut => if n <= |s.grabq| then n else |s.grabq| + 1
    case ContComp => n
    case Other => 0
  }

  lemma ServeMoves(s: Meye, c: Config, mode: Mode, f: Frame)
    requires Inv(s) && |f.ring| > 0 && !(mode.ContOut? && s.grabq == [])
    ensures var t := s.Serve(c, mode, f);
      Inv(t) && t.fnum == (s.fnum + 1) % 4 && (mode.ContOut? ==> |t.grabq| == |s.grabq| - 1)
  {
    var got := Fetched(c, mode, f);
    if s.grabq != [] && got.Some? {
      FillInv(s, got.value);
    }
  }

  lemma NextInTurn(a: int, n: nat)
    ensures ((a + 1) % 4 + n) % 4 == (a + (n + 1)) % 4
  {
  }

  lemma UsesOne(s: Meye, t: Meye, mode: Mode, n: nat)
    requires n > 0 && !mode.Other? && (mode.ContOut? ==> |t.grabq| == |s.grabq| - 1)
    ensures UsedUp(s, mode, n) == UsedUp(t, mode, n - 1) + 1
  {
  }

  lemma ServiceTurn(s: Meye, c: Config, mode: Mode, fs: seq<Frame>, r: Meye)
    requires fs != [] && (forall k | 0 <= k < |fs| :: |fs[k].ring| > 0) && r == s.Service(c, mode, fs)
    ensures r == if mode.Other? then s else if mode.ContOut? && s.grabq == [] then s.FreeFrame()
                 else s.Serve(c, mode, fs[0]).Service(c, mode, fs[1..])
  {
  }

  /** The frame registers are gone through in turn: each frame used up, whether it
      was kept or dropped, is given back once and moves on to the next register. */
  lemma {:induction false} ServiceRotates(s: Meye, c: Config, mode: Mode, fs: seq<Frame>, r: Meye)
    requires Inv(s) && (forall k | 0 <= k < |fs| :: |fs[k].ring| > 0) && r == s.Service(c, mode, fs)
    ensures r.fnum == (s.fnum + UsedUp(s, mode, |fs|)) % 4
    decreases |fs|
  {
    if fs != [] {
      ServiceTurn(s, c, mode, fs, r);
      if !mode.Other? && !(mode.ContOut? && s.grabq == []) {
        var t := s.Serve(c, mode, fs[0]);
        ServeMoves(s, c, mode, fs[0]);
        UsesOne(s, t, mode, |fs|);
        NextInTurn(s.fnum, UsedUp(t, mode, |fs[1..]|));
        ServiceRotates(t, c, mode, fs[1..], r);
      }
    }
  }

  lemma QbufInv(s: Meye, c: Config, i: Index)
    requires Inv(s) && s.CanQueue(c, i)
    ensures Inv(s.Step(c, Qbuf(i))) && s.Step(c, Qbuf(i)).Line() == s.Line() + [i]
  {
    RoomToQueue(s, i);
    assert s.doneq + (s.grabq + [i]) == s.Line() + [i];
  }

  lemma WithoutHead(d: seq<Index>, g: seq<Index>)
    requires d != [] && Distinct(d + g)
    ensures Distinct(d[1..] + g) && [d[0]] + (d[1..] + g) == d + g
    ensures d[0] !in d[1..] && d[0] !in g
  {
    var q := d + g;
    assert d[1..] + g == q[1..];
    forall k | 1 <= k < |d| ensures d[k] != d[0] {
      assert q[k] == d[k] && q[0] == d[0];
    }
    forall k | 0 <= k < |g| ensures g[k] != d[0] {
      assert q[|d| + k] == g[k] && q[0] == d[0];
    }
  }

  lemma InRest(d: seq<Index>, k: Index)
    requires d != [] && d[0] !in d[1..]
    ensures k in d[1..] <==> k in d && k != d[0]
  {
    assert d == [d[0]] + d[1..];
  }

  lemma DqbufInv(s: Meye, c: Config)
    requires Inv(s) && s.doneq != []
    ensures s.bufs[s.doneq[0]].state == Done
    ensures Inv(s.Step(c, Dqbuf)) && [s.doneq[0]] + s.Step(c, Dqbuf).Line() == s.Line()
  {
    var i := s.doneq[0];
    assert i in s.doneq;
    var t := s.Step(c, Dqbuf);
    assert t == s.(doneq := s.doneq[1..], bufs := s.bufs[i := s.bufs[i].(state := Unused)]);
    WithoutHead(s.doneq, s.grabq);
    forall k: Index
      ensures (k in t.grabq <==> t.bufs[k].state == Using) && (k in t.doneq <==> t.bufs[k].state == Done)
    {
      InRest(s.doneq, k);
    }
    RisingRest(s, t, i);
  }

  lemma RisingRest(s: Meye, t: Meye, i: Index)
    requires Rising(s) && s.doneq != [] && i == s.doneq[0]
    requires t == s.(doneq := s.doneq[1..], bufs := s.bufs[i := s.bufs[i].(state := Unused)])
    ensures Rising(t)
  {
  }

  lemma InvStep(s: Meye, c: Config, e: Event)
    requires Inv(s) && e.Ok()
    ensures Inv(s.Step(c, e))
  {
    match e
    case Qbuf(i) =>
      if s.CanQueue(c, i) {
        QbufInv(s, c, i);
      }
    case Dqbuf =>
      if s.doneq != [] {
        DqbufInv(s, c);
      }
    case Streamoff =>
    case Open =>
    case Irq(mode, fs) => ServiceInv(s, c, mode, fs);
  }

  // ---------------------------------------------------------------- over runs

  predicate AllOk(es: seq<Event>) {
    forall k | 0 <= k < |es| :: es[k].Ok()
  }

  ghost function Run(s: Meye, c: Config, es: seq<Event>): Meye
    requires AllOk(es)
    decreases |es|
  {
    if es == [] then s else Run(s.Step(c, es[0]), c, es[1..])
  }

  ghost predicate Initial(s: Meye) {
    s.grabq == [] && s.doneq == [] && (forall i: Index :: s.bufs[i].state == Unused) && s.sequence == 0 && s.fnum == 0
  }

  /** Every reachable state satisfies the invariant. */
  lemma {:induction false} InvRun(s: Meye, c: Config, es: seq<Event>)
    requires Inv(s) && AllOk(es)
    ensures Inv(Run(s, c, es))
    decreases |es|
  {
    if es != [] {
      InvStep(s, c, es[0]);
      InvRun(s.Step(c, es[0]), c, es[1..]);
    }
  }

  /** The error answer of dqbuf, for a buffer that is not done, is never given, and
      no fifo overflows. */
  lemma NoErrors(s: Meye, c: Config, es: seq<Event>)
    requires Initial(s) && AllOk(es)
    ensures var t := Run(s, c, es);
      && t.Reply() != Invalid && (t.Reply() == Again <==> t.doneq == [])
      && |t.grabq| + |t.doneq| <= MAX_BUFNBRS
  {
    InvRun(s, c, es);
    var t := Run(s, c, es);
    NeverOverfull(t);
    if t.doneq != [] {
      DqbufInv(t, c);
    }
  }

  /** The buffers a run queues, and what it hands back. */
  ghost function Queued(s: Meye, c: Config, es: seq<Event>): seq<Index>
    requires AllOk(es)
    decreases |es|
  {
    if es == [] then []
    else (if es[0].Qbuf? && s.CanQueue(c, es[0].i) then [es[0].i] else []) + Queued(s.Step(c, es[0]), c, es[1..])
  }

  ghost function Deliveries(s: Meye, c: Config, es: seq<Event>): seq<Delivery>
    requires AllOk(es)
    decreases |es|
  {
    if es == [] then []
    else (if es[0].Dqbuf? && s.Reply().Got? then [s.Reply().d] else []) + Deliveries(s.Step(c, es[0]), c, es[1..])
  }

  function Indices(ds: seq<Delivery>): seq<Index> {
    if ds == [] then [] else [ds[0].index] + Indices(ds[1..])
  }

  predicate NoReset(es: seq<Event>) {
    forall k | 0 <= k < |es| :: !es[k].Resets()
  }

  lemma LineStep(s: Meye, c: Config, e: Event)
    requires Inv(s) && e.Ok() && !e.Resets()
    ensures var q := if e.Qbuf? && s.CanQueue(c, e.i) then [e.i] else [];
      var d := if e.Dqbuf? && s.Reply().Got? then [s.Reply().d.index] else [];
      s.Line() + q == d + s.Step(c, e).Line()
  {
    if e.Qbuf? {
      if s.CanQueue(c, e.i) {
        QbufInv(s, c, e.i);
      }
    } else if e.Dqbuf? {
      if s.doneq != [] {
        DqbufInv(s, c);
      }
    } else {
      ServiceInv(s, c, e.mode, e.frames);
    }
  }

  /** Between resets, buffers come back in exactly the order in which they were
      queued: what was in line and what is queued is what comes back and what is
      still in line. */
  lemma {:induction false} FirstInFirstOut(s: Meye, c: Config, es: seq<Event>)
    requires Inv(s) && AllOk(es) && NoReset(es)
    ensures s.Line() + Queued(s, c, es) == Indices(Deliveries(s, c, es)) + Run(s, c, es).Line()
    decreases |es|
  {
    if es == [] {
      assert s.Line() + [] == [] + s.Line();
    } else {
      var e, t := es[0], s.Step(c, es[0]);
      var q := if e.Qbuf? && s.CanQueue(c, e.i) then [e.i] else [];
      var d := if e.Dqbuf? && s.Reply().Got? then [s.Reply().d] else [];
      assert !e.Resets();
      InvStep(s, c, e);
      LineStep(s, c, e);
      FirstInFirstOut(t, c, es[1..]);
      IndicesSplit(d, Deliveries(t, c, es[1..]));
      Shuffle(s.Line(), q, Queued(t, c, es[1..]), Indices(d), t.Line(), Indices(Deliveries(t, c, es[1..])),
              Run(t, c, es[1..]).Line());
    }
  }

  lemma IndicesSplit(d: seq<Delivery>, ds: seq<Delivery>)
    requires |d| <= 1
    ensures Indices(d + ds) == Indices(d) + Indices(ds)
    ensures Indices(d) == if d == [] then [] else [d[0].index]
  {
    if d == [] {
      assert d + ds == ds;
    } else {
      assert (d + ds)[1..] == ds;
    }
  }

  lemma Shuffle(line: seq<Index>, q: seq<Index>, more: seq<Index>, d: seq<Index>, line1: seq<Index>, out: seq<Index>,
                last: seq<Index>)
    requires line + q == d + line1 && line1 + more == out + last
    ensures line + (q + more) == d + out + last
  {
    assert line + (q + more) == line + q + more;
    assert d + line1 + more == d + (line1 + more);
    assert d + (out + last) == d + out + last;
  }

  /** A buffer can be queued if and only if it is in use and not in line. */
  lemma CanQueueIff(s: Meye, c: Config, i: nat)
    requires Inv(s) && i < MAX_BUFNBRS
    ensures s.CanQueue(c, i) <==> i < c.buffers && i !in s.Line()
  {
    var k: Index := i;
    assert k in s.Line() <==> k in s.doneq || k in s.grabq;
  }

  /** A reset leaves nothing in line and every buffer free. */
  lemma ResetFrees(s: Meye, c: Config, e: Event)
    requires e.Ok() && e.Resets()
    ensures var t := s.Step(c, e);
      && t.grabq == [] && t.doneq == [] && (forall i: Index :: t.bufs[i].state == Unused)
      && (forall i: nat :: i < c.buffers ==> t.CanQueue(c, i)) && t.sequence == s.sequence && t.fnum == s.fnum
  {
  }

  /** Over runs with resets: what comes back behind one, up to the next, is the first of
      what was queued behind it, and nothing from before. */
  lemma BehindReset(s: Meye, c: Config, e: Event, es: seq<Event>)
    requires Inv(s) && e.Ok() && e.Resets() && AllOk(es) && NoReset(es)
    ensures Indices(Deliveries(s.Step(c, e), c, es)) <= Queued(s.Step(c, e), c, es)
  {
    var t := s.Step(c, e);
    InvStep(s, c, e);
    ResetFrees(s, c, e);
    FirstInFirstOut(t, c, es);
    assert [] + Queued(t, c, es) == Queued(t, c, es) && t.Line() == [];
  }

  /** The good ones of the frames that are ready. */
  ghost function Goods(c: Config, mode: Mode, fs: seq<Frame>): seq<seq<Byte>>
    requires forall k | 0 <= k < |fs| :: |fs[k].ring| > 0
    decreases |fs|
  {
    if fs == [] then []
    else
      (match Fetched(c, mode, fs[0])
       case Some(data) => [data]
       case None => []) + Goods(c, mode, fs[1..])
  }

  // ------------------------------------------------- sequence numbers and data

  /** The number of the next frame to be handed back. */
  function Floor(s: Meye): int {
    if s.doneq == [] then s.sequence else s.bufs[s.doneq[0]].sequence
  }

  lemma FillFloor(s: Meye, data: seq<Byte>)
    requires Inv(s) && s.grabq != []
    ensures Floor(s.Fill(data)) == Floor(s)
  {
    RoomToFill(s);
    FirstOnly(s.doneq, s.grabq);
  }

  lemma {:induction false} ServiceFloor(s: Meye, c: Config, mode: Mode, fs: seq<Frame>)
    requires Inv(s) && forall k | 0 <= k < |fs| :: |fs[k].ring| > 0
    ensures Floor(s.Service(c, mode, fs)) == Floor(s)
    decreases |fs|
  {
    if fs != [] && !mode.Other? && !(mode.ContOut? && s.grabq == []) {
      var got := Fetched(c, mode, fs[0]);
      if s.grabq != [] && got.Some? {
        FillInv(s, got.value);
        FillFloor(s, got.value);
      }
      ServiceFloor(s.Serve(c, mode, fs[0]), c, mode, fs[1..]);
    }
  }

  lemma FloorStep(s: Meye, c: Config, e: Event)
    requires Inv(s) && e.Ok()
    ensures Floor(s) <= Floor(s.Step(c, e))
    ensures e.Dqbuf? && s.Reply().Got? ==> s.Reply().d.sequence == Floor(s) < Floor(s.Step(c, e))
  {
    if e.Qbuf? {
      if s.CanQueue(c, e.i) {
        RoomToQueue(s, e.i);
        if s.doneq != [] {
          assert s.doneq[0] in s.doneq;
        }
      }
    } else if e.Dqbuf? {
      if s.doneq != [] {
        DqbufInv(s, c);
        assert s.Line()[0] == s.doneq[0];
        if |s.doneq| > 1 {
          assert s.Line()[1] == s.doneq[1];
        }
      }
    } else if e.Irq? {
      ServiceFloor(s, c, e.mode, e.frames);
    }
  }

  predicate RisesFrom(ds: seq<Delivery>, floor: int) {
    && (forall k | 0 <= k < |ds| :: floor <= ds[k].sequence)
    && forall j, k | 0 <= j < k < |ds| :: ds[j].sequence < ds[k].sequence
  }

  lemma RisesBehind(d: seq<Delivery>, ds: seq<Delivery>, floor: int, floor1: int)
    requires floor <= floor1 && RisesFrom(ds, floor1)
    requires |d| <= 1 && (d != [] ==> d[0].sequence == floor < floor1)
    ensures RisesFrom(d + ds, floor)
  {
  }

  /** Over any run, resets included, sequence numbers come back strictly rising. */
  lemma {:induction false} SequenceRises(s: Meye, c: Config, es: seq<Event>)
    requires Inv(s) && AllOk(es)
    ensures RisesFrom(Deliveries(s, c, es), Floor(s))
    decreases |es|
  {
    if es != [] {
      var t := s.Step(c, es[0]);
      InvStep(s, c, es[0]);
      FloorStep(s, c, es[0]);
      SequenceRises(t, c, es[1..]);
      var d := if es[0].Dqbuf? && s.Reply().Got? then [s.Reply().d] else [];
      RisesBehind(d, Deliveries(t, c, es[1..]), Floor(s), Floor(t));
    }
  }

  /** The frames an interrupt, or a run, puts into buffers. */
  ghost function Captured(s: Meye, c: Config, mode: Mode, fs: seq<Frame>): seq<seq<Byte>>
    requires forall k | 0 <= k < |fs| :: |fs[k].ring| > 0
    decreases |fs|
  {
    if fs == [] || mode.Other? || (mode.ContOut? && s.grabq == []) then []
    else
      var got := Fetched(c, mode, fs[0]);
      (if s.grabq != [] && got.Some? then [got.value] else [])
      + Captured(s.Serve(c, mode, fs[0]), c, mode, fs[1..])
  }

  ghost function Log(s: Meye, c: Config, es: seq<Event>): seq<seq<Byte>>
    requires AllOk(es)
    decreases |es|
  {
    if es == [] then []
    else (if es[0].Irq? then Captured(s, c, es[0].mode, es[0].frames) else []) + Log(s.Step(c, es[0]), c, es[1..])
  }

  /** In either mode an interrupt captures the good frames in order, as many as there
      are buffers queued. */
  lemma {:induction false} CapturesGoods(s: Meye, c: Config, mode: Mode, fs: seq<Frame>)
    requires Inv(s) && !mode.Other? && forall k | 0 <= k < |fs| :: |fs[k].ring| > 0
    ensures Captured(s, c, mode, fs) == Goods(c, mode, fs)[..Min(|Goods(c, mode, fs)|, |s.grabq|)]
    ensures |s.Service(c, mode, fs).grabq| == |s.grabq| - |Captured(s, c, mode, fs)|
    decreases |fs|
  {
    if fs != [] && !(mode.ContOut? && s.grabq == []) {
      var got, t := Fetched(c, mode, fs[0]), s.Serve(c, mode, fs[0]);
      var rest := Goods(c, mode, fs[1..]);
      ServeMoves(s, c, mode, fs[0]);
      CapturesGoods(t, c, mode, fs[1..]);
      if got.Some? {
        FirstTaken(got.value, rest, |s.grabq|);
      } else {
        assert [] + rest == rest;
      }
    }
  }

  lemma FirstTaken(x: seq<Byte>, rest: seq<seq<Byte>>, n: nat)
    ensures var all := [x] + rest;
      all[..Min(|all|, n)] == if n == 0 then [] else [x] + rest[..Min(|rest|, n - 1)]
  {
  }

  /** log lists all frames captured so far; each done buffer holds the one its
      sequence number says. */
  ghost predicate Logged(s: Meye, log: seq<seq<Byte>>) {
    && s.sequence == |log|
    && forall i: Index :: i in s.doneq ==> Holds(s.bufs[i], log)
  }

  predicate Holds(b: Grab, log: seq<seq<Byte>>) {
    0 <= b.sequence < |log| && b.data == log[b.sequence]
  }

  lemma FillLogged(s: Meye, data: seq<Byte>, log: seq<seq<Byte>>)
    requires Inv(s) && s.grabq != [] && Logged(s, log)
    ensures Logged(s.Fill(data), log + [data])
  {
    RoomToFill(s);
  }

  lemma {:induction false} ServiceLogged(s: Meye, c: Config, mode: Mode, fs: seq<Frame>, log: seq<seq<Byte>>)
    requires Inv(s) && (forall k | 0 <= k < |fs| :: |fs[k].ring| > 0) && Logged(s, log)
    ensures Logged(s.Service(c, mode, fs), log + Captured(s, c, mode, fs))
    decreases |fs|
  {
    if fs == [] || mode.Other? || (mode.ContOut? && s.grabq == []) {
      assert log + [] == log;
    } else {
      var got := Fetched(c, mode, fs[0]);
      var t := s.Serve(c, mode, fs[0]);
      var rest := Captured(t, c, mode, fs[1..]);
      if s.grabq != [] && got.Some? {
        FillInv(s, got.value);
        FillLogged(s, got.value, log);
        ServiceLogged(t, c, mode, fs[1..], log + [got.value]);
        assert log + [got.value] + rest == log + ([got.value] + rest);
      } else {
        ServiceLogged(t, c, mode, fs[1..], log);
        assert [] + rest == rest;
      }
    }
  }

  lemma LoggedStep(s: Meye, c: Config, e: Event, log: seq<seq<Byte>>)
    requires Inv(s) && e.Ok() && Logged(s, log)
    ensures Logged(s.Step(c, e), log + if e.Irq? then Captured(s, c, e.mode, e.frames) else [])
  {
    assert log + [] == log;
    if e.Irq? {
      ServiceLogged(s, c, e.mode, e.frames, log);
    } else if e.Qbuf? && s.CanQueue(c, e.i) {
      RoomToQueue(s, e.i);
    } else if e.Dqbuf? && s.doneq != [] {
      DqbufInv(s, c);
      assert forall i: Index :: i in s.doneq[1..] ==> i in s.doneq;
    }
  }

  predicate NamesFrames(ds: seq<Delivery>, all: seq<seq<Byte>>) {
    forall k | 0 <= k < |ds| :: 0 <= ds[k].sequence < |all| && ds[k].data == all[ds[k].sequence]
  }

  lemma NamesBehind(d: seq<Delivery>, ds: seq<Delivery>, log: seq<seq<Byte>>, more: seq<seq<Byte>>)
    requires |d| <= 1 && NamesFrames(d, log) && NamesFrames(ds, log + more)
    ensures NamesFrames(d + ds, log + more)
  {
  }

  lemma ReplyNames(s: Meye, log: seq<seq<Byte>>)
    requires Logged(s, log) && s.Reply().Got?
    ensures NamesFrames([s.Reply().d], log)
  {
    assert s.doneq[0] in s.doneq;
  }

  /** Over any run, resets included, the buffer handed back with sequence number n
      holds the n-th frame captured. */
  lemma {:induction false} SequenceNamesFrame(s: Meye, c: Config, es: seq<Event>, log: seq<seq<Byte>>)
    requires Inv(s) && AllOk(es) && Logged(s, log)
    ensures NamesFrames(Deliveries(s, c, es), log + Log(s, c, es))
    decreases |es|
  {
    if es != [] {
      var e, t := es[0], s.Step(c, es[0]);
      var new_ := if e.Irq? then Captured(s, c, e.mode, e.frames) else [];
      var d := if e.Dqbuf? && s.Reply().Got? then [s.Reply().d] else [];
      InvStep(s, c, e);
      LoggedStep(s, c, e, log);
      SequenceNamesFrame(t, c, es[1..], log + new_);
      assert log + (new_ + Log(t, c, es[1..])) == log + new_ + Log(t, c, es[1..]);
      if d != [] {
        ReplyNames(s, log);
      }
      NamesBehind(d, Deliveries(t, c, es[1..]), log, new_ + Log(t, c, es[1..]));
    }
  }
}
