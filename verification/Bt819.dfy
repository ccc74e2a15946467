/** Register writes of the bt819 decoder (video/bt819.c: bt819_write, bt819_setbit,
    bt819_write_block): a block goes out in bursts that rely on the decoder counting
    the register up by itself, or, on adapters that cannot, one register at a time. */
module Bt819 {
  import opened Basics

  const REGISTERS: int := 32
  const BLOCK_SIZE: int := 32

  datatype Write = Write(reg: Byte, value: Byte)

  /** The writes a block of data asks for, from position i on; a last odd byte counts
      for nothing. */
  function Pairs(data: seq<Byte>, i: nat): seq<Write>
    decreases |data| - i
  {
    if i + 2 > |data| then [] else [Write(data[i], data[i + 1])] + Pairs(data, i + 2)
  }

  /** Every whole pair of bytes is one write, in order; there are no others. */
  lemma {:induction false} PairAt(data: seq<Byte>, i: nat, k: nat)
    requires i <= |data|
    ensures k < |Pairs(data, i)| <==> i + 2 * k + 1 < |data|
    ensures k < |Pairs(data, i)| ==> Pairs(data, i)[k] == Write(data[i + 2 * k], data[i + 2 * k + 1])
    decreases k
  {
    if k > 0 && i + 2 <= |data| {
      PairAt(data, i + 2, k - 1);
      assert Pairs(data, i) == [Write(data[i], data[i + 1])] + Pairs(data, i + 2);
    }
  }

  /** What the decoder makes of a burst: a register and values for it and the ones
      behind it. */
  function Burst(reg: int, values: seq<Byte>): seq<Write>
    requires 0 <= reg && reg + |values| <= REGISTERS
  {
    seq(|values|, k requires 0 <= k < |values| => Write(reg + k, values[k]))
  }

  /** The register numbers in the data are those of the decoder. */
  predicate Registers(data: seq<Byte>) {
    forall i | 0 <= i < |data| - 1 && i % 2 == 0 :: data[i] < REGISTERS
  }

  /** Registers after writes. */
  function Apply(regs: seq<Byte>, ws: seq<Write>): (r: seq<Byte>)
    ensures |r| == |regs|
    decreases |ws|
  {
    if ws == [] then regs
    else Apply(if ws[0].reg < |regs| then regs[ws[0].reg := ws[0].value] else regs, ws[1..])
  }

  lemma {:induction false} ApplyMore(regs: seq<Byte>, a: seq<Write>, b: seq<Write>)
    ensures Apply(regs, a + b) == Apply(Apply(regs, a), b)
    decreases |a|
  {
    if a == [] {
      assert a + b == b;
    } else {
      assert (a + b)[1..] == a[1..] + b;
      ApplyMore(if a[0].reg < |regs| then regs[a[0].reg := a[0].value] else regs, a[1..], b);
    }
  }

  /** What the last write to a register was, if any: it is what the register holds. */
  lemma {:induction false} LastWriteHolds(regs: seq<Byte>, ws: seq<Write>, k: nat)
    requires k < |ws| && ws[k].reg < |regs| && forall j | k < j < |ws| :: ws[j].reg != ws[k].reg
    ensures Apply(regs, ws)[ws[k].reg] == ws[k].value
    decreases |ws|
  {
    var next := if ws[0].reg < |regs| then regs[ws[0].reg := ws[0].value] else regs;
    if k > 0 {
      LastWriteHolds(next, ws[1..], k - 1);
    } else {
      Untouched(next, ws[1..], ws[0].reg);
    }
  }

  lemma {:induction false} Untouched(regs: seq<Byte>, ws: seq<Write>, r: nat)
    requires r < |regs| && forall j | 0 <= j < |ws| :: ws[j].reg != r
    ensures Apply(regs, ws)[r] == regs[r]
    decreases |ws|
  {
    if ws != [] {
      Untouched(if ws[0].reg < |regs| then regs[ws[0].reg := ws[0].value] else regs, ws[1..], r);
    }
  }

  lemma BurstMore(first: int, values: seq<Byte>, v: Byte)
    requires 0 <= first && first + |values| < REGISTERS
    ensures Burst(first, values + [v]) == Burst(first, values) + [Write(first + |values|, v)]
  {
  }

  lemma ApplyLast(was: seq<Byte>, ws: seq<Write>, w: Write)
    requires w.reg < |was|
    ensures Apply(was, ws + [w]) == Apply(was, ws)[w.reg := w.value]
  {
    ApplyMore(was, ws, [w]);
    assert [w][1..] == [];
  }

  /** One more value in a burst. */
  lemma BurstGrows(data: seq<Byte>, i: nat, was: seq<Byte>, first: int, values: seq<Byte>, all: seq<Write>)
    requires i + 2 <= |data| && data[i] == first + |values| < REGISTERS && 0 <= first && |was| == REGISTERS
    requires all == Burst(first, values) + Pairs(data, i)
    ensures all == Burst(first, values + [data[i + 1]]) + Pairs(data, i + 2)
    ensures Apply(was, Burst(first, values + [data[i + 1]])) == Apply(was, Burst(first, values))[data[i] := data[i + 1]]
  {
    var w := Write(data[i], data[i + 1]);
    BurstMore(first, values, data[i + 1]);
    Regroup(Burst(first, values), [w], Pairs(data, i + 2));
    ApplyLast(was, Burst(first, values), w);
  }

  // -------------------------------------------------------------- single bits

  function Mask(bit: nat): bv8 {
    match bit
    case 0 => 1
    case 1 => 2
    case 2 => 4
    case 3 => 8
    case 4 => 16
    case 5 => 32
    case 6 => 64
    case _ => 128
  }

  function WithBit(v: bv8, bit: nat, on: bool): bv8 {
    (v & !Mask(bit)) | (if on then Mask(bit) else 0)
  }

  /** Setting a bit sets it and leaves the others. */
  lemma WithBitExact(v: bv8, bit: nat, on: bool, k: nat)
    requires bit < 8 && k < 8
    ensures WithBit(v, bit, on) & Mask(k) != 0 <==> if k == bit then on else v & Mask(k) != 0
  {
  }

  function SetBit(v: Byte, bit: nat, on: bool): Byte { WithBit(v as bv8, bit, on) as int }

  lemma WritesMore(was: seq<Byte>, device: seq<Byte>, taken: seq<Write>, done: seq<Write>, ws: seq<Write>,
                   rest: seq<Write>)
    ensures Apply(Apply(was, done), ws) == Apply(was, done + ws)
    ensures Apply(Apply(device, done), ws) == Apply(device, done + ws)
    ensures taken + done + ws == taken + (done + ws) && done + (ws + rest) == done + ws + rest
  {
    ApplyMore(was, done, ws);
    ApplyMore(device, done, ws);
    Regroup(taken, done, ws);
    Regroup(done, ws, rest);
  }

  /** The first n of the coming transfers succeed. */
  predicate Fine(answers: seq<int>, n: int) {
    forall k: nat {:trigger Answer(answers, k)} | k < n :: Answer(answers, k) >= 0
  }

  // ------------------------------------------------------------ the functions

  /** The driver's copy of the registers, and the decoder behind the bus: the writes
      it has taken and how the coming transfers will end. */
  class Decoder {
    const raw: bool
    const reg: array<Byte>
    var taken: seq<Write>
    var device: seq<Byte>
    var answers: seq<int>

    ghost predicate Valid()
      reads this, reg
    {
      reg.Length == REGISTERS && |device| == REGISTERS
    }

    constructor (raw: bool, device: seq<Byte>, answers: seq<int>)
      requires |device| == REGISTERS
      ensures Valid() && this.raw == raw && this.device == device && taken == [] && fresh(reg)
    {
      this.raw, this.device, this.answers, taken := raw, device, answers, [];
      reg := new Byte[REGISTERS];
    }

    /** The driver's copy is what the decoder holds. */
    ghost predicate Mirrors()
      reads this, reg
    {
      reg[..] == device
    }

    /** A transfer of a register number and values, no longer than a block; it reaches
        the decoder unless it fails. */
    method Transfer(r: Byte, values: seq<Byte>) returns (ret: int)
      requires Valid() && 1 + |values| <= BLOCK_SIZE && r + |values| <= REGISTERS
      modifies this`taken, this`device, this`answers
      ensures Valid()
      ensures ret < 0 ==> taken == old(taken) && device == old(device)
      ensures ret >= 0 ==> taken == old(taken) + Burst(r, values) && device == Apply(old(device), Burst(r, values))
      ensures ret == Answer(old(answers), 0) && answers == Later(old(answers), 1)
    {
      ret := if answers == [] then 0 else answers[0];
      answers := if answers == [] then [] else answers[1..];
      if ret >= 0 {
        taken := taken + Burst(r, values);
        device := Apply(device, Burst(r, values));
      }
    }

    method WriteReg(r: Byte, value: Byte) returns (ret: int)
      requires Valid() && r < REGISTERS
      modifies this`taken, this`device, this`answers, reg
      ensures Valid() && reg[..] == Apply(old(reg[..]), [Write(r, value)])
      ensures ret < 0 ==> taken == old(taken) && device == old(device)
      ensures ret >= 0 ==> taken == old(taken) + [Write(r, value)] && device == Apply(old(device), [Write(r, value)])
      ensures old(Mirrors()) && ret >= 0 ==> Mirrors()
      ensures ret == Answer(old(answers), 0) && answers == Later(old(answers), 1)
    {
      reg[r] := value;
      assert Burst(r, [value]) == [Write(r, value)];
      ret := Transfer(r, [value]);
    }

    method SetBitOf(r: Byte, bit: nat, on: bool) returns (ret: int)
      requires Valid() && r < REGISTERS && bit < 8
      modifies this`taken, this`device, this`answers, reg
      ensures Valid() && reg[..] == old(reg[..])[r := SetBit(old(reg[r]), bit, on)]
      ensures old(Mirrors()) && ret >= 0 ==> Mirrors()
      ensures ret == Answer(old(answers), 0) && (ret >= 0 ==> device[r] == SetBit(old(reg[r]), bit, on))
    {
      ret := WriteReg(r, SetBit(reg[r], bit, on));
    }

    /** The inner loop of the burst form: values for consecutive registers into the
        block, and into the copy. */
    method FillBlock(data: seq<Byte>, start: nat, block: array<Byte>) returns (blockLen: nat, i: nat)
      requires Valid() && Registers(data) && start % 2 == 0 && start + 2 <= |data|
      requires block.Length == BLOCK_SIZE && block != reg
      modifies reg, block
      ensures Valid() && 2 <= blockLen <= BLOCK_SIZE && start < i <= |data| && i % 2 == 0
      ensures block[0] + (blockLen - 1) <= REGISTERS
      ensures Pairs(data, start) == Burst(block[0], block[1..blockLen]) + Pairs(data, i)
      ensures reg[..] == Apply(old(reg[..]), Burst(block[0], block[1..blockLen]))
    {
      blockLen, i := 0, start;
      var r: int := data[i];
      block[blockLen] := data[i];
      blockLen := blockLen + 1;
      ghost var was, all, first, values := reg[..], Pairs(data, start), r, [];
      assert Burst(first, []) + all == all;
      while true
        invariant start <= i && i + 2 <= |data| && i % 2 == 0 && 1 <= blockLen < BLOCK_SIZE
        invariant |values| == blockLen - 1 && block[1..blockLen] == values && block[0] == first >= 0
        invariant r == first + |values| == data[i]
        invariant all == Burst(first, values) + Pairs(data, i) && reg[..] == Apply(was, Burst(first, values))
        decreases |data| - i
      {
        assert data[i] < REGISTERS;
        BurstGrows(data, i, was, first, values, all);
        reg[r] := data[i + 1];
        block[blockLen] := data[i + 1];
        r := r + 1;
        blockLen := blockLen + 1;
        values := values + [data[i + 1]];
        assert block[1..blockLen] == values;
        i := i + 2;
        if !(i + 2 <= |data| && data[i] == r && blockLen < BLOCK_SIZE) {
          break;
        }
      }
    }

    /** One turn of either outer loop. */
    method WriteNext(data: seq<Byte>, start: nat, block: array<Byte>) returns (ret: int, i: nat, ghost ws: seq<Write>)
      requires Valid() && Registers(data) && start % 2 == 0 && start + 2 <= |data|
      requires block.Length == BLOCK_SIZE && block != reg
      modifies this`taken, this`device, this`answers, reg, block
      ensures Valid() && start < i <= |data| && i % 2 == 0 && Pairs(data, start) == ws + Pairs(data, i)
      ensures reg[..] == Apply(old(reg[..]), ws)
      ensures ret < 0 ==> taken == old(taken) && device == old(device)
      ensures ret >= 0 ==> taken == old(taken) + ws && device == Apply(old(device), ws)
      ensures ret == Answer(old(answers), 0) && answers == Later(old(answers), 1)
    {
      if raw {
        var blockLen;
        blockLen, i := FillBlock(data, start, block);
        ws := Burst(block[0], block[1..blockLen]);
        ret := Transfer(block[0], block[1..blockLen]);
      } else {
        i := start + 2;
        ws := [Write(data[start], data[start + 1])];
        ret := WriteReg(data[start], data[start + 1]);
      }
    }

    /** bt819_write_block.  In bursts or one by one, what reaches the decoder is a first
        part of the writes asked for, in order, and all of them when no transfer
        fails; the copy then still mirrors the decoder.  It fails if and only if a
        transfer does, the last one then, or there is nothing to write. */
    method WriteBlock(data: seq<Byte>) returns (ret: int, ghost done: seq<Write>, ghost transfers: nat)
      requires Valid() && Registers(data)
      modifies this`taken, this`device, this`answers, reg
      ensures Valid() && done <= Pairs(data, 0)
      ensures taken == old(taken) + done && device == Apply(old(device), done)
      ensures ret >= 0 || |data| < 2 ==> done == Pairs(data, 0) && reg[..] == Apply(old(reg[..]), done)
      ensures old(Mirrors()) && (ret >= 0 || |data| < 2) ==> Mirrors()
      ensures (transfers > 0 <==> |data| >= 2) && ret == if transfers == 0 then -1 else Answer(old(answers), transfers - 1)
      ensures Fine(old(answers), transfers - 1)
    {
      ret, done, transfers := -1, [], 0;
      var i := 0;
      var block := new Byte[BLOCK_SIZE];
      ghost var was := reg[..];
      while i + 2 <= |data|
        invariant Valid() && 0 <= i <= |data| && i % 2 == 0 && Pairs(data, 0) == done + Pairs(data, i)
        invariant taken == old(taken) + done && device == Apply(old(device), done)
        invariant reg[..] == Apply(was, done)
        invariant (ret >= 0 && transfers > 0 && i > 0) || (i == 0 && transfers == 0 && ret == -1)
        invariant transfers > 0 ==> ret == Answer(old(answers), transfers - 1)
        invariant answers == Later(old(answers), transfers)
        invariant Fine(old(answers), transfers)
        decreases |data| - i
      {
        ghost var ws;
        ret, i, ws := WriteNext(data, i, block);
        assert ret == Answer(old(answers), transfers);
        transfers := transfers + 1;
        if ret < 0 {
          return;
        }
        WritesMore(was, old(device), old(taken), done, ws, Pairs(data, i));
        done := done + ws;
      }
    }
  }
}
