/** GIF tags: decoding the 16-byte header, unpacking its register list, and stepping
    through the quadwords of a PACKED primitive. */
module GifTags {
  import opened Arith
  import opened Basics

  const GIF_REG_A_D := 0x0E

  datatype Flag = Packed | RegPairs | Image

  /** `nLoop`, `nRegIdx` count down and around while a PACKED tag is being consumed; the
      other fields are fixed when the tag is read. */
  datatype Tag = Tag(
    nLoop: nat, nRegs: nat, nRegIdx: nat, len: nat, regs: seq<nat>,
    hasAD: bool, isValid: bool, flg: Flag, eop: bool)
  {
    function CurReg(): nat
      requires |regs| == 16
    {
      regs[nRegIdx % 16]
    }

    /** The shape every reachable tag has. Only tags with A+D writes stay valid between calls. */
    ghost predicate Ok() {
      && |regs| == 16
      && (hasAD ==> flg == Packed && nRegIdx < nRegs <= 16 && (nLoop == 0 ==> nRegIdx == 0))
      && (isValid ==> hasAD && (eop ==> nLoop > 0))
    }
  }

  const NULL_TAG := Tag(0, 0, 0, 0, seq(16, _ => 0), false, false, Packed, false)

  // ---- Header fields ----

  function At(mem: seq<byte>, i: nat): (b: int)
    requires i < |mem|
    ensures 0 <= b < 256
  {
    mem[i]
  }

  function NLoop(mem: seq<byte>): nat
    requires |mem| >= 16
  {
    At(mem, 0) + 256 * (At(mem, 1) % 128)
  }

  predicate Eop(mem: seq<byte>) requires |mem| >= 16 { mem[1] >= 128 }

  function Flg(mem: seq<byte>): Flag
    requires |mem| >= 16
  {
    match (mem[7] / 4) % 4
    case 0 => Packed
    case 1 => RegPairs
    case _ => Image
  }

  /** NREG, where 0 stands for 16. */
  function NReg(mem: seq<byte>): (n: nat)
    requires |mem| >= 16
    ensures 1 <= n <= 16
  {
    if mem[7] / 16 == 0 then 16 else mem[7] / 16
  }

  /** The i-th 4-bit register descriptor of the 64-bit REGS field. */
  function RegNibble(mem: seq<byte>, i: nat): (n: nat)
    requires |mem| >= 16 && i < 16
    ensures n < 16
  {
    if i % 2 == 0 then At(mem, 8 + i / 2) % 16 else At(mem, 8 + i / 2) / 16
  }

  /** All sixteen descriptors, first one first. */
  function RegList(mem: seq<byte>): (r: seq<nat>)
    requires |mem| >= 16
    ensures |r| == 16 && forall i | 0 <= i < 16 :: r[i] == RegNibble(mem, i)
  {
    seq(16, i requires 0 <= i < 16 => RegNibble(mem, i))
  }

  /** Data bytes that follow the header. */
  function DataLen(mem: seq<byte>): nat
    requires |mem| >= 16
  {
    match Flg(mem)
    case Packed => NReg(mem) * NLoop(mem) * 16
    case RegPairs => (NReg(mem) * NLoop(mem) + 1) / 2 * 16
    case Image => NLoop(mem) * 16
  }

  /** Reads a tag; registers are unpacked for PACKED tags only. */
  function SetTag(prev: Tag, mem: seq<byte>): (t: Tag)
    requires |prev.regs| == 16 && |mem| >= 16
    ensures t.Ok() || (t.(isValid := false)).Ok()
  {
    var flg := Flg(mem);
    var packed := flg == Packed;
    Tag(NLoop(mem),
        if flg == Image then 0 else NReg(mem),
        0,
        DataLen(mem),
        if packed then RegList(mem)[..NReg(mem)] + prev.regs[NReg(mem)..] else prev.regs,
        packed && GIF_REG_A_D in RegList(mem)[..NReg(mem)],
        true,
        flg,
        Eop(mem))
  }

  function PackedStep(t: Tag): Tag {
    if t.nLoop == 0 then t
    else if t.nRegIdx + 1 >= t.nRegs then t.(nRegIdx := 0, nLoop := t.nLoop - 1)
    else t.(nRegIdx := t.nRegIdx + 1)
  }

  // ---- Unpacking the register list in place ----

  /** The number whose base-16 digits, least significant first, are `nibbles`. */
  function FromNibbles(nibbles: seq<nat>): nat {
    if nibbles == [] then 0 else nibbles[0] + 16 * FromNibbles(nibbles[1..])
  }

  function Word(mem: seq<byte>, at: nat): (r: nat)
    requires at + 4 <= |mem|
    ensures r < 0x1_0000_0000
  {
    At(mem, at) + 0x100 * At(mem, at + 1) + 0x1_0000 * At(mem, at + 2) + 0x100_0000 * At(mem, at + 3)
  }

  /** REGS[w], read as a 32-bit word, is the eight descriptors 8w .. 8w+7 in order. */
  lemma WordIsNibbles(mem: seq<byte>, w: nat)
    requires |mem| >= 16 && w <= 1
    ensures Word(mem, 8 + 4 * w) == FromNibbles(RegList(mem)[8 * w..8 * w + 8])
  {
    hide RegNibble, FromNibbles;
    var n, b := RegList(mem)[8 * w..8 * w + 8], 8 + 4 * w;
    Digits(n);
    assert forall i | 0 <= i < 8 :: n[i] == RegNibble(mem, 8 * w + i);
    BytePair(mem, b, w);
    BytePair(mem, b + 1, w);
    BytePair(mem, b + 2, w);
    BytePair(mem, b + 3, w);
  }

  lemma BytePair(mem: seq<byte>, at: nat, w: nat)
    requires |mem| >= 16 && 8 <= at < 16
    ensures At(mem, at) == RegNibble(mem, 2 * (at - 8)) + 16 * RegNibble(mem, 2 * (at - 8) + 1)
  {
  }

  lemma Digits(n: seq<nat>)
    requires |n| == 8
    ensures FromNibbles(n) == n[0] + 0x10 * n[1] + 0x100 * n[2] + 0x1000 * n[3]
      + 0x1_0000 * n[4] + 0x10_0000 * n[5] + 0x100_0000 * n[6] + 0x1000_0000 * n[7]
  {
    forall k | 0 <= k < 8
      ensures FromNibbles(n[k..]) == n[k] + 16 * FromNibbles(n[k + 1..])
    {
      assert n[k..][1..] == n[k + 1..];
    }
    assert n[0..] == n;
  }

  lemma LowDigit(n: seq<nat>)
    requires n != [] && n[0] < 16
    ensures FromNibbles(n) % 16 == n[0] && FromNibbles(n) / 16 == FromNibbles(n[1..])
  {
  }

  /** One word's worth of the reference loop: four bits at a time into regs[i], regs[i+1], ... */
  method UnpackWord(word: nat, ghost list: seq<nat>, ghost end: nat, start: nat, stop: nat, regs: array<nat>)
    returns (hasAD: bool)
    requires regs.Length == 16 && |list| == 16 && start <= stop <= end <= 16
    requires forall k | 0 <= k < 16 :: list[k] < 16
    requires word == FromNibbles(list[start..end])
    modifies regs
    ensures regs[..] == old(regs[..start]) + list[start..stop] + old(regs[stop..])
    ensures hasAD <==> GIF_REG_A_D in list[start..stop]
  {
    hide FromNibbles;
    hasAD := false;
    var t, i := word, start;
    while i < stop
      invariant start <= i <= stop
      invariant t == FromNibbles(list[i..end])
      invariant forall k | 0 <= k < 16 :: regs[k] == if start <= k < i then list[k] else old(regs[k])
      invariant hasAD <==> GIF_REG_A_D in list[start..i]
    {
      LowDigit(list[i..end]);
      assert list[i..end][1..] == list[i + 1..end];
      assert list[start..i + 1] == list[start..i] + [list[i]];
      regs[i] := t % 16;
      hasAD := hasAD || regs[i] == GIF_REG_A_D;
      t := t / 16;
      i := i + 1;
    }
    assert regs[..] == old(regs[..start]) + list[start..stop] + old(regs[stop..]);
  }

  /** The reference form: eight descriptors from REGS[0], the rest from REGS[1]. */
  method AnalyzeTag(mem: seq<byte>, nRegs: nat, regs: array<nat>) returns (hasAD: bool)
    requires |mem| >= 16 && 1 <= nRegs <= 16 && regs.Length == 16
    modifies regs
    ensures regs[..] == RegList(mem)[..nRegs] + old(regs[nRegs..])
    ensures hasAD <==> GIF_REG_A_D in RegList(mem)[..nRegs]
  {
    hide FromNibbles, RegNibble, Word;
    ghost var list := RegList(mem);
    WordIsNibbles(mem, 0);
    WordIsNibbles(mem, 1);
    var j := if nRegs < 8 then nRegs else 8;
    hasAD := UnpackWord(Word(mem, 8), list, 8, 0, j, regs);
    assert list[..nRegs] == list[..j] + list[j..nRegs];
    if j < nRegs {
      var more := UnpackWord(Word(mem, 12), list, 16, j, nRegs, regs);
      hasAD := hasAD || more;
    }
  }

  // ---- Stepping through a PACKED tag ----

  /** Quadwords still to be consumed by a PACKED tag. */
  function StepsLeft(t: Tag): int {
    t.nLoop * t.nRegs - t.nRegIdx
  }

  function Steps(t: Tag, k: nat): Tag {
    if k == 0 then t else PackedStep(Steps(t, k - 1))
  }

  lemma StepCountsDown(t: Tag)
    requires t.nLoop > 0 && t.nRegIdx < t.nRegs
    ensures StepsLeft(t) > 0
    ensures StepsLeft(PackedStep(t)) == StepsLeft(t) - 1
    ensures PackedStep(t).nRegIdx < t.nRegs
    ensures PackedStep(t).nLoop == 0 <==> StepsLeft(t) == 1
    ensures PackedStep(t).nLoop == 0 ==> PackedStep(t).nRegIdx == 0
  {
    assert t.nLoop * t.nRegs == (t.nLoop - 1) * t.nRegs + t.nRegs;
    MulAtLeast(t.nLoop - 1, t.nRegs);
  }

  /** Starting from a fresh PACKED tag, k steps leave len/16 - k steps; the loop counter reaches
      zero after exactly len/16 steps and not before; the k-th step is on register k mod NREG. */
  lemma {:induction false} PackedStepsExactly(t: Tag, k: nat)
    requires t.nRegIdx == 0 < t.nRegs && k <= StepsLeft(t)
    ensures var s := Steps(t, k);
            && s == t.(nLoop := s.nLoop, nRegIdx := s.nRegIdx)
            && s.nRegIdx < t.nRegs
            && StepsLeft(s) == StepsLeft(t) - k
            && (s.nLoop == 0 <==> k == StepsLeft(t))
            && s.nRegIdx == k % t.nRegs
  {
    if k > 0 {
      PackedStepsExactly(t, k - 1);
      StepCountsDown(Steps(t, k - 1));
    }
    var s := Steps(t, k);
    MulAtLeast(s.nLoop, t.nRegs);
    StepPosition(t, s, k);
  }

  lemma StepPosition(t: Tag, s: Tag, k: nat)
    requires t.nRegIdx == 0 && s.nRegIdx < s.nRegs == t.nRegs
    requires StepsLeft(s) == StepsLeft(t) - k
    ensures s.nRegIdx == k % t.nRegs
  {
    MulDistributes(t.nLoop, s.nLoop, t.nRegs);
    DivModUnique(k, t.nLoop - s.nLoop, t.nRegs, s.nRegIdx);
  }

  /** So the walk through a PACKED tag in memory consumes exactly the header's data length, and
      meets an A+D register exactly where the descriptor list says A+D. */
  lemma PackedTagSpansItsData(prev: Tag, mem: seq<byte>, k: nat)
    requires |prev.regs| == 16 && |mem| >= 16 && Flg(mem) == Packed
    requires 16 * k <= DataLen(mem)
    ensures var s := Steps(SetTag(prev, mem), k);
            && (s.nLoop == 0 <==> 16 * k == DataLen(mem))
            && |s.regs| == 16 && s.CurReg() == RegNibble(mem, k % NReg(mem))
  {
    hide DataLen, Steps, RegNibble, RegList, NReg, StepsLeft, SetTag;
    var t := SetTag(prev, mem);
    FreshPackedTag(t, mem, prev);
    PackedStepsExactly(t, k);
    CurrentRegister(t, mem, prev, Steps(t, k).nRegIdx);
  }

  lemma CurrentRegister(t: Tag, mem: seq<byte>, prev: Tag, j: nat)
    requires |prev.regs| == 16 && |mem| >= 16 && t.regs == RegList(mem)[..NReg(mem)] + prev.regs[NReg(mem)..]
    requires j < NReg(mem)
    ensures |t.regs| == 16 && t.regs[j % 16] == RegNibble(mem, j)
  {
    assert j % 16 == j;
    assert t.regs[j] == RegList(mem)[j];
  }

  lemma FreshPackedTag(t: Tag, mem: seq<byte>, prev: Tag)
    requires |prev.regs| == 16 && |mem| >= 16 && Flg(mem) == Packed && t == SetTag(prev, mem)
    ensures t.nRegIdx == 0 < t.nRegs == NReg(mem)
    ensures t.regs == RegList(mem)[..NReg(mem)] + prev.regs[NReg(mem)..]
    ensures t.len == DataLen(mem) == 16 * StepsLeft(t)
  {
    MulCommutes(NReg(mem), NLoop(mem));
  }
}
