/** The GIF tag as the hardware lays it out: fields of bits, taken straight from the bytes in memory. */
module GifFormat {
  import opened Arith
  import opened Basics
  import opened GifTags

  function Power(n: nat): (p: nat)
    ensures p > 0
  {
    if n == 0 then 1 else 2 * Power(n - 1)
  }

  /** Bit i of the memory at mem, lowest bit of the lowest byte first. */
  function Bit(mem: seq<byte>, i: nat): (b: nat)
    requires i / 8 < |mem|
    ensures b <= 1
  {
    mem[i / 8] as int / Power(i % 8) % 2
  }

  /** The number in `width` bits from bit `lo` on. */
  function Field(mem: seq<byte>, lo: nat, width: nat): nat
    requires lo + width <= 8 * |mem|
    decreases width
  {
    if width == 0 then 0 else Bit(mem, lo) + 2 * Field(mem, lo + 1, width - 1)
  }

  /** NLOOP:15, EOP:1, 42 other bits, FLG:2, NREG:4, REGS:64. */
  function Loops(h: seq<byte>): nat requires |h| >= 16 { Field(h, 0, 15) }

  predicate Ends(h: seq<byte>) requires |h| >= 16 { Bit(h, 15) == 1 }

  function Format(h: seq<byte>): nat requires |h| >= 16 { Field(h, 58, 2) }

  function Regs(h: seq<byte>): nat
    requires |h| >= 16
  {
    if Field(h, 60, 4) == 0 then 16 else Field(h, 60, 4)
  }

  function Descriptor(h: seq<byte>, i: nat): nat
    requires |h| >= 16 && i < 16
  {
    Field(h, 64 + 4 * i, 4)
  }

  lemma Powers()
    ensures Power(0) == 1 && Power(1) == 2 && Power(2) == 4 && Power(3) == 8
    ensures Power(4) == 16 && Power(5) == 32 && Power(6) == 64 && Power(7) == 128
    ensures Power(8) == 256
  {
    assert Power(2) == 2 * Power(1) && Power(4) == 2 * Power(3) && Power(6) == 2 * Power(5);
    assert Power(8) == 2 * Power(7);
  }

  /** `width` bits of a byte, from bit j of it on. */
  function Cut(b: nat, j: nat, width: nat): nat {
    b / Power(j) % Power(width)
  }

  lemma CutStep(b: nat, j: nat, width: nat)
    requires width > 0
    ensures Cut(b, j, width) == b / Power(j) % 2 + 2 * Cut(b, j + 1, width - 1)
  {
    Halves(b, Power(j));
    ModDouble(b / Power(j), Power(width - 1));
  }

  lemma CutNothing(b: nat, j: nat)
    ensures Cut(b, j, 0) == 0
  {
  }

  lemma {:induction false} ByteField(mem: seq<byte>, at: nat, j: nat, width: nat)
    requires at < |mem| && j + width <= 8
    ensures Field(mem, 8 * at + j, width) == Cut(mem[at], j, width)
    decreases width
  {
    hide Cut, Power;
    if width == 0 {
      CutNothing(mem[at], j);
    } else {
      ByteField(mem, at, j + 1, width - 1);
      CutStep(mem[at], j, width);
      assert (8 * at + j) / 8 == at && (8 * at + j) % 8 == j;
    }
  }

  lemma Halves(b: nat, p: nat)
    requires p > 0
    ensures 2 * p > 0 && b / (2 * p) == b / p / 2
  {
    var q, r := b / p, b % p;
    assert b == q * p + r;
    assert q == 2 * (q / 2) + q % 2;
    assert q * p == (q / 2) * (2 * p) + (q % 2) * p by { MulSplit(q, p); }
    assert 0 <= (q % 2) * p <= p;
    DivModUnique(b, q / 2, 2 * p, (q % 2) * p + r);
  }

  lemma MulSplit(q: nat, p: nat)
    ensures q * p == (q / 2) * (2 * p) + (q % 2) * p
  {
    assert q == 2 * (q / 2) + q % 2;
    MulDistributes(q, q % 2, p);
  }

  lemma ModDouble(x: nat, q: nat)
    requires q > 0
    ensures 2 * q > 0 && x % (2 * q) == x % 2 + 2 * (x / 2 % q)
  {
    var h := x / 2;
    assert h == h / q * q + h % q;
    DivModUnique(x, h / q, 2 * q, x % 2 + 2 * (h % q));
  }

  lemma {:induction false} FieldSplits(mem: seq<byte>, lo: nat, a: nat, b: nat)
    requires lo + a + b <= 8 * |mem|
    ensures Field(mem, lo, a + b) == Field(mem, lo, a) + Scaled(a, Field(mem, lo + a, b))
    decreases a
  {
    hide Bit, Scaled;
    ScaledIs(a, Field(mem, lo + a, b));
    if a > 0 {
      FieldSplits(mem, lo + 1, a - 1, b);
    }
  }

  function Scaled(n: nat, x: nat): nat {
    Power(n) * x
  }

  lemma ScaledIs(n: nat, x: nat)
    ensures Scaled(n, x) == if n == 0 then x else 2 * Scaled(n - 1, x)
  {
    if n > 0 { assert Power(n) * x == 2 * (Power(n - 1) * x); }
  }

  lemma CutIs(b: nat)
    ensures Cut(b, 0, 4) == b % 16 && Cut(b, 4, 4) == b / 16 % 16 && Cut(b, 2, 2) == b / 4 % 4
    ensures Cut(b, 0, 7) == b % 128 && Cut(b, 0, 8) == b % 256
  {
    Powers();
    hide Power;
  }

  lemma ScaledByte(x: nat)
    ensures Scaled(8, x) == 256 * x
  {
    Powers();
    hide Power;
  }

  // ---- The tag reader takes the fields apart as they are laid out ----

  lemma LoopsRead(h: seq<byte>)
    requires |h| >= 16
    ensures NLoop(h) == Loops(h)
  {
    hide Field, Bit, Cut, Scaled;
    FieldSplits(h, 0, 8, 7);
    ByteField(h, 0, 0, 8);
    ByteField(h, 1, 0, 7);
    CutIs(h[0]);
    CutIs(h[1]);
    ScaledByte(Field(h, 8, 7));
  }

  lemma EndsRead(h: seq<byte>)
    requires |h| >= 16
    ensures Eop(h) <==> Ends(h)
  {
    Powers();
    hide Power;
  }

  lemma RegsRead(h: seq<byte>)
    requires |h| >= 16
    ensures NReg(h) == Regs(h)
  {
    hide Field, Cut;
    ByteField(h, 7, 4, 4);
    CutIs(h[7]);
  }

  lemma FormatRead(h: seq<byte>)
    requires |h| >= 16
    ensures Flg(h) == match Format(h) case 0 => Packed case 1 => RegPairs case _ => Image
  {
    hide Field, Cut;
    ByteField(h, 7, 2, 2);
    CutIs(h[7]);
  }

  lemma DescriptorRead(h: seq<byte>, i: nat)
    requires |h| >= 16 && i < 16
    ensures RegNibble(h, i) == Descriptor(h, i)
  {
    hide Field, Cut;
    CutIs(h[8 + i / 2]);
    if i % 2 == 0 {
      ByteField(h, 8 + i / 2, 0, 4);
    } else {
      ByteField(h, 8 + i / 2, 4, 4);
    }
  }

  /** A tag that is read holds the fields of its header, and starts at its first register. */
  lemma TagRead(prev: Tag, h: seq<byte>)
    requires |prev.regs| == 16 && |h| >= 16
    ensures var t := SetTag(prev, h);
            && t.nLoop == Loops(h) && t.nRegIdx == 0 && t.isValid && (t.eop <==> Ends(h))
            && t.nRegs == (if Format(h) >= 2 then 0 else Regs(h))
            && t.flg == (match Format(h) case 0 => Packed case 1 => RegPairs case _ => Image)
            && |t.regs| == 16
            && (forall i | 0 <= i < 16 ::
                  t.regs[i] == if Format(h) == 0 && i < Regs(h) then Descriptor(h, i) else prev.regs[i])
            && (t.hasAD <==> Format(h) == 0 && exists i | 0 <= i < Regs(h) <= 16 :: Descriptor(h, i) == 0x0E)
  {
    LoopsRead(h);
    RegsRead(h);
    FormatRead(h);
    EndsRead(h);
    ListRead(h);
    PlainFields(prev, h);
    RegsUnpacked(prev, h);
    hide Loops, Regs, Format, Descriptor, NLoop, NReg, Flg, RegList, DataLen, Ends, Eop, SetTag;
    ListHasAD(RegList(h), NReg(h), h);
  }

  lemma ListRead(h: seq<byte>)
    requires |h| >= 16
    ensures |RegList(h)| == 16 && forall i | 0 <= i < 16 :: RegList(h)[i] == Descriptor(h, i)
  {
    hide RegNibble, Descriptor;
    forall i | 0 <= i < 16 ensures RegList(h)[i] == Descriptor(h, i) { DescriptorRead(h, i); }
  }

  lemma PlainFields(prev: Tag, h: seq<byte>)
    requires |prev.regs| == 16 && |h| >= 16
    ensures var t := SetTag(prev, h);
            && t.nLoop == NLoop(h) && t.nRegIdx == 0 && t.isValid && t.eop == Eop(h) && t.flg == Flg(h)
            && t.nRegs == (if Flg(h) == Image then 0 else NReg(h))
  {
    hide NLoop, NReg, Flg, Eop, DataLen, RegList;
  }

  lemma RegsUnpacked(prev: Tag, h: seq<byte>)
    requires |prev.regs| == 16 && |h| >= 16
    ensures var t := SetTag(prev, h);
            && |t.regs| == 16 && |RegList(h)| == 16
            && (forall i | 0 <= i < 16 ::
                  t.regs[i] == if Flg(h) == Packed && i < NReg(h) then RegList(h)[i] else prev.regs[i])
            && (t.hasAD <==> Flg(h) == Packed && GIF_REG_A_D in RegList(h)[..NReg(h)])
  {
    hide NLoop, Flg, Eop, DataLen, RegNibble;
  }

  lemma ListHasAD(list: seq<nat>, n: nat, h: seq<byte>)
    requires |h| >= 16 && |list| == 16 && n <= 16 && forall i | 0 <= i < 16 :: list[i] == Descriptor(h, i)
    ensures GIF_REG_A_D in list[..n] <==> exists i | 0 <= i < n <= 16 :: Descriptor(h, i) == 0x0E
  {
    hide Descriptor;
    if GIF_REG_A_D in list[..n] {
      var i :| 0 <= i < n && list[..n][i] == GIF_REG_A_D;
      assert Descriptor(h, i) == 0x0E;
    }
    if i :| 0 <= i < n <= 16 && Descriptor(h, i) == 0x0E {
      assert list[..n][i] == GIF_REG_A_D;
    }
  }

  // ---- How much data a tag has ----

  /** Quadwords that hold n bytes. */
  function Quads(n: nat): (q: nat)
    ensures 16 * q >= n && (q > 0 ==> 16 * (q - 1) < n)
  {
    (n + 15) / 16
  }

  /** The registers that a tag with registers writes. */
  function Writes(h: seq<byte>): nat requires |h| >= 16 { Times(Regs(h), Loops(h)) }

  function Times(a: nat, b: nat): nat { a * b }

  /** PACKED: a quadword for each register. REGLIST: eight bytes for each. IMAGE: NLOOP quadwords. */
  function DataQuads(h: seq<byte>): nat
    requires |h| >= 16
  {
    match Format(h)
    case 0 => Writes(h)
    case 1 => Quads(8 * Writes(h))
    case _ => Loops(h)
  }

  /** The length the tag reader works with is that, and for REGLIST the least that holds the registers. */
  lemma LengthRead(h: seq<byte>)
    requires |h| >= 16
    ensures DataLen(h) == 16 * DataQuads(h)
    ensures Format(h) == 0 ==> DataLen(h) == 16 * (Regs(h) * Loops(h))
    ensures Format(h) == 1 ==> 8 * (Regs(h) * Loops(h)) <= DataLen(h) < 8 * (Regs(h) * Loops(h)) + 16
    ensures Format(h) >= 2 ==> DataLen(h) == 16 * Loops(h)
  {
    LoopsRead(h);
    RegsRead(h);
    FormatRead(h);
    LengthIs(h, Writes(h));
    hide Loops, Regs, Format, DataLen, DataQuads;
  }

  lemma LengthIs(h: seq<byte>, w: nat)
    requires |h| >= 16 && w == Writes(h) == Times(NReg(h), NLoop(h)) && NLoop(h) == Loops(h)
    requires Flg(h) == match Format(h) case 0 => Packed case 1 => RegPairs case _ => Image
    ensures DataLen(h) == 16 * DataQuads(h)
    ensures DataQuads(h) == match Format(h) case 0 => w case 1 => (8 * w + 15) / 16 case _ => Loops(h)
  {
    hide Writes, Loops, Format, NLoop, NReg, Flg;
    HalfQuads(w);
  }

  lemma HalfQuads(w: nat)
    ensures (w + 1) / 2 * 16 == 16 * ((8 * w + 15) / 16) == 16 * Quads(8 * w)
  {
  }
}
