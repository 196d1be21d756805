/** The SIGNAL writes that a stream of GIF data holds, read off its headers, descriptors and quadwords
    alone; the parser meets exactly those. */
module GifSignalStream {
  import Arith
  import opened Basics
  import opened GifFormat
  import opened GifParser
  import opened GifTags
  import opened GsSignals

  const A_D := 14
  const SIGNAL := 0x60

  /** Between two tags' data, or before quadword k of the data of the tag with header h. */
  datatype Spot = Between | Inside(h: seq<byte>, k: nat)

  ghost predicate Proper(s: Spot) {
    s.Inside? ==> |s.h| == 16 && s.k < DataQuads(s.h)
  }

  /** One quadword further: a header, or data. */
  function Next(s: Spot, qw: seq<byte>): (n: Spot)
    requires Proper(s) && |qw| == 16
    ensures Proper(n)
  {
    match s
    case Between => if DataQuads(qw) == 0 then Between else Inside(qw, 0)
    case Inside(h, k) => if k + 1 == DataQuads(h) then Between else Inside(h, k + 1)
  }

  /** The data of a PACKED tag go to its registers in turn; one for A+D names its own register. */
  predicate IsSignal(s: Spot, qw: seq<byte>)
    requires Proper(s) && |qw| == 16
  {
    s.Inside? && Format(s.h) == 0 && Descriptor(s.h, s.k % Regs(s.h)) == A_D && Field(qw, 64, 8) == SIGNAL
  }

  /** Data in the low word, a mask in the next. */
  function SignalOf(qw: seq<byte>): MaskedWrite
    requires |qw| == 16
  {
    MaskedWrite(BitsFrom(qw, 0), BitsFrom(qw, 32))
  }

  /** The 32-bit register whose lowest bit is bit `lo`. */
  function BitsFrom(qw: seq<byte>, lo: nat): Bits
    requires lo + 32 <= 8 * |qw|
  {
    set i: nat | i < 32 && IsSet(qw, lo, i)
  }

  predicate IsSet(qw: seq<byte>, lo: nat, i: nat)
    requires lo + 32 <= 8 * |qw| && i < 32
  {
    Bit(qw, lo + i) == 1
  }

  /** The SIGNAL writes in `data`, which begins at s. */
  function Signals(s: Spot, data: seq<byte>): seq<MaskedWrite>
    requires Proper(s)
    decreases |data|
  {
    if |data| < 16 then []
    else
      (if IsSignal(s, data[..16]) then [SignalOf(data[..16])] else []) + Signals(Next(s, data[..16]), data[16..])
  }

  /** Where `data` ends. */
  function SpotAfter(s: Spot, data: seq<byte>): (t: Spot)
    requires Proper(s)
    ensures Proper(t)
    decreases |data|
  {
    if |data| < 16 then s else SpotAfter(Next(s, data[..16]), data[16..])
  }

  lemma {:induction false} SignalsConcat(s: Spot, x: seq<byte>, y: seq<byte>)
    requires Proper(s) && Aligned(|x|)
    ensures Signals(s, x + y) == Signals(s, x) + Signals(SpotAfter(s, x), y)
    ensures SpotAfter(s, x + y) == SpotAfter(SpotAfter(s, x), y)
    decreases |x|
  {
    hide IsSignal, SignalOf, Next, Aligned, Proper;
    AlignedLess(|x|);
    if |x| < 16 {
      assert x + y == y;
    } else {
      var n := Next(s, x[..16]);
      assert (x + y)[..16] == x[..16] && (x + y)[16..] == x[16..] + y;
      SignalsConcat(n, x[16..], y);
      Associates(if IsSignal(s, x[..16]) then [SignalOf(x[..16])] else [], Signals(n, x[16..]),
                 Signals(SpotAfter(n, x[16..]), y));
    }
  }

  lemma AlignedLess(n: nat)
    requires Aligned(n)
    ensures n < 16 ==> n == 0
    ensures n >= 16 ==> Aligned(n - 16)
  {
  }

  lemma Associates<T>(a: seq<T>, b: seq<T>, c: seq<T>)
    ensures a + (b + c) == (a + b) + c
  {
  }

  // ---- The handler takes a quadword for what it is ----

  lemma SignalRead(qw: seq<byte>)
    requires |qw| == 16
    ensures WriteOf(qw) == SignalOf(qw)
    ensures At(qw, 8) == Field(qw, 64, 8)
  {
    hide WordBits, BitsFrom, Field, Cut;
    ByteField(qw, 8, 0, 8);
    CutIs(qw[8]);
    WordRead(qw, 0);
    WordRead(qw, 4);
  }

  lemma WordRead(qw: seq<byte>, at: nat)
    requires at + 4 <= |qw|
    ensures WordBits(qw, at) == BitsFrom(qw, 8 * at)
  {
    hide At, IsSet;
    forall i: nat | i < 32
      ensures (At(qw, at + i / 8) / BIT_VALUE[i % 8]) % 2 == 1 <==> IsSet(qw, 8 * at, i)
    {
      BitRead(qw, at, i);
    }
  }

  lemma BitRead(qw: seq<byte>, at: nat, i: nat)
    requires at + 4 <= |qw| && i < 32
    ensures (At(qw, at + i / 8) / BIT_VALUE[i % 8]) % 2 == 1 <==> IsSet(qw, 8 * at, i)
  {
    hide Power;
    PowerIs(i % 8);
    assert (8 * at + i) / 8 == at + i / 8 && (8 * at + i) % 8 == i % 8;
  }

  lemma PowerIs(j: nat)
    requires j < 8
    ensures BIT_VALUE[j] == Power(j)
  {
    Powers();
    hide Power;
  }

  // ---- Where a tag that is being parsed stands ----

  /** The parser's tag says where it is. */
  ghost predicate Stands(t: Tag, s: Spot) {
    if !t.isValid || t.nLoop == 0 then s == Between
    else
      && s.Inside? && |s.h| == 16 && Format(s.h) == 0 && s.k < DataQuads(s.h)
      && |t.regs| == 16 && t.nRegs == Regs(s.h) <= 16 && t.nRegIdx < t.nRegs
      && t.nRegIdx == s.k % t.nRegs && StepsLeft(t) == DataQuads(s.h) - s.k
      && forall i | 0 <= i < t.nRegs :: t.regs[i] == Descriptor(s.h, i)
  }

  /** The step sees an A+D write of a SIGNAL exactly where the stream has one. */
  lemma AdStepMeets(t: Tag, gs: Gs, s: Spot, qw: seq<byte>)
    requires t.isValid && t.nLoop > 0 && Stands(t, s) && |qw| == 16
    ensures |t.regs| == 16 && Proper(s)
    ensures AdStep(t, gs, qw).0.signals == gs.signals + if IsSignal(s, qw) then [SignalOf(qw)] else []
  {
    hide IsSignal, HandleWrite, WriteOf, SignalOf, At, Tag.CurReg, Stands;
    Register(t, s, qw);
    SignalRead(qw);
    HandlerRecords(gs, At(qw, 8), WriteOf(qw));
    assert gs.signals + [] == gs.signals;
  }

  lemma Register(t: Tag, s: Spot, qw: seq<byte>)
    requires t.isValid && t.nLoop > 0 && Stands(t, s) && |qw| == 16
    ensures |t.regs| == 16 && Proper(s)
    ensures IsSignal(s, qw) <==> t.CurReg() == GIF_REG_A_D && Field(qw, 64, 8) == A_D_SIGNAL
  {
    hide Descriptor, Regs, Format, Field, DataQuads, StepsLeft;
    assert t.CurReg() == Descriptor(s.h, s.k % Regs(s.h));
  }

  lemma StandsOn(t: Tag, s: Spot, qw: seq<byte>)
    requires t.isValid && t.nLoop > 0 && Stands(t, s) && |qw| == 16
    ensures Stands(PackedStep(t), Next(s, qw))
  {
    hide Descriptor, Regs, Format, DataQuads, StepsLeft;
    StepCountsDown(t);
    NextRemainder(s.k, t.nRegs);
    Positive(t);
  }

  lemma Positive(t: Tag)
    requires t.nRegIdx < t.nRegs
    ensures StepsLeft(t) > 0 <==> t.nLoop > 0
  {
    Arith.MulAtLeast(t.nLoop, t.nRegs);
  }

  lemma NextRemainder(k: nat, n: nat)
    requires n > 0
    ensures (k + 1) % n == if k % n + 1 == n then 0 else k % n + 1
  {
    var q, r := k / n, k % n;
    assert k == q * n + r;
    if r + 1 == n {
      Arith.MulDistributes(q, -1, n);
      Arith.DivModUnique(k + 1, q + 1, n, 0);
    } else {
      Arith.DivModUnique(k + 1, q, n, r + 1);
    }
  }

  // ---- A tag whose data holds none ----

  ghost predicate NoSignals(h: seq<byte>)
    requires |h| == 16
  {
    Format(h) != 0 || forall i | 0 <= i < Regs(h) <= 16 :: Descriptor(h, i) != A_D
  }

  lemma {:induction false} Quiet(h: seq<byte>, k: nat, data: seq<byte>)
    requires |h| == 16 && NoSignals(h) && k < DataQuads(h) && |data| == 16 * (DataQuads(h) - k)
    ensures Signals(Inside(h, k), data) == [] && SpotAfter(Inside(h, k), data) == Between
    decreases DataQuads(h) - k
  {
    hide DataQuads, NoSignals, IsSignal;
    NoneHere(h, k, data[..16]);
    if k + 1 < DataQuads(h) {
      Quiet(h, k + 1, data[16..]);
    }
  }

  lemma NoneHere(h: seq<byte>, k: nat, qw: seq<byte>)
    requires |h| == 16 && NoSignals(h) && k < DataQuads(h) && |qw| == 16
    ensures !IsSignal(Inside(h, k), qw)
  {
    hide Field, DataQuads;
    InRange(k, Regs(h));
    RegsRead(h);
    hide Regs;
  }

  lemma InRange(k: nat, n: nat)
    requires n > 0
    ensures 0 <= k % n < n
  {
  }

  /** A header with all of such data. */
  lemma QuietTag(data: seq<byte>)
    requires |data| >= 16 && NoSignals(data[..16]) && |data| == 16 + 16 * DataQuads(data[..16])
    ensures Signals(Between, data) == [] && SpotAfter(Between, data) == Between
  {
    hide DataQuads, NoSignals, IsSignal;
    NotInside(data[..16]);
    if |data| > 16 {
      Quiet(data[..16], 0, data[16..]);
    }
  }

  lemma NotInside(qw: seq<byte>)
    requires |qw| == 16
    ensures !IsSignal(Between, qw)
  {
  }

  // ---- One turn, one call, a whole run ----

  lemma HeaderRead(prev: Tag, h: seq<byte>)
    requires |prev.regs| == 16 && |h| == 16
    ensures var t := SetTag(prev, h);
            && t.isValid && t.len == 16 * DataQuads(h) && (t.eop <==> Ends(h))
            && (t.hasAD ==> Stands(t, Next(Between, h)))
            && (!t.hasAD ==> NoSignals(h))
  {
    LengthRead(h);
    SetTagFields(prev, h);
    EndsRead(h);
    hide DataLen, Eop, Ends;
    if SetTag(prev, h).hasAD {
      ADTag(prev, h);
    } else {
      QuietHeader(prev, h);
    }
    hide SetTag, NoSignals, Stands, Next, DataQuads;
  }

  lemma ADTag(prev: Tag, h: seq<byte>)
    requires |prev.regs| == 16 && |h| == 16 && SetTag(prev, h).hasAD
    ensures Stands(SetTag(prev, h), Next(Between, h))
  {
    hide SetTag, DataLen, DataQuads, Regs, Format, Descriptor, NReg, RegNibble, Flg, StepsLeft, Field, Loops, RegList;
    var t := SetTag(prev, h);
    HeaderIsPacked(prev, h);
    SetTagFields(prev, h);
    FreshPackedTag(t, h, prev);
    LengthRead(h);
    RegsRead(h);
    FormatRead(h);
    Positive(t);
    ADRegs(t, prev, h);
    Zero(t.nRegs);
  }

  lemma ADRegs(t: Tag, prev: Tag, h: seq<byte>)
    requires |prev.regs| == 16 && |h| == 16 && t.regs == RegList(h)[..NReg(h)] + prev.regs[NReg(h)..]
    ensures |t.regs| == 16 && forall i | 0 <= i < NReg(h) :: t.regs[i] == Descriptor(h, i)
  {
    hide RegNibble, Descriptor;
    Descriptors(h);
    var r := RegList(h);
    forall i | 0 <= i < NReg(h) ensures t.regs[i] == Descriptor(h, i) {
      assert t.regs[i] == r[..NReg(h)][i] == r[i] == RegNibble(h, i);
    }
  }

  lemma HeaderIsPacked(prev: Tag, h: seq<byte>)
    requires |prev.regs| == 16 && |h| == 16 && SetTag(prev, h).hasAD
    ensures Flg(h) == Packed
  {
    hide RegList, NReg, DataLen;
  }

  lemma Zero(n: nat)
    requires n > 0
    ensures 0 % n == 0
  {
  }

  lemma Descriptors(h: seq<byte>)
    requires |h| >= 16
    ensures forall i | 0 <= i < 16 :: RegNibble(h, i) == Descriptor(h, i)
  {
    forall i | 0 <= i < 16 ensures RegNibble(h, i) == Descriptor(h, i) { DescriptorRead(h, i); }
  }

  lemma QuietHeader(prev: Tag, h: seq<byte>)
    requires |prev.regs| == 16 && |h| == 16 && !SetTag(prev, h).hasAD
    ensures NoSignals(h)
  {
    FormatRead(h);
    RegsRead(h);
    Descriptors(h);
    hide RegNibble, Descriptor, Regs, Format, Flg, DataLen, Field;
    if Format(h) == 0 {
      forall i | 0 <= i < Regs(h) <= 16 ensures Descriptor(h, i) != A_D {
        assert RegList(h)[..NReg(h)][i] == RegNibble(h, i);
      }
    }
  }

  /** What a turn used of the data, it recorded, and the tag stands where that ends. */
  ghost predicate Met(gs: Gs, s: Spot, data: seq<byte>, gs': Gs, t: Tag)
    requires Proper(s)
  {
    Aligned(|data|) && Recorded(gs, Signals(s, data), gs') && Stands(t, SpotAfter(s, data))
  }

  predicate Recorded(gs: Gs, ws: seq<MaskedWrite>, gs': Gs) {
    gs'.signals == gs.signals + ws
  }

  lemma RecordedThen(gs: Gs, a: seq<MaskedWrite>, gs1: Gs, b: seq<MaskedWrite>, gs2: Gs)
    requires Recorded(gs, a, gs1) && Recorded(gs1, b, gs2)
    ensures Recorded(gs, a + b, gs2)
  {
    Associates(gs.signals, a, b);
  }

  lemma RecordedNothing(gs: Gs)
    ensures Recorded(gs, [], gs)
  {
    assert gs.signals + [] == gs.signals;
  }

  lemma OneQuad(s: Spot, qw: seq<byte>)
    requires Proper(s) && |qw| == 16
    ensures Signals(s, qw) == if IsSignal(s, qw) then [SignalOf(qw)] else []
    ensures SpotAfter(s, qw) == Next(s, qw) && Aligned(|qw|)
  {
    hide IsSignal, SignalOf, Next, Proper;
    assert qw[..16] == qw && qw[16..] == [];
  }

  lemma MetNothing(gs: Gs, s: Spot, t: Tag)
    requires Proper(s) && Stands(t, s)
    ensures Met(gs, s, [], gs, t)
  {
    hide Stands, Recorded;
    RecordedNothing(gs);
  }

  lemma MetStep(t: Tag, gs: Gs, s: Spot, qw: seq<byte>)
    requires t.isValid && t.nLoop > 0 && Stands(t, s) && |qw| == 16
    ensures |t.regs| == 16 && Proper(s)
    ensures Met(gs, s, qw, AdStep(t, gs, qw).0, PackedStep(t))
  {
    AdStepMeets(t, gs, s, qw);
    StandsOn(t, s, qw);
    OneQuad(s, qw);
    hide AdStep, Stands, IsSignal, SignalOf, Next, Signals, SpotAfter, Aligned, PackedStep;
  }

  lemma MetHeader(gs: Gs, h: seq<byte>, t: Tag)
    requires |h| == 16 && Stands(t, Next(Between, h))
    ensures Met(gs, Between, h, gs, t)
  {
    hide Stands, IsSignal, Next, Aligned, Signals, SpotAfter, Recorded;
    NotInside(h);
    OneQuad(Between, h);
    RecordedNothing(gs);
  }

  lemma MetTag(gs: Gs, data: seq<byte>, t: Tag)
    requires |data| >= 16 && NoSignals(data[..16]) && |data| == 16 + 16 * DataQuads(data[..16]) && !t.isValid
    ensures Met(gs, Between, data, gs, t)
  {
    hide NoSignals, DataQuads, Signals, SpotAfter, Aligned, Recorded;
    QuietTag(data);
    TimesSixteen(1 + DataQuads(data[..16]));
    RecordedNothing(gs);
  }

  lemma MetEnd(gs: Gs, s: Spot, data: seq<byte>, gs': Gs, t: Tag)
    requires Proper(s) && Met(gs, s, data, gs', t) && t.nLoop == 0
    ensures Met(gs, s, data, gs', t.(isValid := false))
  {
  }

  lemma TurnMeets(p: Parser, gs: Gs, data: seq<byte>, s: Spot)
    requires Running(p) && Proper(s) && Stands(p.tag, s)
    ensures match ParseTurn(p, gs, data)
            case Go(q, gs', n) => Met(gs, s, data[..n], gs', q.tag)
            case Stop(o) => Met(gs, s, data[..o.used], o.gs, o.p.tag)
  {
    if !p.tag.isValid && |data| >= 16 {
      FetchMeets(p, gs, data);
    } else if p.tag.isValid && p.tag.nLoop > 0 && |data| >= 16 {
      StepMeets(p, gs, data, s);
    } else {
      MetNothing(gs, s, p.tag);
      assert data[..0] == [];
      if p.tag.isValid && p.tag.nLoop == 0 {
        MetEnd(gs, s, [], gs, p.tag);
      }
      hide Met, Stands, Proper;
    }
  }

  lemma FetchMeets(p: Parser, gs: Gs, data: seq<byte>)
    requires Running(p) && !p.tag.isValid && |data| >= 16
    ensures match ParseTurn(p, gs, data)
            case Go(q, gs', n) => Met(gs, Between, data[..n], gs', q.tag)
            case Stop(o) => Met(gs, Between, data[..o.used], o.gs, o.p.tag)
  {
    hide Met, SetTag, ParseTurn;
    FetchTurn(p, gs, data);
    HeaderMeets(p.tag, gs, data);
  }

  /** What there is to a header, the tag's data behind it included if they are all there. */
  lemma HeaderMeets(prev: Tag, gs: Gs, data: seq<byte>)
    requires |prev.regs| == 16 && |data| >= 16
    ensures var t := SetTag(prev, data[..16]);
            var u := t.(isValid := false);
            if t.hasAD then Met(gs, Between, data[..16], gs, t)
            else if 16 + t.len > |data| then Met(gs, Between, data[..0], gs, u)
            else Met(gs, Between, data[..16 + t.len], gs, u)
  {
    hide Met, SetTag, Stands, NoSignals, DataQuads, Next, Ends;
    var h := data[..16];
    var t := SetTag(prev, h);
    var u := t.(isValid := false);
    HeaderRead(prev, h);
    if t.hasAD {
      MetHeader(gs, h, t);
    } else if 16 + t.len > |data| {
      Unread(u);
      MetNothing(gs, Between, u);
    } else {
      assert data[..16 + t.len][..16] == h;
      MetTag(gs, data[..16 + t.len], u);
    }
  }

  lemma Unread(t: Tag)
    requires !t.isValid
    ensures Stands(t, Between)
  {
  }

  lemma StepMeets(p: Parser, gs: Gs, data: seq<byte>, s: Spot)
    requires Running(p) && p.tag.isValid && p.tag.nLoop > 0 && |data| >= 16 && Proper(s) && Stands(p.tag, s)
    ensures match ParseTurn(p, gs, data)
            case Go(q, gs', n) => Met(gs, s, data[..n], gs', q.tag)
            case Stop(o) => Met(gs, s, data[..o.used], o.gs, o.p.tag)
  {
    MetStep(p.tag, gs, s, data[..16]);
    if PackedStep(p.tag).nLoop == 0 {
      MetEnd(gs, s, data[..16], AdStep(p.tag, gs, data[..16]).0, PackedStep(p.tag));
    }
    hide Met, AdStep, PackedStep, Stands, Proper;
  }

  lemma MetThen(gs: Gs, s: Spot, x: seq<byte>, gs1: Gs, t1: Tag, y: seq<byte>, gs2: Gs, t2: Tag)
    requires Proper(s) && Met(gs, s, x, gs1, t1) && Met(gs1, SpotAfter(s, x), y, gs2, t2)
    ensures Met(gs, s, x + y, gs2, t2)
  {
    hide Signals, SpotAfter, Stands, Aligned, Proper, Recorded;
    SignalsConcat(s, x, y);
    SumAligned(|x|, |y|);
    RecordedThen(gs, Signals(s, x), gs1, Signals(SpotAfter(s, x), y), gs2);
  }

  /** A call records exactly the SIGNAL writes of the bytes it used, in order. */
  lemma {:induction false} ExecMeets(p: Parser, gs: Gs, data: seq<byte>, s: Spot)
    requires Running(p) && Proper(s) && Stands(p.tag, s)
    ensures var o := Exec(p, gs, data); Met(gs, s, data[..o.used], o.gs, o.p.tag)
    decreases |data|, p.tag.isValid
  {
    hide Met, ParseTurn, Stands, Proper, SpotAfter, Running;
    TurnMeets(p, gs, data, s);
    match ParseTurn(p, gs, data) {
      case Stop(o) =>
      case Go(q, gs', n) =>
        var x, y := data[..n], data[n..];
        MetStands(gs, s, x, gs', q.tag);
        ExecMeets(q, gs', y, SpotAfter(s, x));
        var o := Exec(q, gs', y);
        MetThen(gs, s, x, gs', q.tag, y[..o.used], o.gs, o.p.tag);
        Joined(data, n, o.used);
    }
  }

  lemma Joined(data: seq<byte>, n: nat, m: nat)
    requires n + m <= |data|
    ensures data[..n + m] == data[..n] + data[n..][..m]
  {
  }

  lemma MetStands(gs: Gs, s: Spot, data: seq<byte>, gs': Gs, t: Tag)
    requires Proper(s) && Met(gs, s, data, gs', t)
    ensures Stands(t, SpotAfter(s, data))
  {
  }

  lemma {:induction false} RunMeets(p: Parser, gs: Gs, data: seq<byte>, s: Spot)
    requires p.Ok() && Proper(s) && Stands(p.tag, s)
    ensures var r := Run(p, gs, data); Met(gs, s, data[..r.used], r.gs, r.p.tag)
    decreases |data|
  {
    hide Met, Exec, Stands, Proper, SpotAfter, Completed;
    assert data[..0] == [];
    if gs.queued {
      MetNothing(gs, s, p.tag);
    } else {
      ExecMeets(p, gs, data, s);
      var o := Exec(p, gs, data);
      if o.ending == Done {
        var x, y := data[..o.used], data[o.used..];
        MetStands(gs, s, x, o.gs, o.p.tag);
        CompletedStands(o.p, SpotAfter(s, x));
        ProperAfter(s, x);
        RunMeets(Completed(o.p), o.gs, y, SpotAfter(s, x));
        var r := Run(Completed(o.p), o.gs, y);
        MetThen(gs, s, x, o.gs, o.p.tag, y[..r.used], r.gs, r.p.tag);
        Joined(data, o.used, r.used);
      }
    }
  }

  lemma ProperAfter(s: Spot, data: seq<byte>)
    requires Proper(s)
    ensures Proper(SpotAfter(s, data))
  {
  }

  lemma CompletedStands(p: Parser, s: Spot)
    requires p.Ok() && !p.tag.isValid && Stands(p.tag, s)
    ensures Completed(p).Ok() && Stands(Completed(p).tag, s)
  {
  }

  /** However a stream is cut up, what is recorded is the SIGNAL writes of the bytes parsed. */
  lemma StreamMeets(gs: Gs, pieces: seq<seq<byte>>)
    requires pieces != []
    ensures var r := RunPieces(FRESH, gs, [], pieces);
            r.used <= |Join(pieces)| && r.gs.signals == gs.signals + Signals(Between, Join(pieces)[..r.used])
  {
    hide Run, RunPieces, Signals, Join;
    PiecesDoNotMatter(FRESH, gs, [], pieces);
    assert [] + Join(pieces) == Join(pieces);
    RunMeets(FRESH, gs, Join(pieces), Between);
  }

  // ---- Where a call says it stopped ----

  /** A call that stops for want of a tag's data leaves the tag to be read again, and its state tells the
      tag's format: so path 3 is known to be inside an image exactly if it is. */
  lemma StateShown(p: Parser, gs: Gs, data: seq<byte>)
    requires Running(p) && !p.tag.isValid && |data| >= 16
    requires 16 + 16 * DataQuads(data[..16]) > |data| && NoSignals(data[..16])
    ensures var o := Exec(p, gs, data);
            && o.ending == Starved && o.used == 0 && o.gs == gs && o.p.size == p.size && !o.p.tag.isValid
            && o.p.state == match Format(data[..16]) case 0 => OnPacked case 1 => OnRegList case _ => OnImage
  {
    var h := data[..16];
    HeaderRead(p.tag, h);
    FetchExec(p, gs, data);
    FormatRead(h);
    FlagRead(p.tag, h);
    NotAD(p.tag, h);
    hide SetTag, Exec, NoSignals, DataQuads, Format, Next, Ends, Stands;
  }

  lemma FlagRead(prev: Tag, h: seq<byte>)
    requires |prev.regs| == 16 && |h| >= 16
    ensures SetTag(prev, h).flg == Flg(h)
  {
  }

  lemma NotAD(prev: Tag, h: seq<byte>)
    requires |prev.regs| == 16 && |h| == 16 && NoSignals(h)
    ensures !SetTag(prev, h).hasAD
  {
    FormatRead(h);
    RegsRead(h);
    Descriptors(h);
    hide RegNibble, Descriptor, Regs, Format, Flg, DataLen, Field;
    var list := RegList(h)[..NReg(h)];
    forall i | 0 <= i < |list| && Format(h) == 0 ensures list[i] != GIF_REG_A_D {
      assert list[i] == RegNibble(h, i);
    }
  }

  // ---- A literal packet ----

  /** A REGLIST tag of one register, written once, with EOP. */
  const ONE_REGISTER: seq<byte> := [1, 128, 0, 0, 0, 0, 0, 20, 0, 0, 0, 0, 0, 0, 0, 0]

  /** Its eight bytes of data take a quadword: the packet has 32 bytes. */
  lemma OneRegister(gs: Gs, qw: seq<byte>)
    requires |qw| == 16
    ensures var o := Exec(FRESH, gs, ONE_REGISTER + qw); o.ending == Done && o.used == 32 && o.gs == gs
  {
    assert (ONE_REGISTER + qw)[..16] == ONE_REGISTER;
    assert DataLen(ONE_REGISTER) == 16;
    FetchExec(FRESH, gs, ONE_REGISTER + qw);
    SetTagFields(FRESH.tag, ONE_REGISTER);
  }
}
