/** The GS side of A+D writes: the SIGNAL / FINISH / LABEL registers, the one-deep queue for a
    stalling SIGNAL, and the CSR acknowledge. */
module GsSignals {
  import opened Basics
  import opened GifTags

  const A_D_SIGNAL := 0x60
  const A_D_FINISH := 0x61
  const A_D_LABEL := 0x62

  /** A 32-bit register, as the set of positions of its 1 bits. */
  type Bits = set<nat>

  /** A register write under a bit mask. */
  datatype MaskedWrite = MaskedWrite(data: Bits, mask: Bits)

  /** (value & ~mask) | (data & mask) */
  function Apply(value: Bits, w: MaskedWrite): Bits {
    (value - w.mask) + (w.data * w.mask)
  }

  /** The in-order effect of a list of masked writes. */
  function Fold(value: Bits, ws: seq<MaskedWrite>): Bits {
    if ws == [] then value else Apply(Fold(value, ws[..|ws| - 1]), ws[|ws| - 1])
  }

  lemma FoldAppend(value: Bits, ws: seq<MaskedWrite>, w: MaskedWrite)
    ensures Fold(value, ws + [w]) == Apply(Fold(value, ws), w)
  {
    assert (ws + [w])[..|ws|] == ws;
  }

  /** `signals` is history: every SIGNAL write met since the last GS reset, acknowledged or not. */
  datatype Gs = Gs(
    csrSignal: bool, csrFinish: bool, sigId: Bits, lblId: Bits,
    queued: bool, queue: MaskedWrite,
    finishFired: bool, finishPending: bool,
    sigMasked: bool, finishMasked: bool,
    irqs: nat, signals: seq<MaskedWrite>)
  {
    /** No SIGNAL is lost: SIGID, plus the stalled write if there is one, is the fold of them all;
        and a write is only ever stalled while an earlier one is unacknowledged. */
    ghost predicate NoSignalLost() {
      && (queued ==> csrSignal)
      && Fold({}, signals) == if queued then Apply(sigId, queue) else sigId
    }
  }

  /** What A+D writes and FINISH interrupts may do from a to b: history, interrupts and the CSR bits
      only grow, a stalled write stays stalled, and the interrupt masks stay as they are. */
  ghost predicate Follows(a: Gs, b: Gs) {
    && a.signals <= b.signals && a.irqs <= b.irqs
    && (a.csrSignal ==> b.csrSignal) && (a.csrFinish ==> b.csrFinish) && (a.queued ==> b.queued && b.queue == a.queue)
    && b.sigMasked == a.sigMasked && b.finishMasked == a.finishMasked
  }

  lemma FollowsSelf(a: Gs)
    ensures Follows(a, a)
  {
  }

  lemma FollowsChain(a: Gs, b: Gs, c: Gs)
    requires Follows(a, b) && Follows(b, c)
    ensures Follows(a, c)
  {
  }

  const RESET_GS := Gs(false, false, {}, {}, false, MaskedWrite({}, {}), true, false, true, true, 0, [])

  const BIT_VALUE: seq<nat> := [1, 2, 4, 8, 16, 32, 64, 128]

  /** The little-endian 32-bit word at `at`. */
  function WordBits(qw: seq<byte>, at: nat): Bits
    requires at + 4 <= |qw|
  {
    set i: nat | i < 32 && (At(qw, at + i / 8) / BIT_VALUE[i % 8]) % 2 == 1
  }

  function WriteOf(qw: seq<byte>): MaskedWrite
    requires |qw| >= 16
  {
    MaskedWrite(WordBits(qw, 0), WordBits(qw, 4))
  }

  /** One A+D quadword. The flag says the write stalls the GIF. */
  function HandlerAD(gs: Gs, qw: seq<byte>): (Gs, bool)
    requires |qw| >= 16
  {
    HandleWrite(gs, At(qw, 8), WriteOf(qw))
  }

  function HandleSignal(gs: Gs, w: MaskedWrite): (Gs, bool) {
    if !gs.csrSignal then (Signalled(gs, w), false)
    else if !gs.queued then (Stalled(gs, w), true)
    else (gs.(signals := gs.signals + [w]), false)
  }

  /** A SIGNAL takes effect. */
  function Signalled(gs: Gs, w: MaskedWrite): Gs {
    gs.(sigId := Apply(gs.sigId, w), irqs := gs.irqs + (if gs.sigMasked then 0 else 1), csrSignal := true,
        signals := gs.signals + [w])
  }

  /** A SIGNAL has to wait for the one before it. */
  function Stalled(gs: Gs, w: MaskedWrite): Gs {
    gs.(queued := true, queue := w, signals := gs.signals + [w])
  }

  function HandleFinish(gs: Gs): Gs {
    gs.(finishFired := false, finishPending := true)
  }

  function HandleLabel(gs: Gs, w: MaskedWrite): Gs {
    gs.(lblId := Apply(gs.lblId, w))
  }

  function HandleWrite(gs: Gs, reg: nat, w: MaskedWrite): (Gs, bool) {
    if reg == A_D_SIGNAL then HandleSignal(gs, w)
    else if reg == A_D_FINISH then (HandleFinish(gs), false)
    else if reg == A_D_LABEL then (HandleLabel(gs, w), false)
    else (gs, false)
  }

  function FinishIrq(gs: Gs): Gs {
    var a := if gs.finishPending then gs.(csrFinish := true, finishPending := false) else gs;
    if a.csrFinish && !a.finishMasked && !a.finishFired
    then a.(irqs := a.irqs + 1, finishFired := true)
    else a
  }

  /** The SIGNAL bit of a CSR write: the stalled write, if any, takes its turn. */
  function SignalAck(gs: Gs): Gs {
    if gs.queued then
      gs.(sigId := Apply(gs.sigId, gs.queue), irqs := gs.irqs + (if gs.sigMasked then 0 else 1),
          csrSignal := true, queued := false)
    else gs.(csrSignal := false)
  }

  /** The FINISH bit of a CSR write. */
  function FinishAck(gs: Gs): Gs {
    gs.(csrFinish := false, finishFired := false, finishPending := false)
  }

  // ---- What every step keeps ----

  lemma ResetKeepsSignals()
    ensures RESET_GS.NoSignalLost() && !RESET_GS.queued
  {
  }

  /** A+D writes keep the invariant as long as none arrives while one is stalled ... */
  lemma HandlerKeepsSignals(gs: Gs, reg: nat, w: MaskedWrite)
    requires gs.NoSignalLost() && !gs.queued
    ensures HandleWrite(gs, reg, w).0.NoSignalLost()
    ensures HandleWrite(gs, reg, w).1 == HandleWrite(gs, reg, w).0.queued
  {
    if reg == A_D_SIGNAL {
      SignalKeeps(gs, w);
    } else {
      OthersKeep(gs, w);
    }
    hide HandleSignal, HandleFinish, HandleLabel, Gs.NoSignalLost;
  }

  lemma SignalKeeps(gs: Gs, w: MaskedWrite)
    requires gs.NoSignalLost() && !gs.queued
    ensures HandleSignal(gs, w).0.NoSignalLost() && HandleSignal(gs, w).1 == HandleSignal(gs, w).0.queued
  {
    FoldAppend({}, gs.signals, w);
    if gs.csrSignal {
      assert Stalled(gs, w).NoSignalLost();
      hide Stalled, Signalled, Gs.NoSignalLost;
    } else {
      assert Signalled(gs, w).NoSignalLost() && !Signalled(gs, w).queued;
      hide Stalled, Signalled, Gs.NoSignalLost;
    }
  }

  lemma OthersKeep(gs: Gs, w: MaskedWrite)
    ensures HandleFinish(gs).queued == HandleLabel(gs, w).queued == gs.queued
    ensures gs.NoSignalLost() ==> HandleFinish(gs).NoSignalLost() && HandleLabel(gs, w).NoSignalLost()
  {
    hide Fold;
  }

  lemma SignalledFollows(gs: Gs, w: MaskedWrite)
    ensures Follows(gs, Signalled(gs, w))
  {
    hide Apply;
    assert gs.signals <= gs.signals + [w];
  }

  lemma StalledFollows(gs: Gs, w: MaskedWrite)
    requires !gs.queued
    ensures Follows(gs, Stalled(gs, w))
  {
    assert gs.signals <= gs.signals + [w];
  }

  lemma DroppedFollows(gs: Gs, w: MaskedWrite)
    ensures Follows(gs, gs.(signals := gs.signals + [w]))
  {
    assert gs.signals <= gs.signals + [w];
  }

  lemma OthersFollow(gs: Gs, w: MaskedWrite)
    ensures Follows(gs, HandleFinish(gs)) && Follows(gs, HandleLabel(gs, w))
  {
    hide Apply;
  }

  /** The history is every SIGNAL that reaches the handler, whatever becomes of it, and nothing else. */
  lemma HandlerRecords(gs: Gs, reg: nat, w: MaskedWrite)
    ensures HandleWrite(gs, reg, w).0.signals == gs.signals + if reg == A_D_SIGNAL then [w] else []
  {
    hide Apply;
    assert gs.signals + [] == gs.signals;
  }

  lemma HandlerFollows(gs: Gs, reg: nat, w: MaskedWrite)
    ensures Follows(gs, HandleWrite(gs, reg, w).0)
  {
    hide Follows, Signalled, Stalled, HandleFinish, HandleLabel;
    SignalledFollows(gs, w);
    DroppedFollows(gs, w);
    OthersFollow(gs, w);
    FollowsSelf(gs);
    if !gs.queued {
      StalledFollows(gs, w);
    }
  }

  /** ... and a SIGNAL that does arrive then is gone: the write takes no effect at all, now or at
      the acknowledge. */
  lemma SignalWhileQueuedIsDropped(gs: Gs, w: MaskedWrite)
    requires gs.queued && gs.csrSignal
    ensures HandleWrite(gs, A_D_SIGNAL, w) == (gs.(signals := gs.signals + [w]), false)
    ensures gs.NoSignalLost() && Apply(Apply(gs.sigId, gs.queue), w) != Apply(gs.sigId, gs.queue) ==>
      !HandleWrite(gs, A_D_SIGNAL, w).0.NoSignalLost()
  {
    FoldAppend({}, gs.signals, w);
  }

  /** An acknowledge never loses a stalled write, and leaves none stalled. */
  lemma SignalAckKeepsSignals(gs: Gs)
    ensures gs.NoSignalLost() ==> SignalAck(gs).NoSignalLost()
    ensures !SignalAck(gs).queued && (SignalAck(gs).csrSignal <==> gs.queued)
  {
  }

  lemma FinishAckKeepsSignals(gs: Gs)
    ensures gs.NoSignalLost() ==> FinishAck(gs).NoSignalLost()
  {
  }

  lemma FinishKeepsSignals(gs: Gs)
    ensures FinishIrq(gs).queued == gs.queued
    ensures gs.NoSignalLost() ==> FinishIrq(gs).NoSignalLost()
    ensures Follows(gs, FinishIrq(gs))
  {
  }

  // ---- What a write does, register by register ----

  /** A register after a masked write: bit by bit. */
  ghost predicate Merged(now: Bits, was: Bits, w: MaskedWrite) {
    forall b: nat :: b in now <==> if b in w.mask then b in w.data else b in was
  }

  /** With CSR.SIGNAL clear a SIGNAL takes effect at once. */
  lemma SignalTakesEffect(gs: Gs, w: MaskedWrite)
    requires !gs.csrSignal
    ensures var (g, stall) := HandleWrite(gs, 0x60, w);
            && !stall && g.csrSignal && g.queued == gs.queued
            && g.sigId == (gs.sigId - w.mask) + (w.data * w.mask) && Merged(g.sigId, gs.sigId, w)
            && g.irqs == gs.irqs + (if gs.sigMasked then 0 else 1) && g.signals == gs.signals + [w]
            && g == gs.(sigId := g.sigId, irqs := g.irqs, csrSignal := true, signals := g.signals)
  {
  }

  /** With it set, and none stalled, the write is put aside as it is and stalls the GIF. */
  lemma SignalStalls(gs: Gs, w: MaskedWrite)
    requires gs.csrSignal && !gs.queued
    ensures var (g, stall) := HandleWrite(gs, 0x60, w);
            && stall && g.queued && g.queue == w && g.signals == gs.signals + [w]
            && g == gs.(queued := true, queue := w, signals := g.signals)
  {
  }

  /** FINISH is only marked; LABEL is written at once; no other register matters here. */
  lemma OthersTakeEffect(gs: Gs, reg: nat, w: MaskedWrite)
    requires reg != 0x60
    ensures var (g, stall) := HandleWrite(gs, reg, w);
            && !stall
            && (reg == 0x61 ==> g == gs.(finishFired := false, finishPending := true))
            && (reg == 0x62 ==> Merged(g.lblId, gs.lblId, w) && g == gs.(lblId := g.lblId))
            && (reg != 0x61 && reg != 0x62 ==> g == gs)
  {
    if reg == 0x62 {
      hide HandleFinish;
    }
  }

  /** An acknowledge lets the stalled write take effect, as the first one would have, or clears the bit. */
  lemma AckTakesEffect(gs: Gs)
    ensures var g := SignalAck(gs);
            if gs.queued then
              && Merged(g.sigId, gs.sigId, gs.queue) && g.csrSignal && !g.queued
              && g.irqs == gs.irqs + (if gs.sigMasked then 0 else 1)
              && g == gs.(sigId := g.sigId, irqs := g.irqs, csrSignal := true, queued := false)
            else g == gs.(csrSignal := false)
  {
  }

  /** Acknowledging FINISH clears its bit, and lets a later one raise an interrupt again. */
  lemma FinishAckTakesEffect(gs: Gs)
    ensures var g := FinishAck(gs);
            && !g.csrFinish && !g.finishPending && !g.finishFired
            && g == gs.(csrFinish := false, finishPending := false, finishFired := false)
            && FinishIrq(g) == g
            && (!gs.finishMasked ==> FinishIrq(HandleFinish(g)).irqs == gs.irqs + 1)
  {
  }

  /** A pending FINISH shows in CSR and raises one interrupt, unless masked, until it is acknowledged or
      another is written: raising it again changes nothing. */
  lemma FinishRaisesOnce(gs: Gs)
    ensures var g := FinishIrq(gs);
            && (g.csrFinish <==> gs.csrFinish || gs.finishPending) && !g.finishPending
            && g.irqs == gs.irqs + (if g.csrFinish && !gs.finishMasked && !gs.finishFired then 1 else 0)
            && (g.finishFired <==> gs.finishFired || (g.csrFinish && !gs.finishMasked))
            && FinishIrq(g) == g
            && g == gs.(csrFinish := g.csrFinish, finishPending := false, irqs := g.irqs, finishFired := g.finishFired)
  {
  }
}
