/** DMA channels started while the controller is disabled or suspended: their starts are queued and
    made when it is enabled and released again. */
module DeferredDma {

  const CHANNELS: nat := 10

  /** CHCR as far as a start looks at it. */
  datatype Channel = Channel(str: bool, mod: nat)

  class DmaController {
    const chcr: array<Channel>
    const qwc: array<nat>
    const queued: array<bool>
    /** DMAC_CTRL.DMAE, and the suspend byte of DMAC_ENABLER. */
    var dmae: bool
    var suspend: nat

    /** Per channel: starts accepted, handlers run, queued starts cancelled by a force stop. */
    ghost var accepted: seq<nat>
    ghost var ran: seq<nat>
    ghost var cancelled: seq<nat>

    ghost predicate Shape()
      reads this`accepted, this`ran, this`cancelled
    {
      && chcr.Length == qwc.Length == queued.Length == CHANNELS
      && |accepted| == |ran| == |cancelled| == CHANNELS
    }

    ghost predicate ChannelOk(ch: nat)
      requires Shape() && ch < CHANNELS
      reads chcr, queued, this`accepted, this`ran, this`cancelled
    {
      && (queued[ch] ==> chcr[ch].str)
      && accepted[ch] == ran[ch] + cancelled[ch] + (if queued[ch] then 1 else 0)
    }

    /** A queued start is still wanted, and every accepted start has been run once, or cancelled, or
        is still queued. */
    ghost predicate Valid()
      reads this, chcr, qwc, queued
    {
      && Shape() && suspend < 256
      && forall ch | 0 <= ch < CHANNELS :: ChannelOk(ch)
    }

    /** May handlers run now? */
    predicate Open()
      reads this
    {
      dmae && suspend == 0
    }

    ghost predicate NoneQueued()
      reads queued
    {
      forall ch | 0 <= ch < queued.Length :: !queued[ch]
    }

    constructor ()
      ensures Valid() && NoneQueued() && !dmae && suspend == 0 && forall ch | 0 <= ch < CHANNELS :: !chcr[ch].str
      ensures fresh(chcr) && fresh(qwc) && fresh(queued)
    {
      chcr := new Channel[CHANNELS](_ => Channel(false, 0));
      qwc := new nat[CHANNELS](_ => 0);
      queued := new bool[CHANNELS](_ => false);
      dmae, suspend := false, 0;
      accepted := seq(CHANNELS, _ => 0);
      ran, cancelled := accepted, accepted;
    }

    /** The channel's handler. It may complete the transfer at once. */
    method Handler(ch: nat)
      requires Shape() && ch < CHANNELS && chcr[ch].str
      modifies chcr, this`ran
      ensures ran == old(ran)[ch := old(ran)[ch] + 1] && chcr[ch].mod == old(chcr[ch].mod)
      ensures forall k | 0 <= k < CHANNELS && k != ch :: chcr[k] == old(chcr[k])
    {
      ran := ran[ch := ran[ch] + 1];
      if * {
        chcr[ch] := chcr[ch].(str := false);
      }
    }

    /** True if the handler was run. */
    method QuickDmaExec(ch: nat) returns (done: bool)
      requires Shape() && ch < CHANNELS
      modifies chcr, this`ran
      ensures done == (old(chcr[ch].str) && Open())
      ensures ran == if done then old(ran)[ch := old(ran)[ch] + 1] else old(ran)
      ensures !done ==> chcr[ch] == old(chcr[ch])
      ensures forall k | 0 <= k < CHANNELS && k != ch :: chcr[k] == old(chcr[k])
    {
      done := false;
      if chcr[ch].str && dmae && suspend == 0 {
        Handler(ch);
        done := true;
      }
    }

    /** Tries every queued start, channel by channel. */
    method StartQueuedDMA()
      requires Valid()
      modifies chcr, this`ran, queued
      ensures Valid()
      ensures if Open() then NoneQueued() else queued[..] == old(queued[..])
      ensures Open() ==> forall ch | 0 <= ch < CHANNELS :: ran[ch] == old(ran)[ch] + (if old(queued[ch]) then 1 else 0)
      ensures !Open() ==> ran == old(ran) && chcr[..] == old(chcr[..])
    {
      for ch := 0 to CHANNELS
        invariant Valid()
        invariant forall k | ch <= k < CHANNELS ::
          queued[k] == old(queued[k]) && ran[k] == old(ran)[k] && chcr[k] == old(chcr[k])
        invariant forall k | 0 <= k < ch ::
          if Open() then !queued[k] && ran[k] == old(ran)[k] + (if old(queued[k]) then 1 else 0)
          else queued[k] == old(queued[k]) && ran[k] == old(ran)[k] && chcr[k] == old(chcr[k])
      {
        label Before:
        assert ChannelOk(ch);
        if queued[ch] {
          var done := QuickDmaExec(ch);
          queued[ch] := !done;
        }
        forall k | 0 <= k < CHANNELS ensures ChannelOk(k) {
          assert old@Before(ChannelOk(k));
        }
      }
    }
  
    // ---- Register writes ----

    /** A write of an active channel's CHCR: all it can do is stop the channel. */
    method ForceStop(ch: nat)
      requires Valid() && ch < CHANNELS && chcr[ch].str
      modifies chcr, queued, this`cancelled
      ensures Valid()
      ensures forall k | 0 <= k < CHANNELS && k != ch ::
        chcr[k] == old(chcr[k]) && queued[k] == old(queued[k]) && accepted[k] == old(accepted[k])
          && ran[k] == old(ran[k])
      ensures chcr[ch] == old(chcr[ch]).(str := false) && !queued[ch]
    {
      assert ChannelOk(ch);
      label Before:
      chcr[ch] := chcr[ch].(str := false);
      if queued[ch] {
        cancelled := cancelled[ch := cancelled[ch] + 1];
      }
      queued[ch] := false;
      forall k | 0 <= k < CHANNELS ensures ChannelOk(k) {
        assert old@Before(ChannelOk(k));
      }
    }

    /** A channel that has just been started: its handler runs, or the start is queued. */
    method Begin(ch: nat)
      requires Shape() && suspend < 256 && ch < CHANNELS && chcr[ch].str && !queued[ch]
      requires accepted[ch] == ran[ch] + cancelled[ch]
      requires forall k | 0 <= k < CHANNELS && k != ch :: ChannelOk(k)
      modifies chcr, queued, this`accepted, this`ran
      ensures Valid()
      ensures forall k | 0 <= k < CHANNELS && k != ch ::
        chcr[k] == old(chcr[k]) && queued[k] == old(queued[k]) && accepted[k] == old(accepted[k])
          && ran[k] == old(ran[k])
      ensures chcr[ch].mod == old(chcr[ch].mod) && accepted[ch] == old(accepted[ch]) + 1
      ensures queued[ch] == !Open() && ran[ch] == old(ran[ch]) + (if Open() then 1 else 0)
    {
      accepted := accepted[ch := accepted[ch] + 1];
      if dmae && suspend == 0 {
        Handler(ch);
      } else {
        queued[ch] := true;
      }
      forall k | 0 <= k < CHANNELS ensures ChannelOk(k) {
        assert k != ch ==> old(ChannelOk(k));
      }
    }

    /** A write to a channel's CHCR. While the channel is active only its STR bit can be written. */
    method WriteChcr(ch: nat, value: Channel)
      requires Valid() && ch < CHANNELS
      modifies chcr, qwc, queued, this`accepted, this`ran, this`cancelled
      ensures Valid()
      ensures forall k | 0 <= k < CHANNELS && k != ch ::
        chcr[k] == old(chcr[k]) && queued[k] == old(queued[k]) && accepted[k] == old(accepted[k])
          && ran[k] == old(ran[k])
      ensures !old(chcr[ch].str) && value.str ==>
        accepted[ch] == old(accepted[ch]) + 1 && queued[ch] == !Open()
          && ran[ch] == old(ran[ch]) + (if Open() then 1 else 0)
      ensures old(chcr[ch].str) && !value.str ==>
        !chcr[ch].str && !queued[ch] && ran == old(ran) && accepted == old(accepted)
      ensures old(chcr[ch].str) == value.str ==>
        queued[ch] == old(queued[ch]) && ran == old(ran) && accepted == old(accepted)
      ensures chcr[ch].mod == if old(chcr[ch].str) then old(chcr[ch].mod) else if value.mod == 3 then 1 else value.mod
      ensures qwc[ch] ==
        if !old(chcr[ch].str) && value == Channel(true, 0) && old(qwc[ch]) == 0 then 0x1_0000 else old(qwc[ch])
      ensures old(Open() ==> NoneQueued()) ==> Open() ==> NoneQueued()
    {
      hide ChannelOk;
      ChannelHolds(ch);
      if chcr[ch].str {
        if !value.str {
          ForceStop(ch);
        }
      } else {
        label Before:
        chcr[ch] := if value.mod == 3 then value.(mod := 1) else value;
        OthersHold@Before(ch);
        if chcr[ch].str {
          if chcr[ch].mod == 0 && qwc[ch] == 0 {
            qwc[ch] := 0x1_0000;
          }
          Begin(ch);
        } else {
          IdleHolds(ch);
        }
      }
    }

    lemma ChannelHolds(ch: nat)
      requires Valid() && ch < CHANNELS
      ensures (queued[ch] ==> chcr[ch].str) && accepted[ch] == ran[ch] + cancelled[ch] + (if queued[ch] then 1 else 0)
    {
      assert ChannelOk(ch);
    }

    lemma IdleHolds(ch: nat)
      requires Shape() && suspend < 256 && ch < CHANNELS && !queued[ch] && accepted[ch] == ran[ch] + cancelled[ch]
      requires forall k | 0 <= k < CHANNELS && k != ch :: ChannelOk(k)
      ensures Valid()
    {
    }

    twostate lemma OthersHold(ch: nat)
      requires old(Valid()) && Shape() && ch < CHANNELS && unchanged(queued) && unchanged(this)
      requires forall k | 0 <= k < CHANNELS && k != ch :: chcr[k] == old(chcr[k])
      ensures forall k | 0 <= k < CHANNELS && k != ch :: ChannelOk(k)
    {
      forall k | 0 <= k < CHANNELS && k != ch ensures ChannelOk(k) {
        assert old(ChannelOk(k));
      }
    }

    /** A write to DMAC_CTRL. Enabling the controller makes the queued starts unless it is suspended. */
    method WriteCtrl(enable: bool)
      requires Valid()
      modifies this`dmae, chcr, this`ran, queued
      ensures Valid() && dmae == enable
      ensures old(Open() ==> NoneQueued()) ==> Open() ==> NoneQueued()
      ensures forall ch | 0 <= ch < CHANNELS && old(queued[ch]) && !queued[ch] :: ran[ch] == old(ran)[ch] + 1
      ensures !Open() || old(dmae) ==> queued[..] == old(queued[..]) && chcr[..] == old(chcr[..]) && ran == old(ran)
    {
      var was := dmae;
      dmae := enable;
      assert forall ch | 0 <= ch < CHANNELS :: old(ChannelOk(ch)) ==> ChannelOk(ch);
      if !was && enable {
        StartQueuedDMA();
      }
    }

    /** A write to the suspend byte of DMAC_ENABLEW. The restart looks at bit 0 only, the check whether
        a handler may run at the whole byte: no start is left behind exactly if bit 0 was set before,
        or nothing was queued. */
    method WriteEnable(value: nat)
      requires Valid() && value < 256
      modifies this`suspend, chcr, this`ran, queued
      ensures Valid() && suspend == value
      ensures Open() ==> (NoneQueued() <==> old(NoneQueued()) || old(suspend) % 2 == 1)
      ensures forall ch | 0 <= ch < CHANNELS && old(queued[ch]) && !queued[ch] :: ran[ch] == old(ran)[ch] + 1
      ensures !(old(suspend) % 2 == 1 && value % 2 == 0) ==>
        queued[..] == old(queued[..]) && chcr[..] == old(chcr[..]) && ran == old(ran)
    {
      var was := suspend;
      suspend := value;
      assert forall ch | 0 <= ch < CHANNELS :: old(ChannelOk(ch)) ==> ChannelOk(ch);
      if was % 2 == 1 && value % 2 == 0 {
        StartQueuedDMA();
      }
    }

    /** A running transfer ends. */
    method Complete(ch: nat)
      requires Valid() && ch < CHANNELS && chcr[ch].str && !queued[ch]
      modifies chcr
      ensures Valid() && !chcr[ch].str
    {
      chcr[ch] := chcr[ch].(str := false);
      forall k | 0 <= k < CHANNELS ensures ChannelOk(k) {
        assert old(ChannelOk(k));
      }
    }
  }

  /** A channel is started and bit 1 of the suspend byte is set; the controller is then enabled and the
      byte cleared, and the start is still queued. */
  method StrandedStart() returns (dma: DmaController)
    ensures dma.Valid() && dma.Open() && dma.queued[0] && dma.chcr[0].str
  {
    dma := new DmaController();
    dma.WriteChcr(0, Channel(true, 1));
    dma.WriteEnable(2);
    ghost var queued := dma.queued[..];
    assert queued[0];
    dma.WriteCtrl(true);
    assert dma.queued[..][0];
    dma.WriteEnable(0);
    assert dma.queued[..][0];
    assert dma.ChannelOk(0);
  }

  datatype Op = Chcr(ch: nat, str: bool, mod: nat) | Ctrl(enable: bool) | Suspend(on: bool) | Completes(ch: nat)

  /** With only bit 0 of the suspend byte used, over every run: while the controller is enabled and
      not suspended nothing is left queued, a queued start is still wanted, and every accepted start
      has been run exactly once, or was cancelled, or is still queued. */
  method Run(dma: DmaController, ops: seq<Op>)
    requires dma.Valid() && dma.suspend <= 1 && (dma.Open() ==> dma.NoneQueued())
    modifies dma, dma.chcr, dma.qwc, dma.queued
    ensures dma.Valid() && dma.suspend <= 1 && (dma.Open() ==> dma.NoneQueued())
  {
    for i := 0 to |ops|
      invariant dma.Valid() && dma.suspend <= 1 && (dma.Open() ==> dma.NoneQueued())
    {
      match ops[i] {
        case Chcr(ch, str, mod) =>
          if ch < CHANNELS { dma.WriteChcr(ch, Channel(str, mod)); }
        case Ctrl(enable) => dma.WriteCtrl(enable);
        case Suspend(on) => dma.WriteEnable(if on then 1 else 0);
        case Completes(ch) =>
          if ch < CHANNELS && dma.chcr[ch].str && !dma.queued[ch] { dma.Complete(ch); }
      }
    }
  }
}
