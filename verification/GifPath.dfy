/** One of the three GIF paths: its packet buffer, its parser, and the GS thread that reads behind it. */
module GifPaths {
  import opened Basics
  import opened GifTags
  import opened GsSignals
  import opened GifParser
  import opened GifLayout
  import opened GifSoftReset
  import opened GifResetHazard

  class GifPath {
    const buffer: array<byte>
    const buffLimit: nat
    var curSize: nat
    var curOffset: nat
    var dmaRewind: nat
    var tag: Tag
    var state: PathState
    var packOffset: nat
    var packSize: nat
    var readAmount: int
    /** Submitted and not yet read by the GS thread, oldest first. */
    var ring: seq<Entry>

    /** How many of them lie before the last wrap. */
    ghost var back: nat
    /** Size of a completed packet that has not been submitted yet. */
    ghost var held: nat
    /** Every byte transferred to this path, less what was handed back to the DMA. */
    ghost var sent: seq<byte>
    /** Every byte the GS thread has read. */
    ghost var delivered: seq<byte>

    ghost function P(): Parser
      reads this
    {
      Parser(tag, state, packSize)
    }

    ghost predicate Bounds()
      reads this
    {
      && held <= packOffset && packOffset + packSize == curOffset <= curSize <= buffer.Length
      && buffLimit < buffer.Length
    }

    ghost function Unparsed(): seq<byte>
      reads this, buffer
    {
      if curOffset <= curSize <= buffer.Length then buffer[curOffset..curSize] else []
    }

    /** `held` is zero except between completing a packet and submitting it. */
    ghost predicate Valid()
      reads this, buffer
    {
      && Bounds()
      && readAmount == Total(ring)
      && Stream(buffer[..], ring, back, packOffset - held, curSize, buffLimit, delivered, sent)
    }

    /** A packet that has begun lies before the limit: one whose first tag is past it is moved first. */
    ghost predicate Begun()
      reads this
    {
      packSize > 0 || tag.isValid ==> packOffset <= buffLimit
    }

    ghost predicate Resting()
      reads this, buffer
    {
      Valid() && held == 0 && P().Ok() && Running(P()) && Begun()
    }

    ghost function Here(): Place
      requires Bounds()
      reads this
    {
      Place(ring, packOffset - held, curSize)
    }

    lemma NothingPending(q: seq<Entry>)
      ensures q == [] ==> Total(q) == 0
    {
    }

    constructor (buffSize: nat, safeZone: nat)
      requires 0 < safeZone <= buffSize
      ensures Resting() && fresh(buffer) && P() == FRESH && sent == [] && ring == []
      ensures Bounds() && curSize == 0 && Unparsed() == []
      ensures buffer.Length == buffSize && buffLimit == buffSize - safeZone
    {
      buffer := new byte[buffSize];
      buffLimit := buffSize - safeZone;
      curSize, curOffset, dmaRewind := 0, 0, 0;
      tag, state, packOffset, packSize := NULL_TAG, Idle, 0, 0;
      readAmount, ring, back, held, sent, delivered := 0, [], 0, 0, [], [];
      new;
      StreamEmpty(buffer[..], buffLimit);
      hide Stream;
    }

    predicate HasDataRemaining()
      reads this
    {
      curOffset < curSize
    }

    predicate IsDone()
      reads this
    {
      !HasDataRemaining() && (state == Idle || state == Wait)
    }

    /** Data, parser and stream are as they were; what is submitted may differ. */
    twostate predicate KeepsData()
      reads this, buffer
    {
      && Unparsed() == old(Unparsed()) && tag == old(tag) && state == old(state) && IsDone() == old(IsDone())
      && sent == old(sent) && dmaRewind == old(dmaRewind)
    }

    /** The GS thread never gets ahead of, or astray from, what was sent; and when it has caught up
        with a path that holds no more data, it has been given all of it. */
    lemma DeliveredIsPrefix()
      requires Valid()
      ensures delivered <= sent
      ensures ring == [] && held == packSize == 0 && curOffset == curSize ==> delivered == sent
    {
      hide Layout;
      var rest := Pending(buffer[..], ring) + buffer[packOffset - held..curSize];
      assert delivered + rest == sent;
    }

    /** The packet being built is no longer than all that was sent. */
    lemma ShortPacket()
      requires Valid()
      ensures curSize - packOffset <= |sent|
    {
      hide Layout, Pending, Total;
    }

    /** The GS thread finishes the oldest packet: it has read the bytes that are in the buffer now. */
    method ConsumeOne()
      requires Valid() && ring != []
      modifies this`ring, this`readAmount, this`back, this`delivered
      ensures Valid() && ring == old(ring[1..])
      ensures delivered == old(delivered) + Contents(buffer[..], old(ring[0]))
      ensures Leads(old(Here()), Pop, Here(), Geometry(0))
    {
      hide Stream, Contents;
      StreamPop(buffer[..], ring, back, packOffset - held, curSize, buffLimit, delivered, sent);
      delivered := delivered + Contents(buffer[..], ring[0]);
      readAmount := readAmount - ring[0].size;
      back := if back == 0 then 0 else back - 1;
      ring := ring[1..];
    }

    /** Waiting lets the GS thread finish one or more packets, if it has any. */
    method MtgsReadWait()
      requires Valid()
      modifies this`ring, this`readAmount, this`back, this`delivered
      ensures Valid() && (old(ring) != [] ==> |ring| < |old(ring)|)
    {
      if ring != [] {
        var n :| 1 <= n <= |ring|;
        while n > 0
          invariant Valid() && n <= |ring| <= |old(ring)|
          invariant |ring| < |old(ring)| || n > 0
        {
          ConsumeOne();
          n := n - 1;
        }
      }
    }

    /** Waits until the GS thread has left `need` bytes free in front of `offset`. */
    method WaitForFrontFree(offset: nat, need: nat)
      requires Valid() && need <= offset
      modifies this`ring, this`readAmount, this`back, this`delivered
      ensures Valid() && offset - readAmount >= need
    {
      while true
        invariant Valid()
        decreases |ring|
      {
        var frontFree := offset - readAmount;
        if frontFree >= need {
          break;
        }
        NothingPending(ring);
        MtgsReadWait();
      }
    }

    /** Moves the current packet to the start of the buffer. */
    method RealignPacket()
      requires Valid() && held == 0
      modifies this`curSize, this`curOffset, this`packOffset, this`ring, this`readAmount, this`back, this`delivered,
               buffer
      ensures Valid() && packOffset == 0
      ensures curSize == old(curSize - packOffset) && Unparsed() == old(Unparsed())
    {
      hide Stream, Total;
      var offset := curOffset - packSize;
      var sizeToAdd := curSize - offset;
      var intersect := sizeToAdd - offset;
      if intersect < 0 {
        intersect := 0;
      }
      WaitForFrontFree(offset, sizeToAdd - intersect);
      ghost var q := ring;
      if offset < buffLimit {
        AddBlankPacket(buffLimit - offset);
        TotalAppend(q, Blank(buffLimit - offset));
      }
      MovePacket(q);
    }

    method MovePacket(ghost q: seq<Entry>)
      requires Bounds() && held == 0 && ring == Realigned(q, packOffset, buffLimit)
      requires Stream(buffer[..], q, back, packOffset, curSize, buffLimit, delivered, sent)
      requires MovePasses(packOffset, curSize, Total(q))
      modifies this`curSize, this`curOffset, this`packOffset, this`back, buffer
      ensures Bounds() && packOffset == 0
      ensures forall most :: MoveAsked(Place(q, old(packOffset), old(curSize)), Geometry(most)) ==>
                               Leads(Place(q, old(packOffset), old(curSize)), Move, Here(), Geometry(most))
      ensures Stream(buffer[..], ring, back, 0, curSize, buffLimit, delivered, sent)
      ensures curSize == old(curSize - packOffset) && Unparsed() == old(Unparsed())
    {
      hide Stream, Total, Realigned;
      ghost var was := buffer[..];
      var n := curSize - packOffset;
      MoveToFront(packOffset, n);
      StreamRealign(was, buffer[..], q, back, packOffset, curSize, buffLimit, delivered, sent);
      assert buffer[packSize..n] == was[curOffset..curSize];
      curSize := n;
      curOffset := packSize;
      packOffset := 0;
      back := |ring|;
    }

    method MoveToFront(offset: nat, n: nat)
      requires offset + n <= buffer.Length
      modifies buffer
      ensures buffer[..] == old(buffer[offset..offset + n]) + old(buffer[n..])
    {
      forall i | 0 <= i < n {
        buffer[i] := buffer[offset + i];
      }
    }

    method AddBlankPacket(size: nat)
      modifies this`ring, this`readAmount
      ensures ring == old(ring) + [Blank(size)] && readAmount == old(readAmount) + size
    {
      readAmount := readAmount + size;
      ring := ring + [Blank(size)];
    }
  
    /** Appends data to the current packet. The buffer must be able to hold both, which the source
        asserts. */
    method CopyGSPacketData(data: seq<byte>)
      requires Valid() && held == 0
      requires curSize - packOffset + |data| <= buffer.Length
      modifies this`curSize, this`curOffset, this`packOffset, this`ring, this`readAmount, this`back,
               this`delivered, this`sent, buffer
      ensures Valid() && sent == old(sent) + data && Unparsed() == old(Unparsed()) + data
      ensures packOffset <= old(packOffset)
      // with room behind the data and nothing unread ahead, it only appends
      ensures old(curSize + |data| <= buffer.Length && readAmount <= packOffset) ==>
        ring == old(ring) && packOffset == old(packOffset) && curSize == old(curSize) + |data|
    {
      if curSize + |data| > buffer.Length {
        RealignPacket();
      }
      WaitForRoom(|data|);
      AppendBytes(data);
    }

    /** Waits until `size` bytes after curSize are clear of unread data. */
    method WaitForRoom(size: nat)
      requires Valid() && held == 0
      modifies this`ring, this`readAmount, this`back, this`delivered
      ensures Valid()
      ensures CopyPasses(packOffset, curSize, readAmount, buffLimit, size)
      ensures packOffset - old(readAmount) >= 0 ==> ring == old(ring)
    {
      while true
        invariant Valid() && (packOffset - old(readAmount) >= 0 ==> ring == old(ring) && readAmount == old(readAmount))
        decreases |ring|
      {
        var offset := curOffset - packSize;
        var readPos := offset - readAmount;
        if readPos >= 0 {
          break;
        }
        if buffLimit + readPos > curSize + size {
          break;
        }
        NothingPending(ring);
        MtgsReadWait();
      }
    }

    method AppendBytes(data: seq<byte>)
      requires Valid() && held == 0 && curSize + |data| <= buffer.Length
      requires CopyPasses(packOffset, curSize, readAmount, buffLimit, |data|)
      modifies this`curSize, this`sent, buffer
      ensures Valid() && sent == old(sent) + data && Unparsed() == old(Unparsed()) + data
      ensures |data| > 0 && Whole(|data|) ==> Leads(old(Here()), Copy(|data|), Here(), Geometry(|data|))
    {
      hide Stream, Total;
      ghost var was := buffer[..];
      forall i | 0 <= i < |data| {
        buffer[curSize + i] := data[i];
      }
      assert buffer[..] == was[..curSize] + data + was[curSize + |data|..];
      StreamCopy(was, buffer[..], ring, back, packOffset, curSize, buffLimit, delivered, sent, data);
      assert buffer[curOffset..curSize + |data|] == was[curOffset..curSize] + data;
      curSize := curSize + |data|;
      sent := sent + data;
    }

    /** Hands over the packet [offset, offset + size) that was completed last. */
    method AddCompletedGSPacket(offset: nat, size: nat)
      requires Valid() && size > 0
      requires size == held && offset == packOffset - held <= buffLimit
      modifies this`readAmount, this`ring, this`held
      ensures Valid() && held == 0 && ring == old(ring) + [Data(offset, size)]
      ensures Whole(size) ==> Leads(old(Here()), Submit(size), Here(), Geometry(0))
    {
      hide Stream, Total;
      StreamSubmit(buffer[..], ring, back, packOffset - held, curSize, buffLimit, delivered, sent, size);
      TotalAppend(ring, Data(offset, size));
      readAmount := readAmount + size;
      ring := ring + [Data(offset, size)];
      held := 0;
    }

    /** Hands over what has been parsed of the current packet, without waiting for its EOP. */
    method FlushPacket()
      requires Resting() && packSize > 0 && !tag.isValid
      modifies this`readAmount, this`ring, this`held, this`packOffset, this`packSize
      ensures Resting() && Unparsed() == old(Unparsed()) && packSize == 0
    {
      hide Stream, Total;
      var offset, size := packOffset, packSize;
      held := packSize;
      packOffset, packSize := curOffset, 0;
      AddCompletedGSPacket(offset, size);
    }

    // ---- The packet parser ----

    /** Nothing has moved in the buffer and the reader has not been waited for. */
    twostate predicate InPlace()
      reads this`ring, this`readAmount, this`packOffset, this`curSize, buffer
    {
      && ring == old(ring) && readAmount == old(readAmount) && packOffset == old(packOffset)
      && curSize == old(curSize) && buffer[..] == old(buffer[..])
    }

    /** 16 bytes of the buffer at curOffset. */
    function Quadword(): (qw: seq<byte>)
      requires curOffset + 16 <= curSize <= buffer.Length
      reads this, buffer
      ensures |qw| == 16
    {
      buffer[curOffset..curOffset + 16]
    }

    /** Moves past data that has been dealt with. */
    method IncTag(n: nat)
      requires Valid() && n <= curSize - curOffset
      modifies this`curOffset, this`packSize
      ensures Valid() && P() == old(P()).(size := old(packSize) + n)
      ensures Unparsed() == old(Unparsed())[n..]
    {
      hide Stream, Total;
      packSize := packSize + n;
      curOffset := curOffset + n;
    }

    /** Reads the tag at curOffset. False: there is not enough data for it yet. */
    method FetchTag(ghost gs: Gs) returns (ok: bool)
      requires Resting() && !tag.isValid
      modifies this`curSize, this`curOffset, this`packOffset, this`packSize, this`ring, this`readAmount, this`back,
               this`delivered, this`tag, this`state, buffer
      ensures Valid() && held == 0 && Begun() && (ok ==> packOffset <= buffLimit)
      ensures Fetched(old(P()), gs, old(Unparsed()), P(), Unparsed(), ok)
      ensures old(curOffset) <= buffLimit ==> InPlace()
    {
      hide Stream, Total, Exec, SetTag, Fetched, Running;
      ghost var p, u := P(), Unparsed();
      if curOffset + 16 > curSize {
        StarvedExec(p, gs, u);
        return false;
      }
      if curOffset > buffLimit {
        RealignPacket();
      }
      ok := ReadTag(gs);
    }

    /** The tag is there; false: its data is not, so it will be read again. */
    method ReadTag(ghost gs: Gs) returns (ok: bool)
      requires Resting() && !tag.isValid && curOffset + 16 <= curSize && packOffset <= buffLimit
      modifies this`curOffset, this`packSize, this`tag, this`state
      ensures Valid() && held == 0
      ensures Fetched(old(P()), gs, old(Unparsed()), P(), Unparsed(), ok)
    {
      hide Stream, Total, Exec, SetTag, Fetched, Running;
      ghost var p, u := P(), Unparsed();
      assert Quadword() == u[..16];
      TagFetched(p, gs, u);
      tag := SetTag(tag, Quadword());
      state := StateOf(tag.flg);
      if !tag.hasAD && curOffset + 16 + tag.len > curSize {
        tag := tag.(isValid := false);
        return false;
      }
      IncTag(16);
      return true;
    }

    lemma StarvedExec(p: Parser, gs: Gs, u: seq<byte>)
      requires Running(p) && p.Ok() && |u| < 16 && (!p.tag.isValid || p.tag.nLoop > 0)
      ensures Fetched(p, gs, u, p, u, false)
    {
    }
  
    /** One quadword of a tag with A+D writes. */
    method StepAD(gs: Gs) returns (gs': Gs, stall: bool)
      requires Valid() && held == 0 && |tag.regs| == 16 && 16 <= curSize - curOffset
      modifies this`curOffset, this`packSize, this`tag
      ensures Valid() && Unparsed() == old(Unparsed())[16..]
      ensures P() == old(P()).(tag := PackedStep(old(tag)), size := old(packSize) + 16)
      ensures (gs', stall) == AdStep(old(tag), gs, old(Unparsed())[..16])
    {
      hide Stream, Total, AdStep, PackedStep;
      assert Quadword() == Unparsed()[..16];
      var step := AdStep(tag, gs, Quadword());
      gs', stall := step.0, step.1;
      IncTag(16);
      tag := PackedStep(tag);
    }

    /** One more quadword of that walk. */
    method StepOn(ghost p: Parser, ghost gs0: Gs, ghost u: seq<byte>, gs: Gs, ghost used: nat)
      returns (gs': Gs, stall: bool)
      requires Valid() && held == 0 && Running(p) && Reached(p, gs0, u, P(), gs, Unparsed(), used, false)
      requires tag.nLoop > 0 && 16 <= curSize - curOffset
      modifies this`curOffset, this`packSize, this`tag
      ensures Valid() && Reached(p, gs0, u, P(), gs', Unparsed(), used + 16, stall) && |Unparsed()| < |old(Unparsed())|
    {
      hide Stream, Total, Exec, EndOf, AdStep, PackedStep, Running, Reached;
      ReachedStep(p, gs0, u, P(), gs, Unparsed(), used);
      ReachedRegs(p, gs0, u, P(), gs, Unparsed(), used);
      gs', stall := StepAD(gs);
    }

    /** Walks the quadwords of a tag with A+D writes until they are done, a SIGNAL stalls, or the
        data runs out. */
    method WalkAD(gs0: Gs) returns (gs: Gs, stall: bool, ghost used: nat)
      requires Valid() && held == 0 && Running(P()) && tag.isValid
      modifies this`curOffset, this`packSize, this`tag
      ensures Valid() && Reached(old(P()), gs0, old(Unparsed()), P(), gs, Unparsed(), used, stall)
      ensures tag.nLoop == 0 || stall || |Unparsed()| < 16
    {
      hide Stream, Total, Exec, EndOf, AdStep, PackedStep, StepsLeft;
      ghost var p, u := P(), Unparsed();
      gs, stall, used := gs0, false, 0;
      ReachedStart(p, gs0, u);
      hide Running;
      while tag.nLoop > 0 && !stall
        invariant Valid() && held == 0
        invariant Reached(p, gs0, u, P(), gs, Unparsed(), used, stall)
        decreases |Unparsed()|
      {
        if curOffset + 16 > curSize {
          break;
        }
        hide Reached;
        gs, stall := StepOn(p, gs0, u, gs, used);
        used := used + 16;
      }
    }

    lemma ReachedStart(p: Parser, gs0: Gs, data: seq<byte>)
      requires Running(p) && p.tag.isValid
      ensures Reached(p, gs0, data, p, gs0, data, 0, false)
    {
      hide Exec;
    }

    lemma ReachedRegs(p: Parser, gs0: Gs, data: seq<byte>, q: Parser, gs: Gs, rest: seq<byte>, used: nat)
      requires Running(p) && Reached(p, gs0, data, q, gs, rest, used, false)
      ensures |q.tag.regs| == 16
    {
    }

    /** Consumes the quadwords of a tag with A+D writes, as far as there are any. An ending other
        than None: the call stops here, out of data or on a stalling SIGNAL. */
    method ConsumeAD(gs0: Gs) returns (gs: Gs, ending: Option<Ending>, ghost used: nat)
      requires Valid() && held == 0 && Running(P()) && tag.isValid
      modifies this`curOffset, this`packSize, this`tag
      ensures Valid() && used <= |old(Unparsed())| && Unparsed() == old(Unparsed())[used..]
      ensures Running(P()) && (ending.Some? ==> P().Ok())
      ensures ending != Some(Done)
      ensures var e := Exec(old(P()), gs0, old(Unparsed()));
              match ending
              case Some(why) => e == Outcome(P(), gs, used, why)
              case None => e == After(used, EndOf(P(), gs, Unparsed()))
    {
      hide Stream, Total, Exec, EndOf;
      ghost var p, u := P(), Unparsed();
      var stall;
      gs, stall, used := WalkAD(gs0);
      if stall && !(tag.eop && tag.nLoop == 0) {
        ReachedStall(p, gs0, u, P(), gs, Unparsed(), used);
        ending := Some(Stalled);
      } else if tag.nLoop > 0 {
        ReachedStarved(p, gs0, u, P(), gs, Unparsed(), used);
        ending := Some(Starved);
      } else {
        ReachedEnd(p, gs0, u, P(), gs, Unparsed(), used, stall);
        ending := None;
      }
    }

    /** Deals with the data of a tag that has been read: None means the call goes on. */
    method ConsumeData(gs0: Gs) returns (gs: Gs, ending: Option<Ending>, ghost used: nat)
      requires Valid() && held == 0 && AtData(P(), Unparsed()) && packOffset <= buffLimit
      modifies this`curOffset, this`packSize, this`tag
      ensures Resting() && used <= |old(Unparsed())| && Unparsed() == old(Unparsed())[used..]
      ensures ending == None ==> !tag.isValid
      ensures var e := DataExec(old(P()), gs0, old(Unparsed()));
              match ending
              case Some(why) => e == Outcome(P(), gs, used, why)
              case None => e == After(used, Exec(P(), gs, Unparsed()))
    {
      hide Stream, Total, Exec, EndOf;
      if tag.hasAD {
        gs, ending, used := ConsumeAD(gs0);
      } else {
        gs, ending, used := gs0, None, tag.len;
        IncTag(tag.len);
      }
      if ending == None {
        ending := CloseTag(gs);
      }
    }

    /** Reload a tag next time; at an EOP the packet is complete. */
    method CloseTag(ghost gs: Gs) returns (ending: Option<Ending>)
      requires Valid() && held == 0 && Running(P().(tag := tag.(isValid := false))) && packOffset <= buffLimit
      modifies this`tag
      ensures Resting() && !tag.isValid && Unparsed() == old(Unparsed())
      ensures match ending
              case Some(why) => EndOf(old(P()), gs, old(Unparsed())) == Outcome(P(), gs, 0, why)
              case None => EndOf(old(P()), gs, old(Unparsed())) == Exec(P(), gs, Unparsed())
    {
      hide Stream, Total, Exec;
      ending := if tag.eop then Some(Done) else None;
      tag := tag.(isValid := false);
    }

    /** Deals with one tag and its data, as far as they are there: None means the call goes on. */
    method ConsumeTag(gs0: Gs) returns (gs: Gs, ending: Option<Ending>, ghost used: nat)
      requires Resting()
      modifies this`curSize, this`curOffset, this`packOffset, this`packSize, this`ring, this`readAmount, this`back,
               this`delivered, this`tag, this`state, buffer
      ensures Resting() && used <= |old(Unparsed())| && Unparsed() == old(Unparsed())[used..]
      ensures ending == None ==> used >= 16 || (old(tag.isValid) && !tag.isValid)
      ensures old(curOffset) <= buffLimit ==> InPlace()
      ensures var e := Exec(old(P()), gs0, old(Unparsed()));
              match ending
              case Some(why) => e == Outcome(P(), gs, used, why)
              case None => e == After(used, Exec(P(), gs, Unparsed()))
    {
      hide Stream, Total, Exec, EndOf;
      ghost var u, head := Unparsed(), 0;
      if !tag.isValid {
        var ok := FetchTag(gs0);
        if !ok {
          return gs0, Some(Starved), 0;
        }
        head := 16;
      }
      hide AtData, DataExec;
      gs, ending, used := ConsumeData(gs0);
      assert u[head..][used..] == u[head + used..];
      used := head + used;
    }

    /** Tag after tag, until the data runs out, a SIGNAL stalls or a packet is complete. */
    method ConsumeTags(gs0: Gs) returns (gs: Gs, why: Ending)
      requires Resting()
      modifies this`curSize, this`curOffset, this`packOffset, this`packSize, this`ring, this`readAmount, this`back,
               this`delivered, this`tag, this`state, buffer
      ensures Resting() && (old(curSize) <= buffLimit ==> InPlace())
      ensures var o := Exec(old(P()), gs0, old(Unparsed()));
              o == Outcome(P(), gs, o.used, why) && Unparsed() == old(Unparsed())[o.used..]
    {
      hide Stream, Total, Exec, Running;
      ghost var u, total, o := Unparsed(), 0, Exec(P(), gs0, Unparsed());
      gs := gs0;
      var ending: Option<Ending> := None;
      while ending == None
        invariant Resting()
        invariant total <= |u| && Unparsed() == u[total..]
        invariant old(curSize) <= buffLimit ==> InPlace()
        invariant match ending
                  case Some(why) => o == Outcome(P(), gs, total, why)
                  case None => o == After(total, Exec(P(), gs, Unparsed()))
        decreases ending == None, |Unparsed()|, tag.isValid
      {
        ghost var more: nat;
        gs, ending, more := ConsumeTag(gs);
        assert u[total..][more..] == u[total + more..];
        total := total + more;
      }
      why := ending.value;
    }

    /** One call of the packet parser. When it completes a packet (at [offset, offset + size)) while
        path 3 is masked, the data behind the packet is dropped and its amount left in dmaRewind. */
    method ExecuteGSPacket(gs0: Gs, onPath3: bool, masked: bool)
      returns (gs: Gs, done: bool, offset: nat, size: nat, ghost o: Outcome)
      requires Resting()
      modifies this`curSize, this`curOffset, this`packOffset, this`packSize, this`ring, this`readAmount, this`back,
               this`delivered, this`tag, this`state, this`held, this`dmaRewind, this`sent, buffer
      ensures Valid() && o == Exec(old(P()), gs0, old(Unparsed()))
      ensures !done && old(curSize) <= buffLimit ==> InPlace()
      ensures done && old(curSize) <= buffLimit ==>
        && ring == old(ring) && readAmount == old(readAmount) && buffer[..] == old(buffer[..])
        && offset == old(packOffset) && (!(onPath3 && masked) ==> curSize == old(curSize))
      ensures gs == o.gs && (done <==> o.ending == Done)
      ensures !done ==> Resting() && P() == o.p && Unparsed() == old(Unparsed())[o.used..]
      ensures !done ==> offset == packOffset && size == packSize
      ensures !done ==> sent == old(sent) && dmaRewind == old(dmaRewind)
      ensures done ==> held == size == o.p.size && offset == packOffset - held <= buffLimit && !tag.isValid
      ensures done ==> P() == o.p.(state := if onPath3 then Wait else Idle, size := 0)
      ensures done ==>
        var rest := old(Unparsed())[o.used..];
        if onPath3 && masked then
          Unparsed() == [] && dmaRewind == |rest| <= |old(sent)| && sent == old(sent)[..|old(sent)| - |rest|]
        else Unparsed() == rest && dmaRewind == 0 && sent == old(sent)
    {
      hide Stream, Total, Exec, Running;
      o := Exec(P(), gs0, Unparsed());
      var why;
      gs, why := ConsumeTags(gs0);
      done := why == Done;
      if done {
        offset, size := CompletePacket(onPath3, masked);
      } else {
        offset, size := packOffset, packSize;
      }
    }

    method CompletePacket(onPath3: bool, masked: bool) returns (offset: nat, size: nat)
      requires Valid() && held == 0
      modifies this`curSize, this`packOffset, this`packSize, this`state, this`held, this`dmaRewind, this`sent
      ensures Valid() && held == size == old(packSize) && offset == old(packOffset) == packOffset - held
      ensures packSize == 0 && state == (if onPath3 then Wait else Idle)
      ensures !(onPath3 && masked) ==> curSize == old(curSize)
      ensures if onPath3 && masked then
                && Unparsed() == [] && dmaRewind == |old(Unparsed())| <= |old(sent)|
                && sent == old(sent)[..|old(sent)| - |old(Unparsed())|]
              else Unparsed() == old(Unparsed()) && dmaRewind == 0 && sent == old(sent)
    {
      hide Stream, Total;
      offset, size := packOffset, packSize;
      dmaRewind := 0;
      held := packSize;
      packOffset, packSize := curOffset, 0;
      if onPath3 {
        state := Wait;
        if masked && curSize - curOffset > 0 {
          GiveBack();
        } else {
          assert sent[..|sent| - 0] == sent;
        }
      } else {
        state := Idle;
      }
    }
  
    /** The DMA is rewound by what has not been parsed. */
    method GiveBack()
      requires Valid() && packSize == 0
      modifies this`curSize, this`dmaRewind, this`sent
      ensures Valid() && Unparsed() == [] && dmaRewind == |old(Unparsed())| <= |old(sent)|
      ensures sent == old(sent)[..|old(sent)| - dmaRewind]
      ensures Leads(Place(ring, packOffset, old(curSize)), Step.GiveBack, Place(ring, packOffset, curSize), Geometry(0))
    {
      hide Layout, Pending, Total;
      dmaRewind := curSize - curOffset;
      StreamRewind(buffer[..], ring, back, packOffset - held, curSize, buffLimit, delivered, sent, dmaRewind);
      curSize := curOffset;
      sent := sent[..|sent| - dmaRewind];
    }

    /** The same, and a completed packet goes to the GS thread. `cur` is the path whose state is looked at
        before it does: the active one, which is this one, so no packet is left behind. */
    method ExecuteAndSubmit(gs0: Gs, onPath3: bool, masked: bool, cur: GifPath)
      returns (gs: Gs, done: bool, size: nat, ghost o: Outcome)
      requires Resting() && cur == this
      modifies this`curSize, this`curOffset, this`packOffset, this`packSize, this`ring, this`readAmount, this`back,
               this`delivered, this`tag, this`state, this`held, this`dmaRewind, this`sent, buffer
      ensures Resting() && o == Exec(old(P()), gs0, old(Unparsed()))
      ensures gs == o.gs && (done <==> o.ending == Done)
      ensures !done ==> P() == o.p && Unparsed() == old(Unparsed())[o.used..] && size == packSize
      ensures !done ==> sent == old(sent) && dmaRewind == old(dmaRewind)
      ensures done ==> P() == o.p.(state := if onPath3 then Wait else Idle, size := 0) && size == o.p.size
      ensures done ==>
        ring != [] && ring[|ring| - 1].Data? && ring[|ring| - 1].size == size
          && ring[|ring| - 1].offset + size == packOffset
      ensures done ==>
        var rest := old(Unparsed())[o.used..];
        if onPath3 && masked then
          Unparsed() == [] && dmaRewind == |rest| <= |old(sent)| && sent == old(sent)[..|old(sent)| - |rest|]
        else Unparsed() == rest && dmaRewind == 0 && sent == old(sent)
    {
      hide Stream, Total, Exec;
      var offset;
      gs, done, offset, size, o := ExecuteGSPacket(gs0, onPath3, masked);
      if done {
        if cur.state == Wait || cur.state == Idle {
          AddCompletedGSPacket(offset, size);
        }
      }
    }

    /** Path-3 slicing: hands over what the path has of its packet if that is more than one tag, so
        that the next packet starts at the unfinished image tag. */
    method SendSlice(size: nat)
      requires Resting() && state == OnImage && size == packSize
      modifies this`readAmount, this`ring, this`held, this`packOffset, this`packSize, this`curOffset, this`tag
      ensures Resting() && Unparsed() == old(Unparsed()) && tag == old(tag) && packSize <= 16
      ensures ring == if size > 16 then old(ring) + [Data(old(packOffset), size)] else old(ring)
    {
      hide Stream, Total;
      if size > 16 {
        var subOffset := if tag.isValid then 16 else 0;
        assert subOffset == 0;  // an image tag is never left valid
        var offset := packOffset;
        held := size - subOffset;
        packOffset, packSize := curOffset - subOffset, 0;
        AddCompletedGSPacket(offset, size - subOffset);
        curOffset := curOffset - subOffset;
        tag := tag.(isValid := false);
      }
    }
  
    method EndWait()
      requires Resting()
      modifies this`state
      ensures Resting() && state == if old(state) == Wait then Idle else old(state)
    {
      hide Stream, Total;
      if state == Wait {
        state := Idle;
      }
    }
  
    method SetNoRewind()
      requires Resting()
      modifies this`dmaRewind
      ensures Resting() && dmaRewind == 0
    {
      dmaRewind := 0;
    }

    /** Sizes and places so far are whole quadwords, and transfers of up to `most` bytes fit behind the
        limit. */
    ghost predicate InQuadwords(most: nat)
      reads this
    {
      Quadwords(ring) && Whole(packOffset) && Whole(packSize) && Geometry(most).Ok()
    }

    function Geometry(most: nat): Frame {
      Frame(buffLimit, buffer.Length, most)
    }

    lemma ResetHazard(most: nat)
      requires Resting() && InQuadwords(most)
      ensures CanHarm(Place(ring, curOffset, curOffset), Geometry(most))
              <==> Hazard(ring, packOffset, packSize, Geometry(most))
    {
      hide Pending, Total, CanHarm, Hazard, Quadwords, Tiles, BackTiles, Whole;
      CanHarmIff(ring, back, packOffset, packSize, Geometry(most));
    }

    /** A soft reset forgets the packet being built and the data behind it, but leaves its place in the
        buffer and the reader's count alone. The stream law survives it exactly if nothing had been parsed
        or nothing is left to read; and some run of later copies, moves, submissions and reads that the
        checks let through writes over unread bytes exactly under the condition. */
    method SoftReset(ghost most: nat)
      requires Resting()
      modifies this`state, this`tag, this`packOffset, this`packSize, this`curSize, this`sent
      ensures P() == FRESH && packOffset == curOffset == curSize == old(curOffset) && Bounds()
      ensures old(curSize - packOffset) <= |old(sent)| && sent == old(sent)[..|old(sent)| - old(curSize - packOffset)]
      ensures Valid() <==> old(packSize) == 0 || ring == []
      ensures old(InQuadwords(most)) ==>
        (CanHarm(Place(ring, curOffset, curOffset), Geometry(most))
         <==> Hazard(ring, old(packOffset), old(packSize), Geometry(most)))
    {
      hide Stream, Total, CanHarm, Hazard, Quadwords, Whole;
      ghost var drop := curSize - packOffset;
      StreamReset(buffer[..], ring, back, packOffset, curSize, buffLimit, delivered, sent, packSize);
      if InQuadwords(most) {
        ResetHazard(most);
      }
      state := Idle;
      tag := NULL_TAG;
      packSize := 0;
      curSize := curOffset;
      packOffset := curOffset;
      sent := sent[..|sent| - drop];
    }
  }
}
