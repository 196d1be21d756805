/** The GIF unit: three paths, one of them active at a time, arbitration at packet ends and inside
    path-3 images, path-3 masking, and the pause while a SIGNAL is stalled. */
module GifUnits {
  import opened Basics
  import opened GifTags
  import opened GsSignals
  import opened GifParser
  import opened GifPaths

  datatype TransferType = XgKick | Direct | DirectHL | Dma | Fifo {
    function PathOf(): nat {
      match this
      case XgKick => 1
      case Direct => 2
      case DirectHL => 2
      case Dma => 3
      case Fifo => 3
    }
  }

  class GifUnit {
    const path1: GifPath
    const path2: GifPath
    const path3: GifPath
    var gs: Gs
    /** GIF_STAT: the active path (0: none), queued requests, interrupted path 3, output in progress. */
    var apath: nat
    var p1q: bool
    var p2q: bool
    var p3q: bool
    var ip3: bool
    var oph: bool
    /** GIF_STAT: intermittent transfers, the two path-3 masks, pause, direction. */
    var imt: bool
    var m3r: bool
    var m3p: bool
    var pse: bool
    var dir: bool
    /** GIF channel CHCR.STR; the DMA controller sets it. */
    var dmaRunning: bool

    ghost predicate Separate() {
      && path3.buffer.Length == 9 * MB
      && path1 != path2 && path2 != path3 && path1 != path3
      && path1.buffer != path2.buffer && path2.buffer != path3.buffer && path1.buffer != path3.buffer
    }

    ghost predicate Valid()
      reads this, path1, path1.buffer, path2, path2.buffer, path3, path3.buffer
    {
      && Separate() && apath <= 3
      && path1.Resting() && path2.Resting() && path3.Resting()
      && gs.NoSignalLost()
    }

    constructor ()
      ensures Valid() && gs == RESET_GS && apath == 0
      ensures path1.sent == [] && path2.sent == [] && path3.sent == []
      ensures path1.IsDone() && path2.IsDone() && path3.P() == FRESH && path3.Unparsed() == []
      ensures !imt && !m3r && !m3p && !pse && !dir && !dmaRunning && CanDoGif()
      ensures fresh(path1) && fresh(path1.buffer) && fresh(path2) && fresh(path2.buffer) && fresh(path3)
      ensures fresh(path3.buffer)
    {
      hide GifPath.Resting, Gs.NoSignalLost;
      ResetKeepsSignals();
      path1 := new GifPath(9 * MB, MB + KB);
      path2 := new GifPath(9 * MB, MB + KB);
      path3 := new GifPath(9 * MB, MB + KB);
      gs, apath := RESET_GS, 0;
      p1q, p2q, p3q, ip3, oph := false, false, false, false, false;
      imt, m3r, m3p, pse, dir, dmaRunning := false, false, false, false, false, false;
    }

    function Path(i: nat): GifPath {
      if i == 1 then path1 else if i == 2 then path2 else path3
    }

    predicate CanDoP3Slice()
      reads this, path3
    {
      imt && path3.state == OnImage
    }

    predicate CanDoGif()
      reads this`pse, this`dir, this`gs
    {
      !pse && !dir && !gs.queued
    }

    predicate Masked()
      reads this`m3r, this`m3p
    {
      m3r || m3p
    }

    predicate Path3Masked()
      reads this`m3r, this`m3p, path3`state
    {
      Masked() && (path3.state == Idle || path3.state == Wait)
    }

    predicate CanDoPath1()
      reads this, path3
    {
      (apath == 0 || apath == 1 || (apath == 3 && CanDoP3Slice())) && CanDoGif()
    }

    predicate CanDoPath2()
      reads this, path3
    {
      (apath == 0 || apath == 2 || (apath == 3 && CanDoP3Slice())) && CanDoGif()
    }

    predicate CanDoPath2HL()
      reads this
    {
      (apath == 0 || apath == 2) && CanDoGif()
    }

    predicate CanDoPath3()
      reads this, path3
    {
      ((apath == 0 && !Path3Masked()) || apath == 3) && CanDoGif()
    }

    /** One call of the active path's parser; a completed packet goes to the GS thread. */
    method RunActivePath(curPath: nat)
      returns (done: bool, size: nat, ghost o: Outcome)
      requires Valid() && 1 <= apath <= 3 && !gs.queued && curPath == apath - 1
      modifies this`gs, Path(apath), Path(apath).buffer
      ensures Valid() && (!done && gs.queued ==> o.ending == Stalled) && (o.ending == Stalled ==> gs.queued)
      ensures var p := Path(apath);
        && o == Exec(old(p.P()), old(gs), old(p.Unparsed()))
        && gs == o.gs && (done <==> o.ending == Done)
        && (!done ==> p.P() == o.p && p.Unparsed() == old(p.Unparsed())[o.used..] && size == p.packSize)
        && (!done ==> p.sent == old(p.sent) && p.dmaRewind == old(p.dmaRewind))
        && (done ==> p.P() == o.p.(state := if apath == 3 then Wait else Idle, size := 0))
        && (done ==> var rest := old(p.Unparsed())[o.used..];
              if apath == 3 && Masked() then
                p.Unparsed() == [] && p.dmaRewind == |rest| <= |old(p.sent)|
                  && p.sent == old(p.sent)[..|old(p.sent)| - |rest|]
              else p.Unparsed() == rest && p.dmaRewind == 0 && p.sent == old(p.sent))
    {
      hide GifPath.Resting, GifPath.Valid, Exec, Gs.NoSignalLost;
      var path := Path(apath);
      KeepsSignals(path);
      gs, done, size, o := path.ExecuteAndSubmit(gs, apath == 3, Masked(), Path(curPath + 1));
    }

    lemma KeepsSignals(path: GifPath)
      requires path.Resting() && gs.NoSignalLost() && !gs.queued
      ensures var o := Exec(path.P(), gs, path.Unparsed());
              && (o.ending == Stalled ==> o.gs.queued) && (o.ending == Starved ==> !o.gs.queued) && o.gs.NoSignalLost()
    {
      hide GifPath.Valid, Exec, Gs.NoSignalLost;
      ExecSignals(path.P(), gs, path.Unparsed());
    }

    /** Chooses the path to run next; false if there is nothing more to do now. */
    method Arbitrate(curPath: nat, path3Check: bool) returns (again: bool, cur: nat, check: bool)
      requires Valid()
      modifies this`apath, this`p1q, this`p2q, this`p3q, this`ip3, this`oph, path3`state
      ensures Valid() && path3.Unparsed() == old(path3.Unparsed()) && path3.tag == old(path3.tag)
      ensures again ==> !gs.queued && 1 <= apath <= 3 && cur == apath - 1 && path3.state == old(path3.state)
      // the lowest path with work to do, whose request is thereby served
      ensures again ==> !Path(apath).IsDone() && forall i :: 1 <= i < apath ==> Path(i).IsDone()
      ensures path1.IsDone() == old(path1.IsDone()) && path2.IsDone() == old(path2.IsDone())
      ensures Untouched() && path3.dmaRewind == old(path3.dmaRewind) && (again && apath == 3 ==> !old(Path3Masked()))
      ensures !again && old(apath) != 3 ==> apath != 3
      ensures again ==>
        p1q == (old(p1q) && apath != 1) && p2q == (old(p2q) && apath != 2) && p3q == (old(p3q) && apath != 3)
      ensures again ==> ip3 == (old(ip3) && apath != 3) && oph == old(oph) && check == (path3Check || apath == 3)
      ensures !again ==> p1q == old(p1q) && p2q == old(p2q) && p3q == old(p3q) && ip3 == old(ip3)
      ensures !again && !dmaRunning ==> apath != 3
      ensures !again && !path3Check && old(apath) != 3 ==> apath == 0
      ensures again && apath == 3 ==> !path3.IsDone() && !Path3Masked()
      ensures !again ==> cur == curPath && NothingToDo()
      ensures again == !old(NothingToDo()) && (old(Path3Dry()) ==> Path3Dry())
      ensures !again ==> apath == 0 || apath == old(apath)
    {
      hide GifPath.Resting, GifPath.Valid, Gs.NoSignalLost;
      again, cur, check := true, curPath, path3Check;
      if !gs.queued && !path1.IsDone() {
        apath, p1q, cur := 1, false, 0;
      } else if !gs.queued && !path2.IsDone() {
        apath, p2q, cur := 2, false, 1;
      } else if !gs.queued && !path3.IsDone() && !Path3Masked() {
        apath, p3q, ip3, cur, check := 3, false, false, 2, true;
      } else {
        again := false;
        if apath == 3 || path3Check {
          CheckPathStatus();
        } else {
          apath, oph := 0, false;
        }
      }
    }

    ghost predicate NothingToDo()
      reads this`gs, this`m3r, this`m3p, path1, path2, path3
    {
      gs.queued || (path1.IsDone() && path2.IsDone() && (path3.IsDone() || Path3Masked()))
    }

    /** Ends the simulated length of a path-3 packet, unless the GIF DMA sees to that itself. */
    method CheckPathStatus()
      requires Valid()
      modifies this`apath, this`oph, path3`state
      ensures Valid() && path3.Unparsed() == old(path3.Unparsed())
      ensures path3.state == if !dmaRunning && old(path3.state) == Wait then Idle else old(path3.state)
      ensures apath == if !dmaRunning && old(apath) == 3 then 0 else old(apath)
      ensures oph == (old(oph) && apath == old(apath))
    {
      hide GifPath.Resting, GifPath.Valid, Gs.NoSignalLost;
      if !dmaRunning {
        path3.EndWait();
        if apath == 3 {
          apath, oph := 0, false;
        }
      }
    }

    /** Path-3 slicing: path 3 steps aside in the middle of an image. */
    method SlicePath3(size: nat)
      requires Valid() && apath == 3 && CanDoP3Slice() && size == path3.packSize
      modifies this`apath, this`ip3, path3
      ensures Valid() && apath == 0 && ip3 && path3.Unparsed() == old(path3.Unparsed()) && path3.tag == old(path3.tag)
      ensures path3.sent == old(path3.sent) && path3.dmaRewind == old(path3.dmaRewind) && path3.state == OnImage
    {
      hide GifPath.Resting, GifPath.Valid, Gs.NoSignalLost;
      apath, ip3 := 0, true;
      path3.SendSlice(size);
    }

    method FlushToMTGS()
      requires Valid()
      modifies Path(apath)
      ensures Valid()
      ensures path1.KeepsData() && path2.KeepsData() && path3.KeepsData()
      ensures Path(apath).packSize == if apath != 0 && !Path(apath).tag.isValid then 0 else old(Path(apath).packSize)
    {
      hide GifPath.Resting, GifPath.Valid, Gs.NoSignalLost;
      if apath != 0 {
        var path := Path(apath);
        if path.packSize > 0 && !path.tag.isValid {
          path.FlushPacket();
        }
      }
    }
  
    // ---- Execute ----

    /** Path 3 has nothing to parse and starts with a tag. */
    ghost predicate Path3Dry()
      reads path3, path3.buffer
    {
      path3.Unparsed() == [] && !path3.tag.isValid
    }

    /** Path 3 is the next to run. */
    ghost predicate Path3Next()
      reads this, path1, path2, path3
    {
      && CanDoGif()
      && (apath == 3 || (apath == 0 && path1.IsDone() && path2.IsDone() && !path3.IsDone() && !Path3Masked()))
    }

    /** What a parser call of path 3 with this outcome leaves: under a mask a completed packet leaves
        nothing, and a stalled SIGNAL gives nothing back. */
    ghost predicate Path3Ran(o: Outcome, again: bool, rewind: nat)
      reads this`m3r, this`m3p, path3, path3.buffer
    {
      Masked() ==>
        (o.ending == Done ==> Path3Dry()) && (o.ending == Stalled ==> !again && path3.dmaRewind == rewind)
    }

    /** With the other paths done, a call that runs out of data is the last. */
    ghost predicate Path3Waits(o: Outcome, rest: seq<byte>)
      reads this`apath, this`gs, path3, path3.buffer
    {
      apath == 3 && path3.tag == o.p.tag && path3.state == o.p.state && path3.Unparsed() == rest
        && gs.queued == o.gs.queued
    }

    /** How path 3 stands against its state at the start of Execute (tag t, unparsed data u, stream
        sent): either its packet is still going on, or, under a mask, its packet ended and the data
        behind it was given back. */
    ghost predicate Path3Track(t: Tag, u: seq<byte>, sent: seq<byte>)
      reads this`m3r, this`m3p, path3, path3.buffer
    {
      if !Masked() then path3.sent == sent && path3.dmaRewind == 0
      else UnderMask(t, u, sent, path3.tag, path3.Unparsed(), path3.sent, path3.dmaRewind)
    }

    static ghost predicate UnderMask(t: Tag, u: seq<byte>, sent: seq<byte>,
                                     t': Tag, rest: seq<byte>, sent': seq<byte>, rewind: nat) {
      || (&& !t'.isValid && rest == [] && rewind <= |u| && SpanFrom(t, u) == Some(|u| - rewind)
          && rewind <= |sent| && sent' == sent[..|sent| - rewind])
      || (&& rewind == 0 && sent' == sent && |rest| <= |u|
          && SpanFrom(t, u) == Plus(|u| - |rest|, SpanFrom(t', rest)))
    }

    /** So path 3 loses bytes only off the end, and none if no packet was complete. */
    lemma TrackPrefix(t: Tag, u: seq<byte>, sent: seq<byte>)
      requires Path3Track(t, u, sent)
      ensures path3.sent <= sent && (SpanFrom(t, u) == None ==> path3.sent == sent)
    {
      hide SpanFrom;
    }

    /** One parser call keeps it. */
    static lemma UnderMaskStep(t: Tag, u: seq<byte>, sent: seq<byte>, p: Parser, gs: Gs, rest: seq<byte>,
                               sent': seq<byte>, rewind: nat)
      requires Running(p) && UnderMask(t, u, sent, p.tag, rest, sent', rewind)
      ensures var o := Exec(p, gs, rest); var left := rest[o.used..];
              if o.ending != Done then UnderMask(t, u, sent, o.p.tag, left, sent', rewind)
              else |left| <= |sent'| ==> UnderMask(t, u, sent, o.p.tag, [], sent'[..|sent'| - |left|], |left|)
    {
      hide Exec, SpanFrom, Running;
      ExecSpan(p, gs, rest);
      ExecEmpty(p, gs);
      var o := Exec(p, gs, rest);
      var left := rest[o.used..];
      assert |left| == |rest| - o.used;
      if !p.tag.isValid && rest == [] {
        assert left == rest && o == Outcome(p, gs, 0, Starved);
      } else if o.ending != Done {
        assert SpanFrom(t, u) == Plus(|u| - |left|, SpanFrom(o.p.tag, left));
      } else {
        assert SpanFrom(t, u) == Some(|u| - |left|);
      }
    }

    static lemma ExecEmpty(p: Parser, gs: Gs)
      requires Running(p)
      ensures !p.tag.isValid ==> Exec(p, gs, []) == Outcome(p, gs, 0, Starved)
    {
    }

    ghost function Left(): nat
      reads path1, path1.buffer, path2, path2.buffer, path3, path3.buffer
    {
      |path1.Unparsed()| + |path2.Unparsed()| + |path3.Unparsed()|
    }

    /** By the headers, the rest of the active path's packet is all there. */
    ghost predicate PacketThere()
      reads this`apath, path1, path1.buffer, path2, path2.buffer, path3, path3.buffer
    {
      1 <= apath <= 3 && SpanFrom(Path(apath).tag, Path(apath).Unparsed()).Some?
    }

    lemma StepFacts(path: GifPath)
      requires path.Resting()
      ensures var p, u := path.P(), path.Unparsed(); var o := Exec(p, gs, u);
              && Follows(gs, o.gs)
              && (o.ending == Done ==> SpanFrom(p.tag, u) == Some(o.used) && o.used > 0)
              && (o.ending == Starved ==> SpanFrom(o.p.tag, u[o.used..]) == None)
    {
      hide GifPath.Valid, Exec, SpanFrom, Follows;
      var p, u := path.P(), path.Unparsed();
      ExecFollows(p, gs, u);
      ExecSpan(p, gs, u);
      PlusNothing(Exec(p, gs, u).used, SpanFrom(Exec(p, gs, u).p.tag, u[Exec(p, gs, u).used..]));
    }

    static lemma PlusNothing(n: nat, r: Option<nat>)
      ensures Plus(n, r) == None ==> r == None
    {
    }

    lemma TrackFacts(t: Tag, u: seq<byte>, sent: seq<byte>)
      requires path3.Resting() && UnderMask(t, u, sent, path3.tag, path3.Unparsed(), path3.sent, path3.dmaRewind)
      ensures var o := Exec(path3.P(), gs, path3.Unparsed()); var left := path3.Unparsed()[o.used..];
              if o.ending != Done then UnderMask(t, u, sent, o.p.tag, left, path3.sent, path3.dmaRewind)
              else |left| <= |path3.sent| ==>
                UnderMask(t, u, sent, o.p.tag, [], path3.sent[..|path3.sent| - |left|], |left|)
    {
      hide GifPath.Valid, Exec, UnderMask;
      UnderMaskStep(t, u, sent, path3.P(), gs, path3.Unparsed(), path3.sent, path3.dmaRewind);
    }

    /** The parser call that path 3 would make now. */
    ghost function Path3Call(): (o: Outcome)
      requires path3.Resting()
      reads this`gs, path3, path3.buffer
      ensures o.used <= |path3.Unparsed()|
    {
      Exec(path3.P(), gs, path3.Unparsed())
    }

    lemma DryCall()
      requires path3.Resting()
      ensures Path3Dry() ==> Path3Call() == Outcome(path3.P(), gs, 0, Starved)
    {
      hide GifPath.Valid;
    }

    /** RunActivePath, seen from Execute. */
    method RunStep(curPath: nat, ghost t: Tag, ghost u: seq<byte>, ghost sent: seq<byte>)
      returns (done: bool, size: nat)
      requires Valid() && 1 <= apath <= 3 && !gs.queued && curPath == apath - 1 && Path3Track(t, u, sent)
      modifies this`gs, Path(apath), Path(apath).buffer
      ensures Valid() && path1.sent == old(path1.sent) && path2.sent == old(path2.sent)
      ensures Path3Track(t, u, sent) && Follows(old(gs), gs)
      ensures Left() <= old(Left()) && (done ==> Left() < old(Left()))
      ensures !done ==> size == Path(apath).packSize
      ensures done ==> old(PacketThere())
      ensures !done && !gs.queued ==> !PacketThere()
      ensures old(Path3Dry()) ==> Path3Dry()
      ensures old(apath) == 3 ==> Path3Ran(old(Path3Call()), !gs.queued, old(path3.dmaRewind))
      ensures old(apath) == 3 ==> (done <==> old(Path3Call()).ending == Done)
      ensures old(apath) == 3 && !done ==>
        Path3Waits(old(Path3Call()), old(path3.Unparsed())[old(Path3Call()).used..]) && gs == old(Path3Call()).gs
    {
      hide GifPath.Resting, GifPath.Valid, Follows, Gs.NoSignalLost, Exec, SpanFrom, UnderMask;
      StepFacts(Path(apath));
      DryCall();
      if apath == 3 && Masked() {
        TrackFacts(t, u, sent);
      }
      ghost var o;
      done, size, o := RunActivePath(curPath);
    }
  
    ghost predicate Settled()
      reads this`gs, this`apath, this`m3r, this`m3p, path1, path1.buffer, path2, path2.buffer, path3, path3.buffer
    {
      NothingToDo() || (1 <= apath <= 3 && !PacketThere())
    }

    /** The active path's part of a turn: unless it completes a packet, it steps aside or the loop ends. */
    method RunOrSlice(curPath: nat, didPath3: bool, ghost t: Tag, ghost u: seq<byte>, ghost sent: seq<byte>)
      returns (done: bool, again: bool, did: bool)
      requires Valid() && 1 <= apath <= 3 && !gs.queued && curPath == apath - 1 && Path3Track(t, u, sent)
      requires TurnBack(didPath3)
      modifies this`gs, this`apath, this`ip3, path1, path1.buffer, path2, path2.buffer, path3, path3.buffer
      ensures Valid() && path1.sent == old(path1.sent) && path2.sent == old(path2.sent)
      ensures Path3Track(t, u, sent) && Follows(old(gs), gs) && Left() <= old(Left())
      ensures done ==> again && did == didPath3 && apath == old(apath) && Left() < old(Left())
      ensures done ==> old(PacketThere())
      ensures !done && again ==>
        !gs.queued && did && !didPath3 && apath == 0 && old(apath) == 3 && imt && path3.state == OnImage
      ensures !done && !again ==> Settled() && apath == old(apath) && did == didPath3 && NoneWaits()
      ensures !again ==> TurnBack(did)
      ensures old(apath) != 3 ==> Untouched() && path3.dmaRewind == old(path3.dmaRewind) && apath != 3
      ensures old(Path3Dry()) ==> Path3Dry()
      ensures old(apath) == 3 ==> Path3Ran(old(Path3Call()), again, old(path3.dmaRewind))
      ensures old(apath) == 3 && old(path1.IsDone()) && old(path2.IsDone()) && old(Path3Call()).ending == Starved ==>
        !done && !again && Path3Waits(old(Path3Call()), old(path3.Unparsed())[old(Path3Call()).used..])
    {
      hide GifPath.Resting, GifPath.Valid, Gs.NoSignalLost, Exec, SpanFrom, UnderMask, Follows, Path3Dry, Path3Call;
      hide GifPath.Unparsed;
      var size;
      done, size := RunStep(curPath, t, u, sent);
      again, did := true, didPath3;
      if !done {
        again, did := SliceOrStop(size, didPath3, t, u, sent);
      }
    }

    /** One turn of the arbitration loop. */
    method Iterate(curPath: nat, didPath3: bool, path3Check: bool, ghost t: Tag, ghost u: seq<byte>,
                   ghost sent: seq<byte>)
      returns (again: bool, cur: nat, did: bool, check: bool)
      requires Valid() && !gs.queued && apath <= 3 && (apath > 0 ==> curPath == apath - 1) && Path3Track(t, u, sent)
      requires TurnBack(didPath3)
      modifies this`gs, this`apath, this`p1q, this`p2q, this`p3q, this`ip3, this`oph,
               path1, path1.buffer, path2, path2.buffer, path3, path3.buffer
      ensures Valid() && path1.sent == old(path1.sent) && path2.sent == old(path2.sent)
      ensures Path3Track(t, u, sent) && Follows(old(gs), gs)
      ensures again ==> !gs.queued && (apath > 0 ==> cur == apath - 1)
      ensures again ==>
        || Left() < old(Left())
        || (Left() == old(Left()) && did && !didPath3)
        || (Left() == old(Left()) && did == didPath3 && old(apath) == 0 && apath != 0)
      ensures !again ==> Settled() && NoneWaits()
      ensures again ==> TurnBack(did)
      ensures old(apath != 3 && Path3Masked()) ==>
        Untouched() && path3.dmaRewind == old(path3.dmaRewind) && apath != 3 && Path3Masked()
      ensures Waiting() && (old(1 <= apath <= 3 && !PacketThere() && (apath < 3 || !imt)) ==> !again)
      // the active path gives way only at the end of a packet or inside a path-3 image
      ensures old(apath) != 0 && apath != old(apath) ==>
        old(PacketThere()) || (old(apath) == 3 && imt && path3.state == OnImage)
      ensures old(Path3Dry()) ==> Path3Dry()
      ensures old(apath) == 3 ==> Path3Ran(old(Path3Call()), again, old(path3.dmaRewind))
      ensures old(apath) == 3 && old(path1.IsDone()) && old(path2.IsDone()) && old(Path3Call()).ending == Starved ==>
        !again && Path3Waits(old(Path3Call()), old(path3.Unparsed())[old(Path3Call()).used..])
      ensures old(apath == 0 && Path3Next()) ==>
        && again && apath == 3 && gs == old(gs) && path3.P() == old(path3.P())
        && path3.Unparsed() == old(path3.Unparsed())
        && path3.dmaRewind == old(path3.dmaRewind) && path1.IsDone() && path2.IsDone()
    {
      hide PacketThere, GifPath.Resting, GifPath.Valid, Gs.NoSignalLost, Exec, SpanFrom, UnderMask, Follows, Path3Dry;
      hide Path3Waits, Path3Call, GifPath.Unparsed, GifPath.IsDone;
      FollowsSelf(gs);
      again, cur, did, check := true, curPath, didPath3, path3Check;
      if apath != 0 {
        var done;
        done, again, did := RunOrSlice(curPath, didPath3, t, u, sent);
        if !done {
          return;
        }
      }
      again, cur, check := Arbitrate(curPath, check);
      assert Path(1) == path1 && Path(2) == path2;
    }

    /** Path 3 should step aside: it is inside an image, has not done so yet in this call, and path 1
        or 2 has something to do. */
    predicate SliceNow(didPath3: bool)
      reads this, path1, path2, path3
    {
      apath == 3 && CanDoP3Slice() && !gs.queued && !didPath3 && (!path1.IsDone() || !path2.IsDone())
    }

    /** With intermittent transfers on, no other path waits for a path 3 that is inside an image. */
    ghost predicate NoneWaits()
      reads this`gs, this`apath, this`imt, path1, path2, path3
    {
      !gs.queued && apath == 3 && imt && path3.state == OnImage ==> path1.IsDone() && path2.IsDone()
    }

    /** No request is made; and where the active path's packet is not complete and cannot be sliced, none is
        served and the path stays active. */
    twostate predicate Waiting()
      reads this`apath, this`p1q, this`p2q, this`p3q, this`imt, path1, path1.buffer, path2, path2.buffer, path3,
            path3.buffer
    {
      && (p1q ==> old(p1q)) && (p2q ==> old(p2q)) && (p3q ==> old(p3q))
      && (old(1 <= apath <= 3 && !PacketThere() && (apath < 3 || !imt)) ==>
            apath == old(apath) && p1q == old(p1q) && p2q == old(p2q) && p3q == old(p3q))
    }

    /** Path 3 as it was, but for the end of its simulated wait. */
    twostate predicate Untouched()
      reads path3, path3.buffer
    {
      && path3.Unparsed() == old(path3.Unparsed()) && path3.sent == old(path3.sent)
      && path3.tag == old(path3.tag) && path3.packSize == old(path3.packSize)
      && (path3.state == old(path3.state) || (path3.state == Idle && old(path3.state) == Wait))
    }

    /** Path 3 gets its turn back only when the others are done. */
    ghost predicate TurnBack(didPath3: bool)
      reads this`apath, path1, path2
    {
      didPath3 && apath == 3 ==> path1.IsDone() && path2.IsDone()
    }

    /** The active path has run dry or a SIGNAL is stalled: slice, or end the loop. */
    method SliceOrStop(size: nat, didPath3: bool, ghost t: Tag, ghost u: seq<byte>, ghost sent: seq<byte>)
      returns (again: bool, did: bool)
      requires Valid() && 1 <= apath <= 3 && size == Path(apath).packSize && Path3Track(t, u, sent)
      modifies this`apath, this`ip3, path3
      ensures Valid() && path1.sent == old(path1.sent) && path2.sent == old(path2.sent)
      ensures Path3Track(t, u, sent) && Left() == old(Left())
      ensures again == old(SliceNow(didPath3)) && did == (didPath3 || again)
      ensures !again && !didPath3 ==> NoneWaits()
      ensures old(apath) != 3 ==> Untouched()
      ensures apath == if again then 0 else old(apath)
      ensures again ==> ip3 && old(apath) == 3 && imt && path3.state == OnImage && !didPath3 && !gs.queued
      ensures !again ==>
        Path(apath).Unparsed() == old(Path(apath).Unparsed()) && Path(apath).tag == old(Path(apath).tag)
      ensures !again ==> path3.state == old(path3.state) && path3.curOffset == old(path3.curOffset)
      ensures path3.Unparsed() == old(path3.Unparsed()) && path3.tag == old(path3.tag)
      ensures path3.dmaRewind == old(path3.dmaRewind)
      ensures old(Path3Dry()) ==> Path3Dry()
    {
      hide GifPath.Resting, GifPath.Valid, Gs.NoSignalLost, Exec, SpanFrom, UnderMask;
      again, did := false, didPath3;
      if apath == 3 && CanDoP3Slice() && !gs.queued && !didPath3 && (!path1.IsDone() || !path2.IsDone()) {
        did := true;
        again := true;
        SlicePath3(size);
      }
    }

    /** Runs packets until the active path runs dry, a SIGNAL stalls, or nothing is left to do.
        Returns how much of the DMA's data path 3 gave back. */
    method Execute(isPath3: bool) returns (rewound: nat)
      requires Valid()
      modifies this`gs, this`apath, this`p1q, this`p2q, this`p3q, this`ip3, this`oph,
               path1, path1.buffer, path2, path2.buffer, path3, path3.buffer
      ensures Valid() && path1.sent == old(path1.sent) && path2.sent == old(path2.sent)
      ensures Follows(old(gs), gs) && (!Masked() ==> path3.sent == old(path3.sent))
      // it does nothing while paused, turned round or stalled; else no path is left waiting for an image,
      // and if none is active there is nothing more to do
      ensures old(pse || dir || gs.queued) ==>
        && rewound == 0 && path3.sent == old(path3.sent) && gs == old(gs)
        && apath == old(apath) && path3.P() == old(path3.P()) && path3.Unparsed() == old(path3.Unparsed())
        && p1q == old(p1q) && p2q == old(p2q) && p3q == old(p3q)
      ensures !old(pse || dir || gs.queued) && !gs.queued && apath == 3 && imt && path3.state == OnImage ==>
        path1.IsDone() && path2.IsDone()
      ensures !old(pse || dir || gs.queued) && !gs.queued && apath == 0 ==>
        && path1.curOffset == path1.curSize && (path1.state == Idle || path1.state == Wait)
        && path2.curOffset == path2.curSize && (path2.state == Idle || path2.state == Wait)
        && (path3.state == Idle || path3.state == Wait) && (path3.curOffset == path3.curSize || m3r || m3p)
      ensures Waiting()
      // a FINISH is not left pending once no other path has anything to do or asks for a turn
      ensures !old(pse || dir || gs.queued) ==>
        (OthersFinished(1, p1q) && OthersFinished(2, p2q) && OthersFinished(3, p3q) ==> !gs.finishPending)
      // between packets, a masked path 3 that is not active is left alone
      ensures old(apath != 3 && (m3r || m3p) && (path3.state == Idle || path3.state == Wait)) ==>
        rewound == 0 && Untouched()
      ensures old(CanDoGif()) ==> Settled() && Path3Track(old(path3.tag), old(path3.Unparsed()), old(path3.sent))
      ensures old(CanDoGif()) ==> rewound == if isPath3 then path3.dmaRewind else 0
      // if path 3 is next, its first parser call decides what it gives back
      ensures old(Path3Next()) && Masked() ==> path3.dmaRewind == GivenBack(old(Path3Call()), old(|path3.Unparsed()|))
      ensures old(Path3Next() && path1.IsDone() && path2.IsDone() && Path3Call().ending == Starved) ==>
        Path3Waits(old(Path3Call()), old(path3.Unparsed())[old(Path3Call()).used..])
    {
      hide GifPath.Resting, GifPath.Valid, Gs.NoSignalLost, Exec, SpanFrom, Path3Call, Path3Next, Path3Waits, Settled,
           Follows;
      hide UnderMask, CallSpans, GivenBack;
      FollowsSelf(gs);
      NextRuns();
      if !CanDoGif() {
        return 0;
      }
      StartRun();
      ghost var t, u, sent := path3.tag, path3.Unparsed(), path3.sent;
      CallFacts();
      RunAndFinish(isPath3, t, u, sent);
      if old(Path3Next()) && Masked() {
        GivenBackIs(old(Path3Call()), t, u, sent, path3.tag, path3.Unparsed(), path3.sent, path3.dmaRewind);
      }
      rewound := if isPath3 then path3.dmaRewind else 0;
      NothingLeft();
    }

    lemma NothingLeft()
      requires Valid()
      ensures Settled() && !gs.queued && apath == 0 ==>
        && path1.curOffset == path1.curSize && (path1.state == Idle || path1.state == Wait)
        && path2.curOffset == path2.curSize && (path2.state == Idle || path2.state == Wait)
        && (path3.state == Idle || path3.state == Wait) && (path3.curOffset == path3.curSize || m3r || m3p)
    {
    }

    lemma NextRuns()
      ensures Path3Next() ==> CanDoGif()
    {
    }

    /** What Execute does first. */
    method StartRun()
      requires Valid()
      modifies this`oph, path3`dmaRewind
      ensures Valid() && path3.dmaRewind == 0 && Path3Call() == old(Path3Call()) && Path3Next() == old(Path3Next())
      ensures path3.P() == old(path3.P()) && path3.Unparsed() == old(path3.Unparsed())
      ensures path3.IsDone() == old(path3.IsDone())
      ensures Path3Track(path3.tag, path3.Unparsed(), path3.sent)
    {
      hide GifPath.Resting, GifPath.Valid, Gs.NoSignalLost, Exec, SpanFrom;
      path3.SetNoRewind();
      oph := true;
      PlusZero(SpanFrom(path3.tag, path3.Unparsed()));
      assert UnderMask(path3.tag, path3.Unparsed(), path3.sent, path3.tag, path3.Unparsed(), path3.sent, 0);
    }

    method RunAndFinish(isPath3: bool, ghost t: Tag, ghost u: seq<byte>, ghost sent: seq<byte>)
      requires Valid() && CanDoGif() && u == path3.Unparsed() && t == path3.tag && sent == path3.sent
      requires path3.dmaRewind == 0 && Path3Track(t, u, sent)
      modifies this`gs, this`apath, this`p1q, this`p2q, this`p3q, this`ip3, this`oph,
               path1, path1.buffer, path2, path2.buffer, path3, path3.buffer
      ensures Valid() && path1.sent == old(path1.sent) && path2.sent == old(path2.sent)
      ensures Path3Track(t, u, sent) && Follows(old(gs), gs) && Settled() && NoneWaits()
      ensures OthersFinished(1, p1q) && OthersFinished(2, p2q) && OthersFinished(3, p3q) ==> !gs.finishPending
      ensures Waiting()
      ensures old(apath != 3 && Path3Masked()) ==> Untouched() && path3.dmaRewind == 0
      ensures old(Path3Next()) ==> Path3Ran(old(Path3Call()), false, 0)
      ensures old(Path3Next() && path1.IsDone() && path2.IsDone()) && old(Path3Call()).ending == Starved ==>
        Path3Waits(old(Path3Call()), u[old(Path3Call()).used..])
    {
      hide GifPath.Resting, GifPath.Valid, Gs.NoSignalLost, Exec, SpanFrom, UnderMask, Path3Call, Path3Next, Settled,
           Follows;
      var curPath := RunPaths(isPath3, t, u, sent);
      ghost var parsed := gs;
      FinishExecute(curPath, t, u, sent);
      FollowsChain(old(gs), parsed, gs);
      FinishRaisesOnce(parsed);
    }

    /** What path 3 gives back after a first call with this outcome on n bytes, under a mask. */
    static function GivenBack(o: Outcome, n: nat): int {
      if o.ending == Done then n - o.used else 0
    }

    /** How the outcome of a call shows in what the headers say. */
    static ghost predicate CallSpans(o: Outcome, t: Tag, u: seq<byte>) {
      (o.ending == Done ==> SpanFrom(t, u) == Some(o.used)) && (o.ending == Starved ==> SpanFrom(t, u) == None)
    }

    lemma CallFacts()
      requires path3.Resting()
      ensures CallSpans(Path3Call(), path3.tag, path3.Unparsed())
    {
      hide GifPath.Valid, Exec, SpanFrom;
      ExecSpan(path3.P(), gs, path3.Unparsed());
      PlusNothing(Path3Call().used, SpanFrom(Path3Call().p.tag, path3.Unparsed()[Path3Call().used..]));
    }

    static lemma GivenBackIs(o: Outcome, t: Tag, u: seq<byte>, sent: seq<byte>,
                             t': Tag, rest: seq<byte>, sent': seq<byte>, rewind: nat)
      requires CallSpans(o, t, u) && UnderMask(t, u, sent, t', rest, sent', rewind) && o.used <= |u|
      requires (o.ending == Done ==> rest == [] && !t'.isValid) && (o.ending == Stalled ==> rewind == 0)
      ensures rewind == GivenBack(o, |u|)
    {
      NoSpan(t');
      hide SpanFrom;
    }

    static lemma NoSpan(t: Tag)
      ensures !t.isValid ==> SpanFrom(t, []) == None
    {
    }

    /** The arbitration loop. */
    method RunPaths(isPath3: bool, ghost t: Tag, ghost u: seq<byte>, ghost sent: seq<byte>) returns (curPath: nat)
      requires Valid() && CanDoGif() && u == path3.Unparsed() && t == path3.tag && sent == path3.sent
      requires path3.dmaRewind == 0 && Path3Track(t, u, sent)
      modifies this`gs, this`apath, this`p1q, this`p2q, this`p3q, this`ip3, this`oph,
               path1, path1.buffer, path2, path2.buffer, path3, path3.buffer
      ensures Valid() && path1.sent == old(path1.sent) && path2.sent == old(path2.sent)
      ensures Path3Track(t, u, sent) && Follows(old(gs), gs) && Settled() && NoneWaits()
      ensures Waiting()
      ensures old(apath != 3 && Path3Masked()) ==> Untouched() && path3.dmaRewind == 0 && apath != 3
      ensures old(Path3Next()) ==> Path3Ran(old(Path3Call()), false, 0)
      ensures old(Path3Next() && path1.IsDone() && path2.IsDone()) && old(Path3Call()).ending == Starved ==>
        Path3Waits(old(Path3Call()), u[old(Path3Call()).used..])
    {
      hide GifPath.Resting, GifPath.Valid, Gs.NoSignalLost, Exec, SpanFrom, UnderMask, Path3Waits, Path3Dry, Follows;
      hide GifPath.Unparsed, GifPath.IsDone, NoneWaits, Settled, PacketThere, Path3Track;
      ghost var p, g, o, next := path3.P(), gs, Path3Call(), Path3Next();
      ghost var alone, ran := path1.IsDone() && path2.IsDone(), false;
      ghost var stays := 1 <= apath <= 3 && !PacketThere() && (apath < 3 || !imt);
      FollowsSelf(gs);
      var didPath3, check, again := false, isPath3, true;
      curPath := if apath > 0 then apath - 1 else 0;
      while again
        invariant Valid() && (again ==> !gs.queued && (apath > 0 ==> curPath == apath - 1))
        invariant path1.sent == old(path1.sent) && path2.sent == old(path2.sent)
        invariant Path3Track(t, u, sent) && Follows(old(gs), gs)
        invariant if again then TurnBack(didPath3) else Settled() && NoneWaits()
        invariant (p1q ==> old(p1q)) && (p2q ==> old(p2q)) && (p3q ==> old(p3q))
        invariant stays && again ==>
          apath == old(apath) && !PacketThere() && p1q == old(p1q) && p2q == old(p2q) && p3q == old(p3q)
        invariant stays && !again ==>
          apath == old(apath) && p1q == old(p1q) && p2q == old(p2q) && p3q == old(p3q)
        invariant old(apath != 3 && Path3Masked()) ==>
          Untouched() && path3.dmaRewind == 0 && apath != 3 && Path3Masked()
        invariant next && !ran ==>
          && again && Path3Next() && path3.P() == p && path3.Unparsed() == u && gs == g && path3.dmaRewind == 0
          && (alone ==> path1.IsDone() && path2.IsDone())
        invariant next && ran ==> Path3Ran(o, again, 0)
        invariant next && ran && alone && o.ending == Starved ==> !again && Path3Waits(o, u[o.used..])
        decreases again, Left(), !didPath3, apath == 0
      {
        ghost var before := gs;
        ghost var runs := apath == 3;
        again, curPath, didPath3, check := Iterate(curPath, didPath3, check, t, u, sent);
        FollowsChain(old(gs), before, gs);
        ran := ran || runs;
      }
    }

    /** Path i is active, or it is finished and has no request waiting. */
    predicate OthersFinished(i: nat, request: bool)
      reads this`apath, path1, path2, path3
    {
      apath == i || (Path(i).IsDone() && !request)
    }

    /** The tail of Execute. Some programs never send an EOP: if the last tag is all there, what there
        is gets submitted. FINISH fires when no other path is busy or queued. */
    method FinishExecute(curPath: nat, ghost t: Tag, ghost u: seq<byte>, ghost sent: seq<byte>)
      requires Valid() && Path3Track(t, u, sent) && Settled()
      modifies this`gs, Path(apath)
      ensures Valid() && Path3Track(t, u, sent) && Settled() && (old(NoneWaits()) ==> NoneWaits())
      ensures apath != 3 ==> path3.packSize == old(path3.packSize)
      ensures path1.KeepsData() && path2.KeepsData() && path3.KeepsData()
      ensures gs == if (apath == 1 || (path1.IsDone() && !p1q)) && (apath == 2 || (path2.IsDone() && !p2q))
                       && (apath == 3 || (path3.IsDone() && !p3q))
                    then FinishIrq(old(gs)) else old(gs)
      ensures Follows(old(gs), gs) && gs.queued == old(gs.queued)
    {
      hide GifPath.Resting, GifPath.Valid, Gs.NoSignalLost, SpanFrom, UnderMask, FinishIrq, Follows, OthersFinished;
      assert path1.KeepsData() && path2.KeepsData() && path3.KeepsData();
      FlushKept(curPath, t, u, sent);
      RaiseFinish();
    }

    method RaiseFinish()
      requires Valid()
      modifies this`gs
      ensures Valid() && Follows(old(gs), gs) && gs.queued == old(gs.queued)
      ensures gs == if (apath == 1 || (path1.IsDone() && !p1q)) && (apath == 2 || (path2.IsDone() && !p2q))
                       && (apath == 3 || (path3.IsDone() && !p3q))
                    then FinishIrq(old(gs)) else old(gs)
    {
      hide GifPath.Resting, Gs.NoSignalLost, FinishIrq, Follows;
      FollowsSelf(gs);
      if OthersFinished(1, p1q) && OthersFinished(2, p2q) && OthersFinished(3, p3q) {
        FinishKeepsSignals(gs);
        gs := FinishIrq(gs);
      }
    }

    /** FlushToMTGS, if the path that ran last has no data left. */
    method FlushKept(curPath: nat, ghost t: Tag, ghost u: seq<byte>, ghost sent: seq<byte>)
      requires Valid() && Path3Track(t, u, sent) && Settled()
      modifies Path(apath)
      ensures Valid() && Path3Track(t, u, sent) && Settled()
      ensures apath != 3 ==> path3.packSize == old(path3.packSize)
      ensures path1.KeepsData() && path2.KeepsData() && path3.KeepsData()
    {
      hide GifPath.Resting, GifPath.Valid, Gs.NoSignalLost, SpanFrom, UnderMask;
      if Path(curPath + 1).curOffset == Path(curPath + 1).curSize {
        FlushToMTGS();
      }
    }

    static lemma PlusZero(r: Option<nat>)
      ensures Plus(0, r) == r
    {
    }
  
    // ---- Transfers and acknowledges ----

    /** May a transfer of this type start now? Path 1 always may: it only queues its request. */
    predicate Accepts(kind: TransferType)
      reads this, path3
    {
      match kind
      case XgKick => true
      case Direct => CanDoPath2()
      case DirectHL => CanDoPath2HL()
      case Dma => CanDoPath3()
      case Fifo => true
    }

    static function For3(kind: TransferType, data: seq<byte>): seq<byte> {
      if kind.PathOf() == 3 then data else []
    }

    /** Returns how many bytes were taken. A path's buffer must be able to hold its current packet
        and the new data. */
    method TransferGSPacketData(kind: TransferType, data: seq<byte>) returns (taken: int)
      requires Valid()
      requires var p := Path(kind.PathOf()); p.curSize - p.packOffset + |data| <= p.buffer.Length
      modifies this`gs, this`apath, this`p1q, this`p2q, this`p3q, this`ip3, this`oph,
               path1, path1.buffer, path2, path2.buffer, path3, path3.buffer
      ensures Valid()
      ensures Follows(old(gs), gs)
      ensures data == [] || !old(Accepts(kind)) ==>
        gs == old(gs) && apath == old(apath) &&
        taken == 0 && path1.sent == old(path1.sent) && path2.sent == old(path2.sent) && path3.sent == old(path3.sent)
      // who may start, from the unit's registers: no one while it is paused, turned round or stalled, except
      // that VU1's data is always taken; DIRECT may come between the images of an intermittent path 3
      ensures data != [] && kind == XgKick ==>
        taken == |data| && path1.sent == old(path1.sent) + data && path2.sent == old(path2.sent)
      ensures data != [] && (kind == Direct || kind == DirectHL) && taken != 0 ==>
        taken == |data| && path2.sent == old(path2.sent) + data && path1.sent == old(path1.sent)
      // VU1's data leaves a request where it has to wait for another path's packet, and only there
      ensures data != [] && kind == XgKick && (old(pse || dir || gs.queued) || old(Blocked())) ==> p1q
      ensures kind == XgKick && !old(p1q || pse || dir || gs.queued) ==>
        (old(apath) < 2 || (old(apath) == 3 && imt && old(path3.state) == OnImage) ==> !p1q)
      ensures data != [] && kind == Direct ==>
        taken == if !old(pse || dir || gs.queued)
                    && (old(apath) == 0 || old(apath) == 2
                        || (old(apath) == 3 && old(imt) && old(path3.state) == OnImage))
                 then |data| else 0
      ensures data != [] && kind == DirectHL ==>
        taken == if !old(pse || dir || gs.queued) && (old(apath) == 0 || old(apath) == 2) then |data| else 0
      ensures data != [] && kind == Dma && !old(m3r || m3p) ==>
        taken == if !old(pse || dir || gs.queued) && (old(apath) == 0 || old(apath) == 3) then |data| else 0
      ensures data != [] && kind == Dma && old(m3r || m3p) ==>
        if !old(pse || dir || gs.queued) && (old(apath) == 3 ||
             (old(apath) == 0 && old(path3.state) != Idle && old(path3.state) != Wait))
        then
          && 0 <= |old(path3.sent)| + taken <= |old(path3.sent)| + |data|
          && path3.sent == (old(path3.sent) + data)[..|old(path3.sent)| + taken]
        else taken == 0 && path3.sent == old(path3.sent)
      // a transfer that must wait leaves its request, except that a masked path 3 asks for nothing
      ensures data != [] && !old(Accepts(kind)) && kind.PathOf() == 2 ==> p2q
      ensures data != [] && !old(Accepts(kind)) && kind.PathOf() == 3 ==> p3q == (old(p3q) || !old(Path3Masked()))
      ensures data != [] && old(Accepts(kind)) && kind.PathOf() != 3 ==>
        && taken == |data| && Path(kind.PathOf()).sent == old(Path(kind.PathOf()).sent) + data
        && Path(3 - kind.PathOf()).sent == old(Path(3 - kind.PathOf()).sent)
      ensures data != [] && old(Accepts(kind)) && kind == Dma ==>
        && path1.sent == old(path1.sent) && path2.sent == old(path2.sent)
        && 0 <= |old(path3.sent)| + taken <= |old(path3.sent)| + |data|
        && path3.sent == (old(path3.sent) + data)[..|old(path3.sent)| + taken]
        && (old(SpanFrom(path3.tag, path3.Unparsed())) == None ==> taken > 0)
        && (old(|path3.Unparsed()|) % 16 == 0 && |data| % 16 == 0 ==> taken % 16 == 0)
      ensures data != [] && old(Accepts(kind)) && kind == Dma && !Masked() ==> taken == |data|
      ensures kind.PathOf() != 3 && !Masked() ==> path3.sent == old(path3.sent)
      ensures taken >= -old(|path3.Unparsed()|)
      // whatever is transferred, path 3 loses exactly what lies behind a packet that ends under a mask
      ensures data != [] && old(Accepts(kind)) && kind != Dma ==>
        if old(CanDoGif()) then
          Path3Track(old(path3.tag), old(path3.Unparsed()) + For3(kind, data), old(path3.sent) + For3(kind, data))
        else path3.sent == old(path3.sent) + For3(kind, data)
      ensures data != [] && kind == Fifo ==>
        && path1.sent == old(path1.sent) && path2.sent == old(path2.sent) && taken == |data|
        && (!Masked() ==> path3.sent == old(path3.sent) + data)
      // where path 3 is next, its parser says beforehand how much a masked transfer takes
      ensures data != [] && kind == Dma && Masked() && old(Path3Turn()) ==>
        taken == if old(CallWith(data)).ending == Done
                 then old(CallWith(data)).used - old(|path3.Unparsed()|)
                 else |data|
      ensures data != [] && kind == Dma &&
              old(Path3Turn() && path1.IsDone() && path2.IsDone() && CallWith(data).ending == Starved) ==>
        Path3Waits(old(CallWith(data)), (old(path3.Unparsed()) + data)[old(CallWith(data)).used..])
      // data that comes in while the unit is paused waits in the path
      ensures data != [] && kind == Fifo && !old(CanDoGif()) ==>
        && gs == old(gs) && apath == old(apath) && path3.P() == old(path3.P())
        && path3.Unparsed() == old(path3.Unparsed()) + data
    {
      hide GifPath.Resting, GifPath.Valid, Gs.NoSignalLost, SpanFrom, UnderMask, CallWith, Path3Waits, Exec;
      TurnRuns();
      if data == [] {
        return 0;
      }
      if kind == Dma && !CanDoPath3() {
        if !Path3Masked() {
          p3q := true;
        }
        return 0;
      }
      if kind == XgKick && !CanDoPath1() {
        p1q := true;
      }
      if kind == Direct && !CanDoPath2() {
        p2q := true;
        return 0;
      }
      if kind == DirectHL && !CanDoPath2HL() {
        p2q := true;
        return 0;
      }
      var rewound := CopyAndExecute(kind, data);
      taken := |data| - rewound;
    }

    /** Path 2 or 3 is in the middle of a packet, and cannot step aside. */
    ghost predicate Blocked()
      reads this`apath, this`imt, path2, path2.buffer, path3, path3.buffer
    {
      || (apath == 2 && SpanFrom(path2.tag, path2.Unparsed()) == None)
      || (apath == 3 && !imt && SpanFrom(path3.tag, path3.Unparsed()) == None)
    }

    /** The parser call that path 3 makes first once `data` has come in, if it is the next path to run. */
    ghost function CallWith(data: seq<byte>): (o: Outcome)
      requires path3.Resting()
      reads this`gs, path3, path3.buffer
    {
      Exec(path3.P(), gs, path3.Unparsed() + data)
    }

    /** New data for path 3 would be looked at first. */
    ghost predicate Path3Turn()
      reads this, path1, path2, path3
    {
      CanDoPath3() && (apath == 3 || (path1.IsDone() && path2.IsDone()))
    }

    lemma TurnRuns()
      ensures Path3Turn() ==> CanDoPath3()
    {
    }

    /** The copy of a transfer's data into its path. */
    method CopyIn(kind: TransferType, data: seq<byte>)
      requires Valid()
      requires var p := Path(kind.PathOf()); p.curSize - p.packOffset + |data| <= p.buffer.Length
      modifies Path(kind.PathOf()), Path(kind.PathOf()).buffer
      ensures Valid()
      ensures Path(kind.PathOf()).sent == old(Path(kind.PathOf()).sent) + data
      ensures kind.PathOf() != 3 ==> Path(3 - kind.PathOf()).sent == old(Path(3 - kind.PathOf()).sent)
      ensures kind.PathOf() == 3 ==> path1.sent == old(path1.sent) && path2.sent == old(path2.sent)
      ensures path3.sent == old(path3.sent) + For3(kind, data)
      ensures path3.Unparsed() == old(path3.Unparsed()) + For3(kind, data)
      ensures path3.P() == old(path3.P())
      ensures kind == Dma && data != [] ==>
        && Path3Call() == old(CallWith(data)) && (old(Path3Turn()) ==> Path3Next())
        && path1.IsDone() == old(path1.IsDone()) && path2.IsDone() == old(path2.IsDone())
    {
      hide GifPath.Valid, Gs.NoSignalLost, Exec, Running;
      ghost var x, s := path3.Unparsed(), path3.sent;
      assert x + [] == x && s + [] == s;
      Path(kind.PathOf()).CopyGSPacketData(data);
      HasData();
    }

    lemma HasData()
      requires path3.Resting()
      ensures path3.Unparsed() != [] ==> !path3.IsDone()
    {
    }

    method CopyAndExecute(kind: TransferType, data: seq<byte>) returns (rewound: nat)
      requires Valid()
      requires var p := Path(kind.PathOf()); p.curSize - p.packOffset + |data| <= p.buffer.Length
      requires kind == Dma ==> CanDoGif()
      modifies this`gs, this`apath, this`p1q, this`p2q, this`p3q, this`ip3, this`oph,
               path1, path1.buffer, path2, path2.buffer, path3, path3.buffer
      ensures Valid() && (kind != Dma ==> rewound == 0) && Follows(old(gs), gs)
      ensures (p1q ==> old(p1q)) && (old(pse || dir || gs.queued) ==> p1q == old(p1q))
      ensures kind == XgKick && old(Blocked()) ==> p1q == old(p1q)
      ensures kind.PathOf() != 3 ==>
        && Path(kind.PathOf()).sent == old(Path(kind.PathOf()).sent) + data
        && Path(3 - kind.PathOf()).sent == old(Path(3 - kind.PathOf()).sent)
      ensures kind.PathOf() == 3 ==> path1.sent == old(path1.sent) && path2.sent == old(path2.sent)
      ensures kind == Fifo && !Masked() ==> path3.sent == old(path3.sent) + data
      ensures kind == Dma && !Masked() ==> rewound == 0
      ensures rewound <= old(|path3.Unparsed()|) + |data|
      ensures kind != Dma ==>
        if old(CanDoGif()) then
          Path3Track(old(path3.tag), old(path3.Unparsed()) + For3(kind, data), old(path3.sent) + For3(kind, data))
        else path3.sent == old(path3.sent) + For3(kind, data)
      ensures kind.PathOf() != 3 && !Masked() ==> path3.sent == old(path3.sent)
      ensures kind == Dma ==>
        && rewound <= |old(path3.sent)| + |data|
        && path3.sent == (old(path3.sent) + data)[..|old(path3.sent)| + |data| - rewound]
        && (old(SpanFrom(path3.tag, path3.Unparsed())) == None && data != [] ==> rewound < |data|)
        && (old(|path3.Unparsed()|) % 16 == 0 && |data| % 16 == 0 ==> rewound % 16 == 0)
      ensures kind == Dma && data != [] && Masked() && old(Path3Turn()) ==>
        rewound == GivenBack(old(CallWith(data)), old(|path3.Unparsed()|) + |data|)
      ensures kind == Dma && data != [] &&
              old(Path3Turn() && path1.IsDone() && path2.IsDone() && CallWith(data).ending == Starved) ==>
        Path3Waits(old(CallWith(data)), (old(path3.Unparsed()) + data)[old(CallWith(data)).used..])
      ensures kind == Fifo && !old(CanDoGif()) ==>
        && gs == old(gs) && apath == old(apath) && path3.P() == old(path3.P())
        && path3.Unparsed() == old(path3.Unparsed()) + data
    {
      hide GifPath.Resting, GifPath.Valid, Gs.NoSignalLost, SpanFrom, Exec, Follows, Settled;
      hide Path3Call, CallWith, Path3Next, Path3Turn, Path3Waits, GivenBack;
      ghost var t, x, s := path3.tag, path3.Unparsed(), path3.sent;
      CopyIn(kind, data);
      rewound := Execute(kind == Dma);
      if kind == Dma && Masked() {
        MaskedTransfer(t, x, s, data, path3.tag, path3.Unparsed(), path3.sent, path3.dmaRewind);
      }
      hide UnderMask;
      assert kind == Dma ==> (s + data)[..|s| + |data|] == s + data;
    }

    /** What it means for one DMA transfer: the kept part, its amount, and that it is in quadwords. */
    static lemma MaskedTransfer(t: Tag, x: seq<byte>, s: seq<byte>, data: seq<byte>,
                                t': Tag, rest: seq<byte>, sent': seq<byte>, rewind: nat)
      requires UnderMask(t, x + data, s + data, t', rest, sent', rewind)
      ensures rewind <= |x| + |data| && rewind <= |s| + |data| && sent' == (s + data)[..|s| + |data| - rewind]
      ensures SpanFrom(t, x) == None && data != [] ==> rewind < |data|
      ensures |x| % 16 == 0 && |data| % 16 == 0 ==> rewind % 16 == 0
    {
      hide SpanFrom;
      SpanFromPrefix(t, x, data);
      SpanFromAligned(t, x + data);
      assert (s + data)[..|s + data|] == s + data;
    }

    /** gifCheckPathStatus as the GIF DMA interrupt calls it: a finished path-3 packet has had its time,
        path 3 makes way, and the other paths go on if they have something to do. */
    method InterruptCheck()
      requires Valid()
      modifies this`gs, this`apath, this`p1q, this`p2q, this`p3q, this`ip3, this`oph,
               path1, path1.buffer, path2, path2.buffer, path3, path3.buffer
      ensures Valid() && path1.sent == old(path1.sent) && path2.sent == old(path2.sent)
      ensures Follows(old(gs), gs) && (!Masked() ==> path3.sent == old(path3.sent))
      ensures var others := old(apath) == 3 && (old(path3.state) == Idle || old(path3.state) == Wait)
                            && !(old(path1.IsDone()) && old(path2.IsDone()));
              if others && old(CanDoGif()) then
                Settled() && Path3Track(old(path3.tag), old(path3.Unparsed()), old(path3.sent))
              else
                && apath == (if old(apath) == 3 then 0 else old(apath)) && gs == old(gs)
                && path3.sent == old(path3.sent)
                && path3.state == if old(path3.state) == Wait then Idle else old(path3.state)
    {
      hide GifPath.Resting, GifPath.Valid, Gs.NoSignalLost, SpanFrom, UnderMask, Follows, Settled;
      FollowsSelf(gs);
      path3.EndWait();
      if apath == 3 {
        apath, oph := 0, false;
        if path3.state == Idle || path3.state == Wait {
          if !path1.IsDone() || !path2.IsDone() {
            var rewound := Execute(false);
          }
        }
      }
    }

    /** A write to GS_CSR with these bits set: reset, then the SIGNAL acknowledge, which resumes the
        paths if a SIGNAL had been raised, then the FINISH acknowledge. */
    method CsrWrite(reset: bool, signal: bool, finish: bool) returns (ghost resumed: Gs)
      requires Valid()
      modifies this`gs, this`apath, this`p1q, this`p2q, this`p3q, this`ip3, this`oph,
               path1, path1.buffer, path2, path2.buffer, path3, path3.buffer
      ensures Valid() && path1.sent == old(path1.sent) && path2.sent == old(path2.sent)
      ensures var start := if reset then RESET_GS else old(gs);
              var acked := if signal then SignalAck(start) else start;
              && Follows(acked, resumed) && (!(signal && start.csrSignal) ==> resumed == acked)
              && gs == if finish then FinishAck(resumed) else resumed
      ensures var runs := signal && (if reset then RESET_GS else old(gs)).csrSignal && !pse && !dir;
              if runs
              then Path3Track(old(path3.tag), old(path3.Unparsed()), old(path3.sent))
              else path3.sent == old(path3.sent)
      ensures !Masked() ==> path3.sent == old(path3.sent)
    {
      hide GifPath.Resting, GifPath.Valid, Gs.NoSignalLost, SpanFrom, UnderMask, SignalAck, FinishAck, PacketThere;
      hide GifPath.Unparsed, GifPath.IsDone, Settled, Path3Call, OthersFinished, Untouched, Waiting;
      if reset {
        ResetKeepsSignals();
        gs := RESET_GS;
      }
      if signal {
        var resume := gs.csrSignal;
        SignalAckKeepsSignals(gs);
        gs := SignalAck(gs);
        if resume {
          var rewound := Execute(false);
        }
      }
      resumed := gs;
      if finish {
        FinishAckKeepsSignals(gs);
        gs := FinishAck(gs);
      }
    }
  }
}
