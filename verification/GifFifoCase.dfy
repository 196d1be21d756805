/** Bytes that are lost when path 3's FIFO is read under a mask. */
module GifFifoCase {
  import opened Basics
  import opened GifTags
  import opened GsSignals
  import opened GifParser
  import opened GifPaths
  import opened GifUnits
  import opened GifFifos
  import opened GifResetCase

  /** The rest of path 3's packet, the first tag of the next, and what the FIFO adds behind them. */
  const END_TAG: seq<byte> := ImagePiece(0, true)
  const NEXT_TAG: seq<byte> := ImagePiece(0, false)

  lemma FirstTag(p: Parser, gs: Gs)
    requires Running(p) && !p.tag.isValid
    ensures var o := Exec(p, gs, NEXT_TAG);
            o.ending == Starved && o.used == 16 && o.gs == gs && o.p.state == OnImage && !o.p.tag.isValid
  {
    ImagePieceIs(0, false);
    hide Exec;
    ImageExec(p, gs, NEXT_TAG);
  }

  lemma EndThenMore(p: Parser, gs: Gs, more: seq<byte>)
    requires Running(p) && !p.tag.isValid
    ensures var o := Exec(p, gs, END_TAG + more); o.ending == Done && o.used == 16
  {
    ImagePieceIs(0, true);
    hide Exec;
    ImageExec(p, gs, END_TAG);
    ExecExtends(p, gs, END_TAG, more);
  }

  /** A path-3 packet has begun; the unit is paused while a FIFO write brings its last tag and the next
      packet's first one; then path 3 is masked, the pause ends and the FIFO is read. */
  method LosesBytes() returns (fifo: GifFifo, sizeRead: nat, ghost taken: int)
    ensures fifo.Valid() && fifo.unit.Valid() && taken == -16
    ensures fifo.Contents() == [] && |fifo.unit.path3.sent| == 32
  {
    hide GifUnit.Valid, GifUnit.CallWith, Exec, ImagePiece, GifUnit.Path3Track;
    var unit := new GifUnit();
    fifo := new GifFifo(unit);
    Started(unit);
    Paused(unit);
    Filled(fifo);
    sizeRead, taken := Resumed(fifo);
  }

  method Started(unit: GifUnit)
    requires unit.Valid() && unit.gs == RESET_GS && unit.apath == 0 && unit.CanDoGif() && !unit.Masked()
    requires unit.path1.IsDone() && unit.path2.IsDone() && unit.path3.P() == FRESH && unit.path3.Unparsed() == []
    requires unit.path3.sent == []
    modifies unit, unit.path1, unit.path1.buffer, unit.path2, unit.path2.buffer, unit.path3, unit.path3.buffer
    ensures unit.Valid() && unit.apath == 3 && unit.CanDoGif() && !unit.Masked() && |unit.path3.sent| == 16
    ensures !unit.path3.tag.isValid && unit.path3.Unparsed() == []
  {
    hide GifUnit.Valid, GifUnit.CallWith, Exec, ImagePiece, GifUnit.Path3Track, Follows, SpanFrom;
    Small(unit);
    Begins(unit);
    var taken := unit.TransferGSPacketData(Dma, NEXT_TAG);
  }

  lemma Small(unit: GifUnit)
    requires unit.Valid()
    ensures unit.path3.curSize - unit.path3.packOffset <= |unit.path3.sent| && unit.path3.buffer.Length == 9 * MB
    ensures unit.path3.Resting() && Running(unit.path3.P())
  {
    unit.path3.ShortPacket();
  }

  lemma Begins(unit: GifUnit)
    requires unit.Valid() && unit.path3.Unparsed() == [] && !unit.path3.tag.isValid
    ensures var o := unit.CallWith(NEXT_TAG);
            && o.ending == Starved && o.used == 16 && o.gs == unit.gs && !o.p.tag.isValid && o.p.state == OnImage
            && (unit.path3.Unparsed() + NEXT_TAG)[o.used..] == []
  {
    hide GifPath.Valid, Exec, ImagePiece;
    assert unit.path3.Unparsed() + NEXT_TAG == NEXT_TAG;
    FirstTag(unit.path3.P(), unit.gs);
  }

  method Paused(unit: GifUnit)
    requires unit.Valid() && unit.apath == 3 && unit.CanDoGif() && !unit.Masked() && |unit.path3.sent| == 16
    requires !unit.path3.tag.isValid && unit.path3.Unparsed() == []
    modifies unit, unit.path1, unit.path1.buffer, unit.path2, unit.path2.buffer, unit.path3, unit.path3.buffer
    ensures unit.Valid() && unit.apath == 3 && unit.CanDoGif() && !unit.Masked() && |unit.path3.sent| == 48
    ensures !unit.path3.tag.isValid && unit.path3.Unparsed() == END_TAG + NEXT_TAG
  {
    hide GifUnit.Valid, GifUnit.CallWith, Exec, ImagePiece, GifUnit.Path3Track, Follows, SpanFrom;
    Small(unit);
    Pause(unit, true);
    var taken := unit.TransferGSPacketData(Fifo, END_TAG + NEXT_TAG);
    Pause(unit, false);
    assert [] + (END_TAG + NEXT_TAG) == END_TAG + NEXT_TAG;
  }

  /** GIF_CTRL.PSE */
  method Pause(unit: GifUnit, on: bool)
    requires unit.Valid()
    modifies unit`pse
    ensures unit.Valid() && unit.pse == on
  {
    hide GifPath.Resting, Gs.NoSignalLost;
    unit.pse := on;
  }

  /** GIF_MODE.M3R */
  method Mask(unit: GifUnit)
    requires unit.Valid()
    modifies unit`m3r
    ensures unit.Valid() && unit.m3r
  {
    hide GifPath.Resting, Gs.NoSignalLost;
    unit.m3r := true;
  }

  /** The unit masked, with one more quadword in the FIFO, and ready to run path 3. */
  ghost predicate Ready(fifo: GifFifo)
    reads fifo, fifo.data, fifo.unit, fifo.unit.path1, fifo.unit.path1.buffer, fifo.unit.path2,
          fifo.unit.path2.buffer, fifo.unit.path3, fifo.unit.path3.buffer
  {
    && fifo.Valid() && fifo.fifoSize == 1 && fifo.unit.Valid() && fifo.unit.apath == 3 && fifo.unit.CanDoPath3()
    && fifo.unit.path3.curSize - fifo.unit.path3.packOffset <= |fifo.unit.path3.sent| == 48
    && fifo.unit.path3.buffer.Length == 9 * MB && fifo.Taken() == -16
  }

  method Filled(fifo: GifFifo)
    requires fifo.Valid() && fifo.fifoSize == 0
    requires fifo.unit.Valid() && fifo.unit.apath == 3 && fifo.unit.CanDoGif() && |fifo.unit.path3.sent| == 48
    requires !fifo.unit.path3.tag.isValid && fifo.unit.path3.Unparsed() == END_TAG + NEXT_TAG
    modifies fifo`fifoSize, fifo.data, fifo.unit`m3r
    ensures Ready(fifo)
  {
    hide GifUnit.Valid, GifUnit.CallWith, Exec, ImagePiece;
    var unit := fifo.unit;
    Mask(unit);
    Small(unit);
    var n := fifo.WriteFifo(NEXT_TAG, 1);
    assert fifo.Contents() == NEXT_TAG;
    Ends(unit);
  }

  method Resumed(fifo: GifFifo) returns (sizeRead: nat, ghost taken: int)
    requires Ready(fifo)
    modifies fifo, fifo.data, fifo.unit, fifo.unit.path1, fifo.unit.path1.buffer, fifo.unit.path2,
             fifo.unit.path2.buffer, fifo.unit.path3, fifo.unit.path3.buffer
    ensures fifo.Valid() && fifo.unit.Valid() && taken == -16 && fifo.Contents() == [] && |fifo.unit.path3.sent| == 32
  {
    hide GifUnit.Valid, GifUnit.CallWith, GifUnit.Path3Track, Follows, SpanFrom, GifFifo.Taken, GifFifo.LeftOver;
    sizeRead, taken := fifo.ReadFifo();
    NothingLeft(old(fifo.Contents()));
  }

  lemma NothingLeft(bytes: seq<byte>)
    requires |bytes| <= 256
    ensures GifFifo.LeftOver(bytes, -16) == []
  {
  }

  lemma Ends(unit: GifUnit)
    requires unit.Valid() && unit.path3.Unparsed() == END_TAG + NEXT_TAG && !unit.path3.tag.isValid
    ensures var o := unit.CallWith(NEXT_TAG); o.ending == Done && o.used == 16
  {
    hide GifPath.Valid, Exec, ImagePiece;
    assert END_TAG + NEXT_TAG + NEXT_TAG == END_TAG + (NEXT_TAG + NEXT_TAG);
    EndThenMore(unit.path3.P(), unit.gs, NEXT_TAG + NEXT_TAG);
  }
}
