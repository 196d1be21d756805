/** A path on which a soft reset lets a packet be overwritten before it has been read. */
module GifResetCase {
  import opened Basics
  import opened GifTags
  import opened GsSignals
  import opened GifParser
  import opened GifLayout
  import opened GifSoftReset
  import opened GifResetHazard
  import opened GifPaths

  /** What one DMA transfer can bring at most: 65535 quadwords. */
  const TRANSFER := MB - 16

  /** An IMAGE tag of n quadwords with its data. */
  function ImagePiece(n: nat, eop: bool): (d: seq<byte>)
    requires n < 0x8000
    ensures |d| == 16 + 16 * n
  {
    seq(16 + 16 * n, i =>
      if i == 0 then n % 256 else if i == 1 then n / 256 + (if eop then 128 else 0) else if i == 7 then 8 else 0)
  }

  lemma ImagePieceIs(n: nat, eop: bool)
    requires n < 0x8000
    ensures var d := ImagePiece(n, eop);
            Flg(d[..16]) == Image && Eop(d[..16]) == eop && DataLen(d[..16]) == 16 * n
  {
    var d := ImagePiece(n, eop)[..16];
    assert d[0] == n % 256 && d[1] == n / 256 + (if eop then 128 else 0) && d[7] == 8;
  }

  /** The first tag of a packet that goes on goes through the path. */
  method Begin(path: GifPath, gs: Gs)
    requires path.Resting() && path.Bounds() && !path.tag.isValid && path.Unparsed() == []
    requires path.readAmount <= path.packOffset
    requires path.curSize + 16 <= path.buffLimit
    modifies path, path.buffer
    ensures path.Resting() && path.Bounds() && !path.tag.isValid && path.Unparsed() == []
    ensures path.ring == old(path.ring) && path.curSize == old(path.curSize) + 16
    ensures path.packOffset == old(path.packOffset) && path.packSize == old(path.packSize) + 16
  {
    hide Stream, Total, Exec, ImagePiece, Flg, DataLen, Eop;
    var d := ImagePiece(0, false);
    ImagePieceIs(0, false);
    assert path.Unparsed() + d == d;
    path.CopyGSPacketData(d);
    ImageExec(path.P(), gs, d);
    var gs', done, offset, size, o := path.ExecuteGSPacket(gs, false, false);
  }

  /** A complete packet of one tag goes through the path and is submitted. */
  method Submit(path: GifPath, gs: Gs)
    requires path.Resting() && path.Bounds() && path.P() == FRESH && path.Unparsed() == [] && path.ring == []
    requires path.curSize == 0 && path.buffLimit >= 16
    modifies path, path.buffer
    ensures path.Resting() && path.Bounds() && !path.tag.isValid && path.Unparsed() == [] && path.curSize == 16
    ensures path.ring == [Data(0, 16)] && path.packOffset == 16 && path.packSize == 0 && path.readAmount == 16
  {
    hide Stream, Total, Exec, ImagePiece, Flg, DataLen, Eop;
    var d := ImagePiece(0, true);
    ImagePieceIs(0, true);
    assert path.Unparsed() + d == d;
    NothingUnread(path);
    path.CopyGSPacketData(d);
    ImageExec(path.P(), gs, d);
    var gs', done, offset, size, o := path.ExecuteGSPacket(gs, false, false);
    path.AddCompletedGSPacket(offset, size);
    SubmittedIs(path);
  }

  lemma NothingUnread(path: GifPath)
    requires path.Valid() && path.ring == []
    ensures path.readAmount == 0
  {
  }

  lemma SubmittedIs(path: GifPath)
    requires path.Valid() && path.ring == [Data(0, 16)]
    ensures path.readAmount == 16
  {
    TotalOfOne(path.ring[0]);
    assert path.ring == [path.ring[0]];
  }

  lemma TotalOfOne(e: Entry)
    ensures Total([e]) == e.size
  {
    assert [e][1..] == [];
  }

  lemma HazardHere(f: Frame)
    requires f == Frame(9 * MB - (MB + KB), 9 * MB, TRANSFER)
    ensures f.Ok() && Quadwords([Data(0, 16)]) && Whole(16) && Hazard([Data(0, 16)], 16, 16, f)
  {
    TotalOfOne(Data(0, 16));
    assert [Data(0, 16)][1..] == [];
  }

  /** With the buffer sizes of the source, and nothing out of the ordinary before it: a submitted packet of
      one tag is still unread when a soft reset drops the first tag of the next packet. The steps that can
      follow include one that writes over the unread tag. */
  method OverwrittenBeforeRead(gs: Gs) returns (path: GifPath)
    ensures path.buffer.Length == 9 * MB && path.buffLimit == 9 * MB - (MB + KB)
    ensures path.ring == [Data(0, 16)] && path.curOffset == path.curSize == 32 && path.P() == FRESH
    ensures CanHarm(Place(path.ring, path.curOffset, path.curOffset), path.Geometry(TRANSFER))
  {
    hide GifPath.Valid, Stream, Total, Exec, CanHarm, Hazard, Quadwords, Whole;
    path := new GifPath(9 * MB, MB + KB);
    Submit(path, gs);
    Begin(path, gs);
    HazardHere(path.Geometry(TRANSFER));
    path.SoftReset(TRANSFER);
  }
}
