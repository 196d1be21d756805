/** The 16-quadword FIFO in front of path 3, filled by the DMA and emptied into the GIF unit. */
module GifFifos {
  import opened Basics
  import opened GifParser
  import opened GifUnits
  import opened GsSignals

  const WRAP := 0x1_0000_0000

  class GifFifo {
    const unit: GifUnit
    const data: array<byte>
    var fifoSize: nat

    ghost predicate Valid()
      reads this
    {
      && data.Length == 256 && fifoSize <= 16
      && data != unit.path1.buffer && data != unit.path2.buffer && data != unit.path3.buffer
    }

    ghost function Contents(): seq<byte>
      reads this, data
    {
      if 16 * fifoSize <= data.Length then data[..16 * fifoSize] else []
    }

    constructor (unit: GifUnit)
      ensures Valid() && fifoSize == 0 && this.unit == unit && fresh(data)
    {
      this.unit := unit;
      data := new byte[256];
      fifoSize := 0;
    }

    /** Takes as many of the `size` quadwords as fit. */
    method WriteFifo(mem: seq<byte>, size: nat) returns (n: nat)
      requires Valid() && |mem| >= 16 * size
      modifies this`fifoSize, data
      ensures Valid() && n == (if size <= 16 - old(fifoSize) then size else 16 - old(fifoSize))
      ensures Contents() == old(Contents()) + mem[..16 * n]
    {
      if fifoSize == 16 {
        return 0;
      }
      n := if size < 16 - fifoSize then size else 16 - fifoSize;
      var writePos := fifoSize * 16;
      forall i | 0 <= i < n * 16 {
        data[writePos + i] := mem[i];
      }
      fifoSize := fifoSize + n;
    }

    method CopyQWC(dst: nat, src: nat)
      requires dst + 16 <= data.Length && src + 16 <= data.Length
      modifies data
      ensures forall k | dst <= k < dst + 16 :: data[k] == old(data[k - dst + src])
      ensures forall k | 0 <= k < data.Length && !(dst <= k < dst + 16) :: data[k] == old(data[k])
    {
      forall i | 0 <= i < 16 {
        data[dst + i] := data[src + i];
      }
    }

    /** Moves the `count` quadwords after the first `skip` to the front. */
    method ShiftDown(skip: nat, count: nat)
      requires 0 < skip && 16 * (skip + count) <= data.Length
      modifies data
      ensures data[..16 * count] == old(data[16 * skip..16 * (skip + count)])
    {
      ghost var was := data[..];
      for i := 0 to count
        invariant forall k | 0 <= k < 16 * i :: data[k] == was[k + 16 * skip]
        invariant forall k | 16 * i <= k < data.Length :: data[k] == was[k]
      {
        CopyQWC(16 * i, 16 * skip + 16 * i);
      }
      assert data[..16 * count] == was[16 * skip..16 * (skip + count)];
    }

    /** What is left of the FIFO's bytes after `taken` of them, in quadwords, as the source counts them: a
        negative amount wraps around in 32 bits and empties the FIFO. */
    static function LeftOver(bytes: seq<byte>, taken: int): seq<byte> {
      var n := taken % WRAP / 16;
      if 16 * n <= |bytes| then bytes[16 * n..] else []
    }

    /** What a read takes, by the parser: all of it, or, under a mask, what completes path 3's packet. A
        packet that was complete before the FIFO's bytes makes this negative. */
    ghost function Taken(): int
      requires unit.Valid()
      reads this, data, unit, unit.path1, unit.path1.buffer, unit.path2, unit.path2.buffer, unit.path3,
            unit.path3.buffer
    {
      var o := unit.CallWith(Contents());
      if unit.Masked() && o.ending == Done then o.used - |unit.path3.Unparsed()| else |Contents()|
    }

    /** Offers the FIFO's contents to path 3 and keeps what it did not take. Every byte is then either in
        path 3's stream or still in the FIFO, once and in order, if and only if path 3 gave back no more
        than it was offered, in whole quadwords; where path 3 is next to run, that is decided by what its
        parser makes of its own data and the FIFO's. */
    method ReadFifo() returns (sizeRead: nat, ghost taken: int)
      requires Valid() && unit.Valid()
      requires unit.path3.curSize - unit.path3.packOffset + 16 * fifoSize <= unit.path3.buffer.Length
      modifies this`fifoSize, data, unit`gs, unit`apath, unit`p1q, unit`p2q, unit`p3q, unit`ip3, unit`oph,
               unit.path1, unit.path1.buffer, unit.path2, unit.path2.buffer, unit.path3, unit.path3.buffer
      ensures Valid() && unit.Valid() && unit.path1.sent == old(unit.path1.sent)
      ensures unit.path2.sent == old(unit.path2.sent)
      ensures !(old(fifoSize) > 0 && old(unit.CanDoPath3())) ==> sizeRead == taken == 0
      ensures sizeRead == taken % WRAP / 16
      ensures taken <= |old(Contents())| && Contents() == LeftOver(old(Contents()), taken)
      ensures |old(unit.path3.sent)| + taken >= 0
      ensures unit.path3.sent == (old(unit.path3.sent) + old(Contents()))[..|old(unit.path3.sent)| + taken]
      ensures unit.path3.sent + Contents() == old(unit.path3.sent + Contents()) <==> taken >= 0 && taken % 16 == 0
      ensures old(fifoSize) > 0 && old(unit.CanDoPath3()) ==>
        && (!unit.Masked() ==> taken == 16 * old(fifoSize))
        && (old(SpanFrom(unit.path3.tag, unit.path3.Unparsed())) == None ==> taken > 0)
        && (old(|unit.path3.Unparsed()|) % 16 == 0 ==> taken % 16 == 0)
      ensures old(fifoSize) > 0 && old(unit.Path3Turn()) ==>
        && taken == old(Taken())
        && (unit.path3.sent + Contents() == old(unit.path3.sent + Contents()) <==>
          old(Taken()) >= 0 && old(Taken()) % 16 == 0)
    {
      hide GifUnit.Valid, GifUnit.Path3Track, Follows, SpanFrom, LeftOver, GifUnit.CallWith, GifUnit.Path3Waits;
      unit.TurnRuns();
      LeftAll(Contents());
      if fifoSize == 0 || !unit.CanDoPath3() {
        assert unit.path3.sent == (unit.path3.sent + Contents())[..|unit.path3.sent|];
        return 0, 0;
      }
      ghost var all, sent := Contents(), unit.path3.sent;
      Sizes();
      var n := unit.TransferGSPacketData(Dma, data[..16 * fifoSize]);
      taken := n;
      sizeRead := KeepRest(n);
      Conserved(sent, all, n);
    }

    /** The shift behind a transfer of n bytes. */
    method KeepRest(n: int) returns (sizeRead: nat)
      requires Valid() && -9 * MB <= n <= 16 * fifoSize
      modifies this`fifoSize, data
      ensures Valid() && sizeRead == n % WRAP / 16 && Contents() == LeftOver(old(Contents()), n)
    {
      sizeRead := n % WRAP / 16;
      Wrapped(n, fifoSize);
      if sizeRead < fifoSize {
        if sizeRead > 0 {
          ShiftDown(sizeRead, fifoSize - sizeRead);
          fifoSize := fifoSize - sizeRead;
        }
      } else {
        fifoSize := 0;
      }
    }

    static lemma LeftAll(bytes: seq<byte>)
      ensures LeftOver(bytes, 0) == bytes
    {
    }

    lemma Sizes()
      requires unit.Valid()
      ensures |unit.path3.Unparsed()| <= 9 * MB
    {
    }

    static lemma Wrapped(n: int, size: nat)
      requires -9 * MB <= n <= 16 * size && size <= 16
      ensures if n >= 0 then n % WRAP == n && n / 16 <= size else n % WRAP / 16 > size
    {
    }

    static lemma Conserved(sent: seq<byte>, all: seq<byte>, taken: int)
      requires |sent| + taken >= 0 && -9 * MB <= taken <= |all| <= 256
      ensures (sent + all)[..|sent| + taken] + LeftOver(all, taken) == sent + all <==> taken >= 0 && taken % 16 == 0
    {
      Wrapped(taken, 16);
      var kept := (sent + all)[..|sent| + taken];
      if taken >= 0 && taken % 16 == 0 {
        assert kept == sent + all[..taken] && all == all[..taken] + all[taken..];
      } else {
        assert |kept + LeftOver(all, taken)| != |sent + all|;
      }
    }
  }
}
