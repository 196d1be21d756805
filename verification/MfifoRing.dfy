/** The memory FIFO between the scratchpad DMA and the GIF: a ring in main memory whose
    producer wraps its copies and whose consumer takes at most two straight pieces at a
    time (src/Gif.cpp:303-339, 488-691; src/Hw.cpp:125-152; src/SPR.cpp:121-132). */
module MfifoRing {
  import Arith

  datatype Quad = Quad(lo: bv64, hi: bv64)

  /** The quadword count in a tag's lowest bits. */
  function CountOf(tag: Quad): nat { (tag.lo & 0xFFFF) as nat }

  /** Whatever the other bits are. */
  lemma CountIs(count: bv64, others: bv64, hi: bv64)
    requires count <= 0xFFFF
    ensures CountOf(Quad((others << 16) | count, hi)) == count as nat
  {
    LowBits(count, others);
  }

  lemma LowBits(count: bv64, others: bv64)
    requires count <= 0xFFFF
    ensures ((others << 16) | count) & 0xFFFF == count
  {
  }

  // ---- Ring positions ----

  /** Slot j of a ring of n slots, for j up to one turn too far. */
  function Turn(j: nat, n: nat): nat { if j < n then j else j - n }

  /** The `len` quadwords from slot `from` on, in ring order. */
  ghost function From(ring: seq<Quad>, from: nat, len: nat): (q: seq<Quad>)
    requires from < |ring| && len <= |ring|
    ensures |q| == len
  {
    seq(len, i requires 0 <= i < len => ring[Turn(from + i, |ring|)])
  }

  /** Taking k quadwords moves the start of the ring on by k. */
  lemma FromSplits(ring: seq<Quad>, from: nat, len: nat, k: nat)
    requires from < |ring| && k <= len && len <= |ring|
    requires Turn(from + k, |ring|) < |ring|
    ensures From(ring, from, len)[..k] == From(ring, from, k)
    ensures From(ring, from, len)[k..] == From(ring, Turn(from + k, |ring|), len - k)
    ensures from + k <= |ring| ==> From(ring, from, k) == ring[from..from + k]
  {
    var n, all, rest := |ring|, From(ring, from, len), From(ring, Turn(from + k, |ring|), len - k);
    forall i | 0 <= i < len - k ensures all[k..][i] == rest[i] {
      TurnTwice(from, k, i, n);
      assert all[k..][i] == all[k + i] == ring[Turn(from + (k + i), n)];
    }
    assert all[k..] == rest;
    if from + k <= n {
      var piece := From(ring, from, k);
      forall i | 0 <= i < k ensures piece[i] == ring[from..from + k][i] {
        assert piece[i] == ring[Turn(from + i, n)];
      }
    }
  }

  lemma TurnTwice(from: nat, k: nat, i: nat, n: nat)
    requires from < n && k + i <= n
    ensures Turn(Turn(from + k, n) + i, n) == Turn(from + k + i, n)
  {
  }

  lemma TurnAtEnd(n: nat)
    ensures Turn(n, n) == 0
  {
  }

  /** How far up the ring slot j lies from slot w. */
  function Back(w: nat, j: nat, n: nat): nat
    requires w < n
  {
    if j >= w then j - w else j + n - w
  }

  /** A masked address is one turn back if it had run past the end. */
  lemma WrapIs(base: nat, size: nat, a: nat)
    requires size > 0 && base % size == 0 && base <= a < base + 2 * size
    ensures a % size == if a < base + size then a - base else a - base - size
  {
    var k := base / size;
    assert base == k * size by {
      assert base == size * k + base % size;
      Arith.MulCommutes(size, k);
    }
    if a < base + size {
      Arith.DivModUnique(a, k, size, a - base);
    } else {
      Arith.MulDistributes(k, -1, size);
      assert (k + 1) * size == k * size + size by { Arith.MulDistributes(k, 1, size); }
      Arith.DivModUnique(a, k + 1, size, a - base - size);
    }
  }

  lemma LastTurn(end: nat, n: nat)
    requires 0 < n <= end
    ensures end % n <= end - n && (end < 2 * n ==> end % n == end - n)
  {
    if end < 2 * n {
      Arith.DivModUnique(end, 1, n, end - n);
    } else {
      assert end == n * (end / n) + end % n;
    }
  }

  /** Any number of turns. */
  lemma WrapFar(base: nat, x: nat, n: nat)
    requires n > 0 && base % (16 * n) == 0
    ensures (base + 16 * x) % (16 * n) == 16 * (x % n)
  {
    var size, k, q := 16 * n, base / (16 * n), x / n;
    assert base == size * k && x == n * q + x % n;
    Arith.MulCommutes(size, k);
    Arith.MulDistributes(k, q, size);
    assert q * size == 16 * (n * q) by { Scaled(q, n); }
    Arith.DivModUnique(base + 16 * x, k + q, size, 16 * (x % n));
  }

  lemma Scaled(q: int, n: int)
    ensures q * (16 * n) == 16 * (n * q)
  {
  }

  lemma TurnSum(i: nat, m: nat, k: nat, n: nat)
    requires n > 0 && i < n && m < n
    ensures (Turn(i + m, n) + k) % n == Turn(i + (m + k) % n, n) < n
  {
    var q, r := (m + k) / n, (m + k) % n;
    assert m + k == n * q + r;
    Arith.MulCommutes(n, q);
    Arith.MulDistributes(q, 1, n);
    if i + m < n {
      Arith.DivModUnique(i + m + k, if i + r < n then q else q + 1, n, Turn(i + r, n));
    } else {
      Arith.DivModUnique(i + m - n + k, if i + r < n then q - 1 else q, n, Turn(i + r, n));
    }
  }

  // ---- What the GIF side takes of an offered piece ----

  /** The rates at which a piece is handed to the GIF unit. */
  function Offer(q: nat, imt: bool): (o: nat)
    ensures o <= q && (q > 0 ==> o > 0)
  {
    if imt then (if q > 64 then q / 2 else if q < 8 then q else 8)
    else if q > 8 then q - 8 else q
  }

  /** The circumstances of one call: intermediate mode, whether path 3 may run, whether the
      FIFO compatibility setting is on. */
  datatype Gate = Gate(imt: bool, pathsFree: bool, fifoHack: bool)

  predicate ThroughFifo(g: Gate, q: nat, fifoSize: nat)
  {
    !g.pathsFree || ((Offer(q, g.imt) < 8 || fifoSize > 0) && g.fifoHack)
  }

  class GifMfifo {
    const base: nat         // RBOR
    const slots: nat        // ring length in quadwords; RMSK is 16 * (slots - 1)
    const ring: array<Quad>
    var written: nat        // D8_MADR, where the producer writes next
    var madr: nat
    var tadr: nat
    var qwc: nat
    var fifoSize: nat
    var empty: bool         // gifstate is GIF_STATE_EMPTY

    /** Quadwords the producer has written and the consumer has not taken yet, and all
        quadwords the consumer has taken so far. */
    ghost var pending: seq<Quad>
    ghost var taken: seq<Quad>

    predicate InRing(a: nat)
    {
      base <= a < base + 16 * slots && (a - base) % 16 == 0
    }

    /** The ring's base is a multiple of its length in bytes. */
    predicate Aligned()
      requires slots > 0
    {
      base % (16 * slots) == 0
    }

    function Index(a: nat): nat { if a < base then 0 else (a - base) / 16 }

    ghost predicate Shape()
      reads this
    {
      && slots > 1 && ring.Length == slots && Aligned() && base + 16 * slots <= 0x8000_0000
      && InRing(written) && InRing(madr) && fifoSize <= 16
    }

    /** The ring holds exactly the pending quadwords, in order, from the drain address on. */
    ghost predicate Valid()
      reads this, ring
    {
      && Shape() && tadr == madr && |pending| < slots
      && pending == From(ring[..], Index(madr), |pending|)
      && Index(written) == Turn(Index(madr) + |pending|, slots)
    }

    constructor (base: nat, slots: nat)
      requires slots > 1 && base % (16 * slots) == 0 && base + 16 * slots <= 0x8000_0000
      ensures Valid() && fresh(ring) && pending == [] && taken == [] && madr == written == base
      ensures this.base == base && this.slots == slots && fifoSize == 0 && qwc == 0
    {
      this.base := base;
      this.slots := slots;
      ring := new Quad[slots];
      written := base;
      madr := base;
      tadr := base;
      qwc := 0;
      fifoSize := 0;
      empty := false;
      pending := [];
      taken := [];
    }

    /** base + (a & RMSK) for a quadword-aligned address. */
    function Wrap(a: nat): nat
      requires slots > 0
    {
      base + a % (16 * slots)
    }

    lemma WrapIndex(a: nat, k: nat)
      requires slots > 0 && Aligned() && InRing(a) && k <= slots
      ensures InRing(Wrap(a + 16 * k))
      ensures Index(Wrap(a + 16 * k)) == Turn(Index(a) + k, slots)
      ensures a + 16 * k < base + 16 * slots ==> Wrap(a + 16 * k) == a + 16 * k
    {
      WrapIs(base, 16 * slots, a + 16 * k);
    }

    lemma WrapInRing(a: nat)
      requires slots > 0 && Aligned() && InRing(a)
      ensures Wrap(a) == a
    {
      WrapIs(base, 16 * slots, a);
    }

    /** The producer's address m + k quadwords beyond the drain address. */
    lemma WrapTurns(a: nat, w: nat, m: nat, k: nat)
      requires slots > 0 && Aligned() && InRing(a) && InRing(w) && m < slots
      requires Index(w) == Turn(Index(a) + m, slots)
      ensures InRing(Wrap(w + 16 * k)) && Index(Wrap(w + 16 * k)) == Turn(Index(a) + (m + k) % slots, slots)
    {
      hide Turn, Index, InRing, Wrap;
      AddressOf(a);
      AddressOf(w);
      WrapSlot(w, Index(w) + k, k);
      TurnSum(Index(a), m, k, slots);
    }

    lemma AddressOf(a: nat)
      requires InRing(a)
      ensures a == base + 16 * Index(a) && Index(a) < slots
    {
    }

    lemma WrapSlot(w: nat, x: nat, k: nat)
      requires slots > 0 && Aligned() && w + 16 * k == base + 16 * x
      ensures InRing(Wrap(w + 16 * k)) && Index(Wrap(w + 16 * k)) == x % slots
    {
      WrapFar(base, x, slots);
      assert Wrap(w + 16 * k) == base + 16 * (x % slots);
      hide Wrap, InRing, Index;
      SlotAt(x % slots);
    }

    lemma SlotAt(y: nat)
      requires y < slots
      ensures InRing(base + 16 * y) && Index(base + 16 * y) == y
    {
    }

    /** The distance from the drain address to the producer, going up the ring: the only
        count below the ring length that leads from one to the other. */
    method QWCinMfifo(drain: nat) returns (ret: nat)
      requires Shape() && InRing(drain)
      modifies this`empty
      ensures ret < slots && Index(written) == Turn(Index(drain) + ret, slots)
      ensures empty == (old(empty) || ret == 0)
    {
      if drain <= written {
        ret := (written - drain) / 16;
      } else {
        var limit := base + 16 * (slots - 1) + 16;
        ret := ((written - base) + (limit - drain)) / 16;
      }
      if ret == 0 {
        empty := true;
      }
    }

    lemma DistanceIsUnique(j: nat, a: nat, b: nat)
      requires j < slots && a < slots && b < slots && Turn(j + a, slots) == Turn(j + b, slots)
      ensures a == b
    {
    }

    /** WRITERING_DMA on the straight piece of q quadwords at slot `src`: into the FIFO
        whole, or into the GIF unit, which takes `accept` quadwords of what it is offered.
        A full FIFO takes nothing, and the call still returns 4. */
    method WriteRing(src: nat, q: nat, g: Gate, accept: nat) returns (ret: nat, ghost k: nat)
      requires Shape() && tadr == madr && src + q <= slots && q <= qwc
      modifies this`madr, this`tadr, this`qwc, this`fifoSize, this`taken
      ensures fifoSize <= 16 && k <= q
      ensures ThroughFifo(g, q, old(fifoSize)) ==>
                && k == (if q < 16 - old(fifoSize) then q else 16 - old(fifoSize))
                && fifoSize == old(fifoSize) + k
                && ret == if old(fifoSize) == 16 then 4 else k
      ensures !ThroughFifo(g, q, old(fifoSize)) ==>
                && k == (if accept < Offer(q, g.imt) then accept else Offer(q, g.imt))
                && fifoSize == old(fifoSize) && ret == k
      ensures madr == old(madr) + 16 * k && qwc == old(qwc) - k && tadr == madr
      ensures taken == old(taken) + ring[src..src + k]
    {
      var offered := Offer(q, g.imt);
      if !g.pathsFree || ((offered < 8 || fifoSize > 0) && g.fifoHack) {
        if fifoSize < 16 {
          var size := if q < 16 - fifoSize then q else 16 - fifoSize;
          fifoSize := fifoSize + size;
          IncAddr(src, size);
          return size, size;
        }
        return 4, 0;
      }
      var size := if accept < offered then accept else offered;
      IncAddr(src, size);
      return size, size;
    }

    /** incGifChAddr for a CNT packet: the tag address follows the data address. */
    method IncAddr(ghost src: nat, size: nat)
      requires size <= qwc && ring.Length == slots && src + size <= slots
      modifies this`madr, this`tadr, this`qwc, this`taken
      ensures madr == old(madr) + 16 * size && qwc == old(qwc) - size && tadr == madr
      ensures taken == old(taken) + ring[src..src + size]
    {
      taken := taken + ring[src..src + size];
      madr := madr + size * 16;
      qwc := qwc - size;
      tadr := madr;
    }

    lemma IndexInRing(a: nat)
      requires InRing(a)
      ensures Index(a) < slots
    {
    }

    /** Taking the first k of the pending quadwords p at drain address a. */
    lemma Taking(p: seq<Quad>, a: nat, k: nat)
      requires slots > 0 && ring.Length == slots && Aligned()
      requires InRing(a) && k <= |p| < slots && p == From(ring[..], Index(a), |p|)
      ensures InRing(Wrap(a + 16 * k)) && |p[k..]| == |p| - k
      ensures p[k..] == From(ring[..], Index(Wrap(a + 16 * k)), |p| - k)
      ensures Turn(Index(a) + |p|, slots) == Turn(Index(Wrap(a + 16 * k)) + (|p| - k), slots)
      ensures Index(a) + k <= slots ==> ring[Index(a)..Index(a) + k] == p[..k]
      ensures Index(Wrap(a + 16 * k)) == Turn(Index(a) + k, slots)
    {
      hide From, Wrap, Index;
      WrapIndex(a, k);
      IndexInRing(a);
      FromSplits(ring[..], Index(a), |p|, k);
      if Index(a) + k <= slots {
        assert ring[Index(a)..Index(a) + k] == ring[..][Index(a)..Index(a) + k];
      }
    }

    /** mfifoGIFrbTransfer, with the drain pointer as its caller leaves it. `accept1` and
        `accept2` are what the GIF unit would take of the two pieces; `freeAfter` says whether the
        paths it asks for are still free once the unit has run the first piece. However the pieces
        fall, what is taken are the first k pending quadwords, in ring order. */
    method Transfer(g: Gate, accept1: nat, freeAfter: bool, accept2: nat) returns (ghost k: nat)
      requires Valid()
      modifies this`madr, this`tadr, this`qwc, this`fifoSize, this`taken, this`pending, this`empty
      ensures Valid()
      ensures k <= |old(pending)| && k <= old(qwc) && qwc == old(qwc) - k
      ensures pending == old(pending)[k..] && taken == old(taken) + old(pending)[..k]
      ensures empty == (old(empty) || old(pending) == [])
      ensures fifoSize <= old(fifoSize) + k
      ensures !g.pathsFree ==>
        k == Least(Least(|old(pending)|, old(qwc)), 16 - old(fifoSize)) && fifoSize == old(fifoSize) + k
      ensures g.pathsFree && !g.fifoHack ==>
        fifoSize == old(fifoSize) + if freeAfter || k <= old(ToEnd()) then 0 else k - old(ToEnd())
      ensures g.pathsFree && !g.fifoHack && accept1 > 0 && old(pending) != [] && old(qwc) > 0 ==> k > 0
    {
      hide From, Wrap, Offer, Index, Turn, ThroughFifo, Aligned;
      var q, untilEnd := Extent();
      k := 0;
      if q > 0 {
        k := Pieces(q, untilEnd, g, accept1, freeAfter, accept2);
      }
    }

    /** The first piece, and if it went to the end of the ring the second. */
    method Pieces(q: nat, untilEnd: nat, g: Gate, accept1: nat, freeAfter: bool, accept2: nat) returns (ghost k: nat)
      requires Valid() && 0 < q == Least(|pending|, qwc) && 0 < untilEnd == ToEnd()
      modifies this`madr, this`tadr, this`qwc, this`fifoSize, this`taken, this`pending
      ensures Valid() && k <= q && qwc == old(qwc) - k
      ensures Took(old(taken), old(pending), taken, pending, k)
      ensures fifoSize <= old(fifoSize) + k
      ensures !g.pathsFree ==> k == Least(q, 16 - old(fifoSize)) && fifoSize == old(fifoSize) + k
      ensures g.pathsFree && !g.fifoHack ==>
        fifoSize == old(fifoSize) + if freeAfter || k <= untilEnd then 0 else k - untilEnd
      ensures g.pathsFree && !g.fifoHack && accept1 > 0 ==> k > 0
    {
      hide From, Wrap, Offer, Index, Turn, InRing, Aligned, Took;
      ghost var p, was := pending, taken;
      var needWrap := untilEnd < q;
      var transferred, k1 := First(if needWrap then untilEnd else q, g, accept1);
      k := k1;
      ghost var t1, p1 := taken, pending;
      TookSize(was, p, t1, p1, k1);
      if needWrap && transferred == untilEnd {
        if k1 == untilEnd { AtEnd(old(madr), k1); }
        var k2 := Second(q - untilEnd, g.(pathsFree := g.pathsFree && freeAfter), accept2);
        k := k1 + k2;
        TookTwice(was, p, t1, p1, k1, taken, pending, k2);
      }
    }

    lemma AtEnd(a: nat, k: nat)
      requires Shape() && InRing(a) && Index(a) + k == slots
      ensures Index(Wrap(a + 16 * k)) == 0
    {
      WrapIndex(a, k);
      TurnAtEnd(slots);
    }

    /** Slots from the drain address to the end of the ring. */
    ghost function ToEnd(): int
      reads this`madr
    {
      slots - Index(madr)
    }

    /** How many quadwords are to move, and how many slots are left before the ring turns. */
    method Extent() returns (q: nat, untilEnd: nat)
      requires Valid()
      modifies this`empty
      ensures q == Least(|pending|, qwc) && untilEnd > 0 && Index(madr) + untilEnd == slots
      ensures empty == (old(empty) || pending == [])
    {
      hide From;
      var available := QWCinMfifo(madr);
      DistanceIsUnique(Index(madr), available, |pending|);
      q := if available < qwc then available else qwc;
      untilEnd := (base + 16 * (slots - 1) + 16 - madr) / 16;
    }

    /** The first piece and the wrap of both addresses behind it. */
    method First(q: nat, g: Gate, accept: nat) returns (ret: nat, ghost k: nat)
      requires Valid() && q <= |pending| && q <= qwc && Index(madr) + q <= slots
      modifies this`madr, this`tadr, this`qwc, this`fifoSize, this`taken, this`pending
      ensures Valid() && k <= q
      ensures ThroughFifo(g, q, old(fifoSize)) ==>
                && k == Least(q, 16 - old(fifoSize))
                && fifoSize == old(fifoSize) + k
                && ret == if old(fifoSize) == 16 then 4 else k
      ensures !ThroughFifo(g, q, old(fifoSize)) ==>
                && k == Least(accept, Offer(q, g.imt))
                && fifoSize == old(fifoSize) && ret == k
      ensures madr == Wrap(old(madr) + 16 * k) && qwc == old(qwc) - k
      ensures Took(old(taken), old(pending), taken, pending, k)
    {
      hide From, Turn, Offer, Aligned;
      ret, k := WriteRing(Index(madr), q, g, accept);
      Taking(old(pending), old(madr), k);
      madr := Wrap(madr);
      tadr := Wrap(tadr);
      pending := pending[k..];
      WrapIndex(madr, 0);
    }

    /** The second piece, from the bottom of the ring. It is reached with the drain address
        there, or with a full FIFO that takes nothing. */
    method Second(q: nat, g: Gate, accept: nat) returns (ghost k: nat)
      requires Valid() && q <= |pending| && q <= qwc
      requires Index(madr) == 0 || (fifoSize == 16 && (!g.pathsFree || g.fifoHack))
      modifies this`madr, this`tadr, this`qwc, this`fifoSize, this`taken, this`pending
      ensures Valid() && k <= q
      ensures ThroughFifo(g, q, old(fifoSize)) ==> k == Least(q, 16 - old(fifoSize)) && fifoSize == old(fifoSize) + k
      ensures !ThroughFifo(g, q, old(fifoSize)) ==> fifoSize == old(fifoSize)
      ensures qwc == old(qwc) - k
      ensures Took(old(taken), old(pending), taken, pending, k)
    {
      hide From, Wrap, Turn, Offer, Aligned;
      ghost var ret;
      ret, k := WriteRing(0, q, g, accept);
      Taking(old(pending), old(madr), k);
      madr := Wrap(madr);
      tadr := Wrap(tadr);
      pending := pending[k..];
      WrapIndex(madr, 0);
      assert k == 0 ==> ring[0..0] == [] == old(pending)[..0];
    }

    /** mfifoGIFchain for data inside the ring. */
    method Chain(g: Gate, accept1: nat, freeAfter: bool, accept2: nat) returns (ghost k: nat)
      requires Valid()
      modifies this`madr, this`tadr, this`qwc, this`fifoSize, this`taken, this`pending, this`empty
      ensures Valid()
      ensures k <= |old(pending)| && k <= old(qwc) && qwc == old(qwc) - k
      ensures pending == old(pending)[k..] && taken == old(taken) + old(pending)[..k]
    {
      hide From, Index, Turn, Wrap, InRing, Aligned;
      k := 0;
      if qwc == 0 {
        return;
      }
      var available := QWCinMfifo(madr);
      if available == 0 {
        empty := true;
        return;
      }
      k := Transfer(g, accept1, freeAfter, accept2);
      WrapInRing(madr);
      madr := Wrap(madr);
      tadr := madr;
    }

    /** mfifoGIFtransfer between packets, for a CNT tag: takes the tag from the ring and
        points at the data behind it, unless the ring is empty. */
    method NextTag() returns (ok: bool)
      requires Valid() && qwc == 0
      modifies this`madr, this`tadr, this`qwc, this`taken, this`pending, this`empty
      ensures Valid() && ok == (old(pending) != [])
      ensures ok ==>
                && qwc == CountOf(old(pending)[0])
                && pending == old(pending)[1..] && taken == old(taken) + [old(pending)[0]]
      ensures !ok ==> unchanged(`pending) && unchanged(`taken) && unchanged(`madr) && qwc == 0 && empty
    {
      hide From, Wrap, Turn, Aligned;
      WrapIndex(tadr, 0);
      tadr := Wrap(tadr);
      assert tadr == madr;
      var available := QWCinMfifo(tadr);
      DistanceIsUnique(Index(tadr), available, |pending|);
      if available == 0 {
        empty := true;
        return false;
      }
      Taking(pending, madr, 1);
      var tag := ring[Index(tadr)];
      assert Index(tadr) + 1 <= slots && tag == ring[Index(tadr)..Index(tadr) + 1][0] == pending[0];
      StepPastTag(CountOf(tag));
      taken := taken + [tag];
      pending := pending[1..];
      ok := true;
    }

    /** The registers after the tag is read: the data starts behind it, wrapped into the ring. */
    method StepPastTag(count: nat)
      requires Shape() && tadr == madr
      modifies this`madr, this`tadr, this`qwc
      ensures qwc == count && madr == tadr == Wrap(old(madr) + 16)
    {
      WrapIndex(madr, 1);
      qwc := count;
      madr := tadr + 16;
      tadr := madr;
      if madr < base || madr > base + 16 * (slots - 1) {
        madr := Wrap(madr);
      }
      tadr := Wrap(tadr);
    }

    /** MemCopy_WrappedDest, on the ring. */
    method CopyWrapped(data: seq<Quad>, start: nat)
      requires ring.Length == slots && start < slots
      modifies ring
      ensures ring[..] == Copied(old(ring[..]), data, start)
    {
      ghost var was := ring[..];
      var end := start + |data|;
      if end < slots {
        forall i | 0 <= i < |data| { ring[start + i] := data[i]; }
      } else {
        var firstLen := slots - start;
        forall i | 0 <= i < firstLen { ring[start + i] := data[i]; }
        var rest := end % slots;
        LastTurn(end, slots);
        forall i | 0 <= i < rest { ring[i] := data[firstLen + i]; }
      }
      assert |Copied(was, data, start)| == slots;
    }

    /** hwMFIFOWrite and the advance of D8_MADR. The ring stays a queue exactly as long as fewer
        quadwords are pending than it has slots; a producer that overruns the consumer makes the
        reported distance wrong, by whole turns. */
    method Produce(data: seq<Quad>) returns (ghost reported: nat)
      requires Valid()
      modifies this`written, this`pending, ring
      ensures Shape() && tadr == madr
      ensures pending == old(pending) + data
      ensures |old(pending)| + |data| < slots <==> Valid()
      ensures reported < slots && Index(written) == Turn(Index(madr) + reported, slots)
      ensures reported == |pending| % slots && (reported == |pending| <==> |old(pending)| + |data| < slots)
    {
      hide From, Wrap, Turn, Index, InRing, Aligned;
      Store(data);
      WrapTurns(madr, written, |pending|, |data|);
      written := written + 16 * |data|;
      written := Wrap(written);
      pending := pending + data;
      reported := |pending| % slots;
      if |pending| < slots {
        Arith.DivModUnique(|pending|, 0, slots, |pending|);
      }
    }

    /** The copy of a write into the ring, behind what is pending. */
    method Store(data: seq<Quad>)
      requires Valid()
      modifies ring
      ensures |pending| + |data| < slots ==>
        pending + data == From(ring[..], Index(madr), |pending| + |data|)
    {
      hide From, Wrap, Turn, Copied, Aligned;
      ghost var was := ring[..];
      IndexInRing(written);
      CopyWrapped(data, Index(written));
      if |pending| + |data| < slots {
        Appended(was, Index(madr), |pending|, data);
      }
    }

    /** Any run of writes, tag reads and transfers, up to the first write the ring has no
        room for: the quadwords taken and those still in the ring are, in order, all that
        was ever written. */
    method Run(ops: seq<Op>) returns (n: nat)
      requires Valid()
      modifies this, ring
      ensures Valid() && n <= |ops|
      ensures taken + pending == old(taken + pending) + Written(ops[..n])
      ensures n < |ops| ==> ops[n].Write? && |pending| + |ops[n].data| >= slots
    {
      hide From, Wrap, Turn, Index, Aligned;
      n := 0;
      while n < |ops|
        invariant n <= |ops| && Valid()
        invariant taken + pending == old(taken + pending) + Written(ops[..n])
      {
        WrittenGrows(ops, n);
        if ops[n].Write? {
          var free := Free();
          if |ops[n].data| >= free {
            return;
          }
        }
        Step(ops[n]);
        n := n + 1;
      }
    }

    /** The room a producer has: one slot always stays free. */
    method Free() returns (free: nat)
      requires Valid()
      modifies this`empty
      ensures Valid() && free == slots - |pending|
    {
      hide From;
      var used := QWCinMfifo(madr);
      DistanceIsUnique(Index(madr), used, |pending|);
      free := slots - used;
    }

    method Step(op: Op)
      requires Valid() && (op.Write? ==> |pending| + |op.data| < slots)
      modifies this, ring
      ensures Valid()
      ensures taken + pending == old(taken + pending) + if op.Write? then op.data else []
    {
      hide From, Wrap, Turn, Index, Aligned;
      ghost var t, p := taken, pending;
      match op {
        case Write(data) =>
          ghost var reported := Produce(data);
          assert t + (p + data) == t + p + data;
        case ReadTag =>
          if qwc == 0 {
            var ok := NextTag();
            assert ok ==> t + [p[0]] + p[1..] == t + p;
          }
        case Move(g, accept1, freeAfter, accept2) =>
          ghost var k := Chain(g, accept1, freeAfter, accept2);
          assert t + p[..k] + p[k..] == t + p;
      }
    }
  }

  datatype Op = Write(data: seq<Quad>) | ReadTag | Move(gate: Gate, accept1: nat, freeAfter: bool, accept2: nat)

  function Written(ops: seq<Op>): seq<Quad>
  {
    if ops == [] then []
    else Written(ops[..|ops| - 1]) + if ops[|ops| - 1].Write? then ops[|ops| - 1].data else []
  }

  lemma WrittenGrows(ops: seq<Op>, n: nat)
    requires n < |ops|
    ensures Written(ops[..n + 1]) == Written(ops[..n]) + if ops[n].Write? then ops[n].data else []
  {
    assert ops[..n + 1][..n] == ops[..n];
  }

  /** The first k of the pending quadwords p have been taken. */
  ghost predicate Took(was: seq<Quad>, p: seq<Quad>, taken: seq<Quad>, pending: seq<Quad>, k: nat) {
    k <= |p| && pending == p[k..] && taken == was + p[..k]
  }

  lemma TookSize(was: seq<Quad>, p: seq<Quad>, taken: seq<Quad>, pending: seq<Quad>, k: nat)
    requires Took(was, p, taken, pending, k)
    ensures |pending| == |p| - k
  {
  }

  lemma TookTwice(was: seq<Quad>, p: seq<Quad>, t1: seq<Quad>, p1: seq<Quad>, k1: nat, t2: seq<Quad>, p2: seq<Quad>,
                  k2: nat)
    requires Took(was, p, t1, p1, k1) && Took(t1, p1, t2, p2, k2)
    ensures Took(was, p, t2, p2, k1 + k2)
  {
    assert p[k1..][k2..] == p[k1 + k2..];
    assert was + p[..k1] + p[k1..][..k2] == was + p[..k1 + k2];
  }

  // ---- A write around the end of the ring ----

  /** The ring after MemCopy_WrappedDest: a first piece from `start` on and a second one at the bottom,
      which is as long as the last turn. */
  function Copied(ring: seq<Quad>, data: seq<Quad>, start: nat): (r: seq<Quad>)
    requires start < |ring|
    ensures |r| == |ring|
  {
    var n, end := |ring|, start + |data|;
    var rest := if end < n then 0 else end % n;
    LastTurnOf(end, n);
    seq(n, j requires 0 <= j < n =>
      if j < rest then data[n - start + j] else if start <= j < end then data[j - start] else ring[j])
  }

  lemma LastTurnOf(end: nat, n: nat)
    requires n > 0
    ensures end >= n ==> end % n <= end - n
  {
    if end >= n { LastTurn(end, n); }
  }

  /** The slot that a queue of n slots has for the i-th quadword written from `start` on. */
  function SlotOf(start: nat, i: nat, n: nat): nat
    requires n > 0
  {
    (start + i) % n
  }

  /** As many of the last quadwords written as the ring has room for are in their slots. */
  ghost predicate HoldsLast(ring: seq<Quad>, data: seq<Quad>, start: nat)
    requires ring != []
  {
    forall i: nat | |data| - |ring| <= i < |data| :: SlotInRing(ring, start, i) == data[i]
  }

  function SlotInRing(ring: seq<Quad>, start: nat, i: nat): Quad
    requires ring != []
  {
    ring[SlotOf(start, i, |ring|)]
  }

  /** Whatever the contents, a write of `len` quadwords leaves the last of them in the ring exactly if it
      turns at the end of the ring no more than once. */
  lemma WriteHoldsLast(n: nat, start: nat, len: nat)
    requires start < n
    ensures start + len < 2 * n <==>
      forall ring: seq<Quad>, data: seq<Quad> | |ring| == n && |data| == len ::
        HoldsLast(Copied(ring, data, start), data, start)
  {
    if start + len < 2 * n {
      forall ring: seq<Quad>, data: seq<Quad> | |ring| == n && |data| == len
        ensures HoldsLast(Copied(ring, data, start), data, start)
      {
        OneTurn(ring, data, start);
      }
    } else {
      var ring, data := LongWrite(n, start, len);
    }
  }

  lemma OneTurn(ring: seq<Quad>, data: seq<Quad>, start: nat)
    requires start < |ring| && start + |data| < 2 * |ring|
    ensures HoldsLast(Copied(ring, data, start), data, start)
  {
    var n, end, r := |ring|, start + |data|, Copied(ring, data, start);
    if end >= n { LastTurn(end, n); }
    forall i: nat | |data| - n <= i < |data| ensures SlotInRing(r, start, i) == data[i] {
      SlotIs(start, i, n);
    }
  }

  lemma SlotIs(start: nat, i: nat, n: nat)
    requires start < n && start + i < 2 * n
    ensures SlotOf(start, i, n) == if start + i < n then start + i else start + i - n
  {
    if start + i < n {
      Arith.DivModUnique(start + i, 0, n, start + i);
    } else {
      Arith.DivModUnique(start + i, 1, n, start + i - n);
    }
  }

  /** A write that turns more often loses its last quadword: zeros and then a one end up as zeros. */
  lemma LongWrite(n: nat, start: nat, len: nat) returns (ring: seq<Quad>, data: seq<Quad>)
    requires start < n && start + len >= 2 * n
    ensures |ring| == n && |data| == len && !HoldsLast(Copied(ring, data, start), data, start)
  {
    ring, data := seq(n, _ => Quad(0, 0)), seq(len, i => Quad(if i == len - 1 then 1 else 0, 0));
    var r := Copied(ring, data, start);
    LastTurn(start + len, n);
    LastSlot(start, len, n);
    assert SlotInRing(r, start, len - 1) != data[len - 1];
  }

  lemma LastSlot(start: nat, len: nat, n: nat)
    requires n > 0 && start + len >= n && len > 0
    ensures SlotOf(start, len - 1, n) == (if (start + len) % n > 0 then (start + len) % n - 1 else n - 1)
  {
    var q, r := (start + len) / n, (start + len) % n;
    assert start + len == n * q + r;
    Arith.MulCommutes(n, q);
    Arith.MulDistributes(q, 1, n);
    if r > 0 {
      Arith.DivModUnique(start + len - 1, q, n, r - 1);
    } else {
      Arith.DivModUnique(start + len - 1, q - 1, n, n - 1);
    }
  }

  /** Four quadwords into a ring of two: the first two stay. */
  lemma LongWriteKeepsFirst(old0: Quad, old1: Quad, a: Quad, b: Quad, c: Quad, d: Quad)
    ensures Copied([old0, old1], [a, b, c, d], 0) == [a, b]
  {
  }

  /** A write that is not longer than the ring changes the slots it covers, and no others. */
  lemma ShortWrite(ring: seq<Quad>, data: seq<Quad>, start: nat, j: nat)
    requires start < |ring| && |data| <= |ring| && j < |ring|
    ensures var i := Back(start, j, |ring|);
            Copied(ring, data, start)[j] == if i < |data| then data[i] else ring[j]
  {
    if start + |data| >= |ring| { LastTurn(start + |data|, |ring|); }
  }

  /** Writing behind the pending quadwords appends to them. */
  lemma Appended(was: seq<Quad>, from: nat, len: nat, data: seq<Quad>)
    requires from < |was| && len + |data| < |was|
    ensures Turn(from + len, |was|) < |was|
    ensures From(Copied(was, data, Turn(from + len, |was|)), from, len + |data|) == From(was, from, len) + data
  {
    hide Copied;
    var n, w := |was|, Turn(from + len, |was|);
    var now := Copied(was, data, w);
    var r := From(now, from, len + |data|);
    forall i | 0 <= i < |data| ensures r[len + i] == data[i] {
      TurnTwice(from, len, i, n);
      assert Back(w, Turn(w + i, n), n) == i;
      ShortWrite(was, data, w, Turn(w + i, n));
    }
    forall i | 0 <= i < len ensures r[i] == From(was, from, len)[i] {
      assert Back(w, Turn(from + i, n), n) >= |data|;
      ShortWrite(was, data, w, Turn(from + i, n));
    }
  }

  function Least(a: int, b: int): int { if a < b then a else b }
}
