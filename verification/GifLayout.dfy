/** Where a path's submitted packets lie in its wrapping buffer while the GS thread still has to
    read them. */
module GifLayout {
  import opened Basics

  /** A packet submitted to the GS thread: bytes of the buffer, or a stretch to be skipped. */
  datatype Entry = Data(offset: nat, size: nat) | Blank(size: nat)

  /** Bytes the GS thread still has to read; the code's only view of its position. */
  function Total(q: seq<Entry>): nat {
    if q == [] then 0 else q[0].size + Total(q[1..])
  }

  /** The bytes it will read, in order, if the buffer stays as it is. */
  function Pending(buf: seq<byte>, q: seq<Entry>): seq<byte> {
    if q == [] then [] else Contents(buf, q[0]) + Pending(buf, q[1..])
  }

  function Contents(buf: seq<byte>, e: Entry): seq<byte> {
    if e.Data? && e.offset + e.size <= |buf| then buf[e.offset..e.offset + e.size] else []
  }

  /** The packets are non-empty and lie end to end on [lo, hi). */
  ghost predicate Tiles(q: seq<Entry>, lo: int, hi: int) {
    if q == [] then lo == hi
    else q[0].Data? && q[0].offset == lo && q[0].size > 0 && Tiles(q[1..], lo + q[0].size, hi)
  }

  /** The same from `lo` up to the point where the buffer wrapped: past the limit, or with a blank
      that fills up to it. */
  ghost predicate BackTiles(q: seq<Entry>, lo: int, limit: nat, end: nat) {
    if q == [] then limit <= lo <= end
    else if q[0].Blank? then |q| == 1 && q[0].size > 0 && lo + q[0].size == limit <= end
    else q[0].offset == lo && q[0].size > 0 && BackTiles(q[1..], lo + q[0].size, limit, end)
  }

  ghost function Start(q: seq<Entry>, limit: nat): int {
    if q == [] then limit else if q[0].Data? then q[0].offset else limit - q[0].size
  }

  /** The oldest `back` packets end at a wrap; the others end at `front`, the first byte of the
      packet being built, whose data goes up to `used`. Nothing unread lies in between. */
  ghost predicate Layout(q: seq<Entry>, back: nat, front: nat, used: nat, limit: nat, end: nat) {
    && back <= |q| && front <= used <= end && limit <= end
    && Tiles(q[back..], if back == 0 then front - Total(q) else 0, front)
    && (back == 0 ==> Total(q) <= front)
    && (back > 0 ==> 0 <= Start(q, limit) && BackTiles(q[..back], Start(q, limit), limit, end))
    && (back > 0 && q[0].Data? ==> used <= Start(q, limit))
  }

  // ---- Facts about the tilings ----

  lemma {:induction false} TilesTotal(q: seq<Entry>, lo: int, hi: int)
    requires Tiles(q, lo, hi)
    ensures hi - lo == Total(q)
  {
    if q != [] { TilesTotal(q[1..], lo + q[0].size, hi); }
  }

  lemma {:induction false} TilesPending(buf: seq<byte>, q: seq<Entry>, lo: int, hi: int)
    requires Tiles(q, lo, hi) && 0 <= lo && hi <= |buf|
    ensures lo <= hi && Pending(buf, q) == buf[lo..hi]
  {
    TilesTotal(q, lo, hi);
    if q != [] {
      var mid := lo + q[0].size;
      TilesPending(buf, q[1..], mid, hi);
      hide Tiles, Total;
      assert mid <= hi && buf[lo..hi] == buf[lo..mid] + buf[mid..hi];
    }
  }

  lemma {:induction false} TilesAppend(q: seq<Entry>, lo: int, hi: nat, n: nat)
    requires Tiles(q, lo, hi) && n > 0
    ensures Tiles(q + [Data(hi, n)], lo, hi + n)
  {
    if q != [] {
      TilesAppend(q[1..], lo + q[0].size, hi, n);
      assert (q + [Data(hi, n)])[1..] == q[1..] + [Data(hi, n)];
    } else {
      assert Tiles([Data(hi, n)][1..], hi + n, hi + n);
    }
  }

  lemma {:induction false} TilesIsBack(q: seq<Entry>, lo: int, hi: nat, limit: nat, end: nat)
    requires Tiles(q, lo, hi) && hi <= end && limit <= end
    ensures hi >= limit ==> BackTiles(q, lo, limit, end)
    ensures hi < limit ==> BackTiles(q + [Blank(limit - hi)], lo, limit, end)
  {
    if q != [] {
      TilesIsBack(q[1..], lo + q[0].size, hi, limit, end);
      if hi < limit {
        assert (q + [Blank(limit - hi)])[1..] == q[1..] + [Blank(limit - hi)];
      }
    }
  }

  /** End of the bytes to be read before the wrap. */
  ghost function BackEnd(q: seq<Entry>, lo: int): int {
    if q == [] || q[0].Blank? then lo else BackEnd(q[1..], lo + q[0].size)
  }

  lemma {:induction false} BackTotal(q: seq<Entry>, lo: int, limit: nat, end: nat)
    requires BackTiles(q, lo, limit, end)
    ensures lo <= BackEnd(q, lo) <= end
    ensures lo + Total(q) >= limit
  {
    if q != [] && q[0].Data? { BackTotal(q[1..], lo + q[0].size, limit, end); }
    if q != [] && q[0].Blank? { assert q[1..] == []; }
  }

  lemma {:induction false} BackPending(buf: seq<byte>, q: seq<Entry>, lo: int, limit: nat)
    requires BackTiles(q, lo, limit, |buf|) && 0 <= lo
    ensures lo <= BackEnd(q, lo) <= |buf| && Pending(buf, q) == buf[lo..BackEnd(q, lo)]
  {
    BackTotal(q, lo, limit, |buf|);
    if q == [] {
    } else if q[0].Data? {
      var mid, e := lo + q[0].size, BackEnd(q, lo);
      BackPending(buf, q[1..], mid, limit);
      hide BackTiles;
      assert mid <= e;
      assert buf[lo..e] == buf[lo..mid] + buf[mid..e];
    } else {
      assert q[1..] == [];
    }
  }

  lemma {:induction false} Splits(buf: seq<byte>, a: seq<Entry>, b: seq<Entry>)
    ensures Pending(buf, a + b) == Pending(buf, a) + Pending(buf, b)
    ensures Total(a + b) == Total(a) + Total(b)
  {
    hide Contents;
    if a == [] {
      assert a + b == b;
    } else {
      assert (a + b)[1..] == a[1..] + b;
      Splits(buf, a[1..], b);
    }
  }

  /** What the layout says about the bytes still to be read: one stretch ending at `front`, or, when
      wrapped, one at the back and one at [0, front). Also, how the code's numbers bound it. */
  lemma LayoutPending(buf: seq<byte>, q: seq<Entry>, back: nat, front: nat, used: nat, limit: nat)
    requires Layout(q, back, front, used, limit, |buf|)
    ensures back == 0 ==> Pending(buf, q) == buf[front - Total(q)..front]
    ensures back > 0 ==>
      var s := Start(q, limit); var e := BackEnd(q[..back], s);
      && s <= e <= |buf| && Pending(buf, q) == buf[s..e] + buf[..front]
      && (q[0].Blank? ==> s == e)
      && front - Total(q) < 0 && limit + (front - Total(q)) <= s
  {
    if back == 0 {
      assert q[0..] == q;
      TilesPending(buf, q, front - Total(q), front);
    } else {
      var s := Start(q, limit);
      assert q == q[..back] + q[back..];
      Splits(buf, q[..back], q[back..]);
      BackPending(buf, q[..back], s, limit);
      BackTotal(q[..back], s, limit, |buf|);
      TilesTotal(q[back..], 0, front);
      TilesPending(buf, q[back..], 0, front);
      TotalPositive(q[..back], s, limit, |buf|);
    }
  }

  lemma TotalPositive(q: seq<Entry>, lo: int, limit: nat, end: nat)
    requires q != [] && BackTiles(q, lo, limit, end)
    ensures Total(q) > 0
  {
  }

  // ---- What each buffer operation keeps ----

  /** Writing `data` at `used`, once the read position allows it, touches no unread byte. */
  lemma CopyKeeps(buf: seq<byte>, buf': seq<byte>, q: seq<Entry>, back: nat, front: nat, used: nat,
                  limit: nat, data: seq<byte>)
    requires Layout(q, back, front, used, limit, |buf|)
    requires used + |data| <= |buf| && buf' == buf[..used] + data + buf[used + |data|..]
    requires front - Total(q) >= 0 || limit + (front - Total(q)) > used + |data|
    ensures Layout(q, back, front, used + |data|, limit, |buf'|)
    ensures Pending(buf', q) == Pending(buf, q)
    ensures buf'[front..used + |data|] == buf[front..used] + data
  {
    hide Tiles, BackTiles, Pending, Total, Start, BackEnd;
    LayoutPending(buf, q, back, front, used, limit);
    assert Layout(q, back, front, used + |data|, limit, |buf'|);
    LayoutPending(buf', q, back, front, used + |data|, limit);
    CopySlices(buf, buf', front, used, data);
    if back > 0 {
      var s, e := Start(q, limit), BackEnd(q[..back], Start(q, limit));
      assert buf'[s..e] == buf[s..e];
    }
  }

  lemma CopySlices(buf: seq<byte>, buf': seq<byte>, front: nat, used: nat, data: seq<byte>)
    requires front <= used && used + |data| <= |buf| && buf' == buf[..used] + data + buf[used + |data|..]
    ensures forall lo: nat, hi: nat | lo <= hi <= used :: buf'[lo..hi] == buf[lo..hi]
    ensures forall lo: nat, hi: nat | used + |data| <= lo <= hi <= |buf| :: buf'[lo..hi] == buf[lo..hi]
    ensures buf'[front..used + |data|] == buf[front..used] + data
  {
    forall lo: nat, hi: nat | lo <= hi <= used ensures buf'[lo..hi] == buf[lo..hi] {
      assert forall i | lo <= i < hi :: buf'[i] == buf[i];
    }
    forall lo: nat, hi: nat | used + |data| <= lo <= hi <= |buf| ensures buf'[lo..hi] == buf[lo..hi] {
      assert forall i | lo <= i < hi :: buf'[i] == buf[i];
    }
  }

  /** Moving the current packet to the start of the buffer, once the unread bytes lie clear of its
      new place: the gap up to the limit becomes a blank, and the layout holds around the move ... */
  lemma RealignKeeps(q: seq<Entry>, back: nat, front: nat, used: nat, limit: nat, end: nat)
    requires Layout(q, back, front, used, limit, end)
    requires front - Total(q) >= (if used - front < front then used - front else front)
    ensures Layout(Realigned(q, front, limit), |Realigned(q, front, limit)|, 0, used - front, limit, end)
    ensures Tiles(q, front - Total(q), front) && (q == [] || used - front <= front - Total(q))
  {
    hide Pending, BackTiles, Start, Tiles, Realigned;
    NotWrapped(q, back, front, used, limit, end);
    assert q[0..] == q;
    RealignLayout(q, front, used, limit, end);
  }

  function Realigned(q: seq<Entry>, front: nat, limit: nat): seq<Entry> {
    if front < limit then q + [Blank(limit - front)] else q
  }

  /** ... and touches no unread byte. */
  lemma RealignPending(buf: seq<byte>, buf': seq<byte>, q: seq<Entry>, front: nat, used: nat, limit: nat)
    requires Total(q) <= front <= used <= |buf| && Tiles(q, front - Total(q), front)
    requires q == [] || used - front <= front - Total(q)
    requires buf' == buf[front..used] + buf[used - front..]
    ensures Pending(buf', Realigned(q, front, limit)) == Pending(buf, q)
  {
    hide Pending, Total, Tiles;
    PendingWithBlank(buf', q, limit - front);
    NothingPending(buf, buf', q);
    if q != [] {
      TiledPending(buf, buf', q, used - front, front - Total(q), front);
    }
  }

  lemma NothingPending(buf: seq<byte>, buf': seq<byte>, q: seq<Entry>)
    ensures q == [] ==> Pending(buf', q) == Pending(buf, q) == []
  {
  }

  /** Packets above the first n bytes read the same when only those change. */
  lemma TiledPending(buf: seq<byte>, buf': seq<byte>, q: seq<Entry>, n: nat, lo: nat, hi: nat)
    requires Tiles(q, lo, hi) && n <= lo <= hi <= |buf| == |buf'| && buf'[n..] == buf[n..]
    ensures Pending(buf', q) == Pending(buf, q)
  {
    hide Tiles, Pending;
    TilesPending(buf, q, lo, hi);
    TilesPending(buf', q, lo, hi);
    SameSlice(buf, buf', n, lo, hi);
  }

  lemma SameSlice(buf: seq<byte>, buf': seq<byte>, n: nat, lo: nat, hi: nat)
    requires n <= lo <= hi <= |buf| == |buf'| && buf'[n..] == buf[n..]
    ensures buf'[lo..hi] == buf[lo..hi]
  {
    assert forall i | lo <= i < hi :: buf'[i] == buf'[n..][i - n] == buf[n..][i - n] == buf[i];
  }

  lemma NotWrapped(q: seq<Entry>, back: nat, front: nat, used: nat, limit: nat, end: nat)
    requires Layout(q, back, front, used, limit, end) && Total(q) <= front
    ensures back == 0
  {
    if back > 0 {
      assert q == q[..back] + q[back..];
      Splits([], q[..back], q[back..]);
      TilesTotal(q[back..], 0, front);
      TotalPositive(q[..back], Start(q, limit), limit, end);
    }
  }

  lemma RealignLayout(q: seq<Entry>, front: nat, used: nat, limit: nat, end: nat)
    requires Total(q) <= front <= used <= end && limit <= end && Tiles(q, front - Total(q), front)
    requires front - Total(q) >= (if used - front < front then used - front else front)
    ensures Layout(Realigned(q, front, limit), |Realigned(q, front, limit)|, 0, used - front, limit, end)
    ensures q == [] || used - front <= front - Total(q)
  {
    TilesIsBack(q, front - Total(q), front, limit, end);
    RealignedStart(q, Realigned(q, front, limit), front - Total(q), front, used, limit, end);
  }

  lemma PendingWithBlank(buf: seq<byte>, q: seq<Entry>, n: int)
    ensures n > 0 ==> Pending(buf, q + [Blank(n)]) == Pending(buf, q)
  {
    if n > 0 {
      Splits(buf, q, [Blank(n)]);
      assert [Blank(n)][1..] == [];
    }
  }

  lemma RealignedStart(q: seq<Entry>, q': seq<Entry>, lo: nat, front: nat, used: nat, limit: nat, end: nat)
    requires Tiles(q, lo, front) && front <= used <= end && limit <= end
    requires q' == Realigned(q, front, limit)
    requires BackTiles(q', lo, limit, end)
    requires q != [] ==> used - front <= lo
    ensures Layout(q', |q'|, 0, used - front, limit, end)
  {
    assert q'[..|q'|] == q' && q'[|q'|..] == [];
  }

  /** Handing over the packet [front, front + n). */
  lemma SubmitKeeps(q: seq<Entry>, back: nat, front: nat, used: nat, limit: nat, end: nat, n: nat)
    requires Layout(q, back, front, used, limit, end) && 0 < n <= used - front
    ensures Layout(q + [Data(front, n)], back, front + n, used, limit, end)
  {
    var q' := q + [Data(front, n)];
    assert q'[..back] == q[..back] && q'[back..] == q[back..] + [Data(front, n)];
    TotalAppend(q, Data(front, n));
    hide Total, BackTiles, Tiles;
    TilesAppend(q[back..], if back == 0 then front - Total(q) else 0, front, n);
  }

  lemma TotalAppend(q: seq<Entry>, e: Entry)
    ensures Total(q + [e]) == Total(q) + e.size
  {
    Splits([], q, [e]);
    assert [e][1..] == [];
  }

  lemma SubmitAppends(buf: seq<byte>, q: seq<Entry>, front: nat, n: nat)
    requires front + n <= |buf|
    ensures Pending(buf, q + [Data(front, n)]) == Pending(buf, q) + buf[front..front + n]
    ensures Total(q + [Data(front, n)]) == Total(q) + n
  {
    hide Pending, Total;
    Splits(buf, q, [Data(front, n)]);
    OnePacket(buf, front, n);
  }

  lemma OnePacket(buf: seq<byte>, front: nat, n: nat)
    requires front + n <= |buf|
    ensures Pending(buf, [Data(front, n)]) == buf[front..front + n] && Total([Data(front, n)]) == n
  {
    assert [Data(front, n)][1..] == [];
    assert Contents(buf, Data(front, n)) == buf[front..front + n];
  }

  /** The GS thread finishing the oldest packet. */
  lemma PopKeeps(q: seq<Entry>, back: nat, front: nat, used: nat, limit: nat, end: nat)
    requires Layout(q, back, front, used, limit, end) && q != []
    ensures Layout(q[1..], if back == 0 then 0 else back - 1, front, used, limit, end)
  {
    if back == 0 {
      assert q[0..] == q && q[1..][0..] == q[1..];
    } else {
      assert q[1..][back - 1..] == q[back..];
      PopBack(q[..back], q[1..][..back - 1], Start(q, limit), limit, end);
      if back == 1 {
        TilesTotal(q[1..], 0, front);
        assert q[1..][0..] == q[1..];
      }
    }
  }

  lemma PopBack(q: seq<Entry>, tail: seq<Entry>, lo: int, limit: nat, end: nat)
    requires q != [] && tail == q[1..] && BackTiles(q, lo, limit, end)
    ensures tail != [] ==> BackTiles(tail, Start(tail, limit), limit, end) && Start(tail, limit) >= lo && q[0].Data?
  {
  }

  // ---- The byte stream through a path ----

  /** Nothing is lost, changed or reordered: what the GS thread was given so far, what it still has
      to read from the buffer, and the data not submitted yet, are together all that was sent. */
  ghost predicate Stream(buf: seq<byte>, q: seq<Entry>, back: nat, front: nat, used: nat, limit: nat,
                         delivered: seq<byte>, sent: seq<byte>) {
    && Layout(q, back, front, used, limit, |buf|)
    && delivered + Pending(buf, q) + buf[front..used] == sent
  }

  lemma StreamEmpty(buf: seq<byte>, limit: nat)
    requires limit <= |buf|
    ensures Stream(buf, [], 0, 0, 0, limit, [], [])
  {
  }

  lemma StreamCopy(buf: seq<byte>, buf': seq<byte>, q: seq<Entry>, back: nat, front: nat, used: nat,
                   limit: nat, delivered: seq<byte>, sent: seq<byte>, data: seq<byte>)
    requires Stream(buf, q, back, front, used, limit, delivered, sent)
    requires used + |data| <= |buf| && buf' == buf[..used] + data + buf[used + |data|..]
    requires front - Total(q) >= 0 || limit + (front - Total(q)) > used + |data|
    ensures Stream(buf', q, back, front, used + |data|, limit, delivered, sent + data)
  {
    CopyKeeps(buf, buf', q, back, front, used, limit, data);
    hide Layout, Pending, Total;
    assert delivered + Pending(buf, q) + (buf[front..used] + data) == sent + data;
  }

  lemma StreamRealign(buf: seq<byte>, buf': seq<byte>, q: seq<Entry>, back: nat, front: nat, used: nat,
                      limit: nat, delivered: seq<byte>, sent: seq<byte>)
    requires Stream(buf, q, back, front, used, limit, delivered, sent)
    requires front - Total(q) >= (if used - front < front then used - front else front)
    requires buf' == buf[front..used] + buf[used - front..]
    ensures var q' := Realigned(q, front, limit);
            Stream(buf', q', |q'|, 0, used - front, limit, delivered, sent)
  {
    hide Pending, Total, Realigned, Tiles, BackTiles, Start;
    RealignKeeps(q, back, front, used, limit, |buf|);
    RealignPending(buf, buf', q, front, used, limit);
    hide Layout;
    assert buf'[0..used - front] == buf[front..used];
  }

  lemma StreamSubmit(buf: seq<byte>, q: seq<Entry>, back: nat, front: nat, used: nat, limit: nat,
                     delivered: seq<byte>, sent: seq<byte>, n: nat)
    requires Stream(buf, q, back, front, used, limit, delivered, sent) && 0 < n <= used - front
    ensures Stream(buf, q + [Data(front, n)], back, front + n, used, limit, delivered, sent)
  {
    SubmitKeeps(q, back, front, used, limit, |buf|, n);
    SubmitAppends(buf, q, front, n);
    hide Layout, Pending, Total;
    assert buf[front..used] == buf[front..front + n] + buf[front + n..used];
    Regroup(delivered, Pending(buf, q), buf[front..front + n], buf[front + n..used]);
  }

  lemma Regroup(a: seq<byte>, b: seq<byte>, c: seq<byte>, d: seq<byte>)
    ensures a + b + (c + d) == a + (b + c) + d
  {
  }

  lemma StreamPop(buf: seq<byte>, q: seq<Entry>, back: nat, front: nat, used: nat, limit: nat,
                  delivered: seq<byte>, sent: seq<byte>)
    requires Stream(buf, q, back, front, used, limit, delivered, sent) && q != []
    ensures Stream(buf, q[1..], if back == 0 then 0 else back - 1, front, used, limit,
                   delivered + Contents(buf, q[0]), sent)
  {
    hide Layout, Total, Pending, Contents;
    PopKeeps(q, back, front, used, limit, |buf|);
    PendingFirst(buf, q);
    Regroup(delivered, [], Contents(buf, q[0]), Pending(buf, q[1..]));
    assert delivered + [] == delivered && [] + Contents(buf, q[0]) == Contents(buf, q[0]);
  }

  lemma PendingFirst(buf: seq<byte>, q: seq<Entry>)
    requires q != []
    ensures Pending(buf, q) == Contents(buf, q[0]) + Pending(buf, q[1..])
  {
  }

  /** Giving back the last n bytes sent. */
  lemma StreamRewind(buf: seq<byte>, q: seq<Entry>, back: nat, front: nat, used: nat, limit: nat,
                     delivered: seq<byte>, sent: seq<byte>, n: nat)
    requires Stream(buf, q, back, front, used, limit, delivered, sent) && n <= used - front
    ensures n <= |sent|
    ensures Stream(buf, q, back, front, used - n, limit, delivered, sent[..|sent| - n])
  {
    hide Pending, Total, Tiles, BackTiles, Start;
    assert buf[front..used] == buf[front..used - n] + buf[used - n..used];
    assert sent == (delivered + Pending(buf, q) + buf[front..used - n]) + buf[used - n..used];
  }
}
