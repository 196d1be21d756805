/** A soft reset of a path: what it forgets, and exactly when a later copy or move then lands on a
    packet that is still to be read. */
module GifSoftReset {
  import opened Basics
  import opened GifLayout

  /** A soft reset drops the n bytes of the packet being built but leaves the reader's position
      alone. The layout survives it exactly if nothing was dropped or nothing is left to read. */
  lemma SoftResetKeeps(q: seq<Entry>, back: nat, front: nat, used: nat, limit: nat, end: nat, n: nat)
    requires Layout(q, back, front, used, limit, end) && n <= used - front
    ensures Layout(q, back, front + n, front + n, limit, end) <==> n == 0 || q == []
  {
    assert q[0..] == q;
    TilesUnique(q[back..], if back == 0 then front - Total(q) else 0, front,
                if back == 0 then front + n - Total(q) else 0, front + n);
  }

  /** Forgetting n parsed bytes, the data behind them and as much of the end of the stream. */
  lemma StreamReset(buf: seq<byte>, q: seq<Entry>, back: nat, front: nat, used: nat, limit: nat,
                    delivered: seq<byte>, sent: seq<byte>, n: nat)
    requires Stream(buf, q, back, front, used, limit, delivered, sent) && n <= used - front
    ensures used - front <= |sent|
    ensures Stream(buf, q, back, front + n, front + n, limit, delivered, sent[..|sent| - (used - front)])
            <==> n == 0 || q == []
  {
    SoftResetKeeps(q, back, front, used, limit, |buf|, n);
    StreamRewind(buf, q, back, front, used, limit, delivered, sent, used - front);
    hide Pending, Tiles, BackTiles, Total, Start;
  }

  lemma TilesUnique(q: seq<Entry>, lo: int, hi: int, lo': int, hi': int)
    requires Tiles(q, lo, hi)
    ensures Tiles(q, lo', hi') && q != [] ==> lo' == lo && hi' == hi
    ensures Tiles(q, lo', hi') && lo' == lo ==> hi' == hi
  {
    if Tiles(q, lo', hi') {
      TilesTotal(q, lo, hi);
      TilesTotal(q, lo', hi');
    }
  }

  // ---- Bytes still to be read ----

  /** Byte x of the buffer belongs to a submitted packet that has not been read. */
  ghost predicate UnreadByte(q: seq<Entry>, x: int) {
    exists i | 0 <= i < |q| :: InEntry(q[i], x)
  }

  predicate InEntry(e: Entry, x: int) {
    e.Data? && e.offset <= x < e.offset + e.size
  }

  ghost predicate HitsUnread(q: seq<Entry>, lo: int, hi: int) {
    exists x | lo <= x < hi :: UnreadByte(q, x)
  }

  lemma UnreadFirst(q: seq<Entry>, x: int)
    requires q != []
    ensures UnreadByte(q, x) <==> InEntry(q[0], x) || UnreadByte(q[1..], x)
  {
    if UnreadByte(q[1..], x) {
      var i :| 0 <= i < |q| - 1 && InEntry(q[1..][i], x);
      assert q[i + 1] == q[1..][i];
    }
    if UnreadByte(q, x) {
      var i :| 0 <= i < |q| && InEntry(q[i], x);
      assert i > 0 ==> q[1..][i - 1] == q[i];
    }
  }

  lemma {:induction false} UnreadTiles(q: seq<Entry>, lo: int, hi: int, x: int)
    requires Tiles(q, lo, hi)
    ensures lo <= hi && (UnreadByte(q, x) <==> lo <= x < hi)
  {
    if q != [] {
      UnreadFirst(q, x);
      UnreadTiles(q[1..], lo + q[0].size, hi, x);
    }
  }

  lemma {:induction false} UnreadBack(q: seq<Entry>, lo: int, limit: nat, end: nat, x: int)
    requires BackTiles(q, lo, limit, end)
    ensures UnreadByte(q, x) <==> lo <= x < BackEnd(q, lo)
  {
    if q != [] {
      UnreadFirst(q, x);
      if q[0].Data? {
        BackTotal(q[1..], lo + q[0].size, limit, end);
        UnreadBack(q[1..], lo + q[0].size, limit, end, x);
      } else {
        assert q[1..] == [];
      }
    }
  }

  lemma {:induction false} UnreadSplits(a: seq<Entry>, b: seq<Entry>, x: int)
    ensures UnreadByte(a + b, x) <==> UnreadByte(a, x) || UnreadByte(b, x)
  {
    if a == [] {
      assert a + b == b;
    } else {
      assert (a + b)[1..] == a[1..] + b;
      UnreadFirst(a + b, x);
      UnreadFirst(a, x);
      UnreadSplits(a[1..], b, x);
    }
  }

  /** The unread bytes lie directly before the packet being built, or, once the buffer has wrapped,
      before it down to zero and from the oldest packet up to the wrap. */
  lemma UnreadIs(q: seq<Entry>, back: nat, front: nat, used: nat, limit: nat, end: nat, x: int)
    requires Layout(q, back, front, used, limit, end)
    ensures back == 0 ==> (UnreadByte(q, x) <==> front - Total(q) <= x < front)
    ensures back > 0 ==>
      (UnreadByte(q, x) <==> 0 <= x < front || Start(q, limit) <= x < BackEnd(q[..back], Start(q, limit)))
  {
    assert q == q[..back] + q[back..];
    UnreadSplits(q[..back], q[back..], x);
    if back == 0 {
      UnreadTiles(q[0..], front - Total(q), front, x);
    } else {
      UnreadTiles(q[back..], 0, front, x);
      UnreadBack(q[..back], Start(q, limit), limit, end, x);
    }
  }

  lemma TotalSplits(q: seq<Entry>, back: nat, front: nat, used: nat, limit: nat, end: nat)
    requires Layout(q, back, front, used, limit, end)
    ensures back > 0 ==> Total(q) == Total(q[..back]) + front
  {
    hide BackTiles;
    assert q == q[..back] + q[back..];
    Splits([], q[..back], q[back..]);
    if back > 0 {
      TilesTotal(q[back..], 0, front);
    }
  }

  /** What lies before the wrap: the oldest packet first. */
  lemma BackFacts(b: seq<Entry>, lo: int, limit: nat, end: nat)
    requires b != [] && BackTiles(b, lo, limit, end)
    ensures Total(b) > 0 && lo + Total(b) >= limit
    ensures b[0].Data? ==> b[0].offset == lo && b[0].size > 0 && lo + b[0].size <= BackEnd(b, lo) <= end
    ensures b[0].Blank? ==> BackEnd(b, lo) == lo
  {
    BackTotal(b, lo, limit, end);
    if b[0].Data? {
      BackTotal(b[1..], lo + b[0].size, limit, end);
    }
  }

  /** The code's count of unread bytes tells whether the buffer has wrapped. */
  lemma WrappedTotal(q: seq<Entry>, back: nat, front: nat, used: nat, limit: nat, end: nat)
    requires Layout(q, back, front, used, limit, end)
    ensures back > 0 <==> Total(q) > front
    ensures back > 0 && q[0].Data? ==>
      && Start(q, limit) == q[0].offset && q[0].size > 0 && q[0].offset + q[0].size <= end && used <= q[0].offset
      && BackEnd(q[..back], Start(q, limit)) >= q[0].offset + q[0].size
      && q[0].offset + Total(q) - front >= limit
    ensures back > 0 && q[0].Blank? ==> BackEnd(q[..back], Start(q, limit)) == Start(q, limit)
  {
    hide Total, BackTiles, Tiles, BackEnd;
    TotalSplits(q, back, front, used, limit, end);
    if back > 0 {
      BackFacts(q[..back], Start(q, limit), limit, end);
      assert q[..back][0] == q[0];
    }
  }

  // ---- What a path does to its buffer ----

  /** Where a path stands: the packets still to be read, where the packet being built begins, and where
      its data ends. */
  datatype Place = Place(q: seq<Entry>, front: nat, used: nat)

  /** A whole number of quadwords. */
  predicate Whole(x: int) {
    x % 16 == 0
  }

  lemma WholeSum(a: int, b: int)
    requires Whole(a) && Whole(b)
    ensures Whole(a + b) && Whole(a - b)
  {
  }

  /** The limit from which a packet is moved, the buffer's size, and the longest transfer. */
  datatype Frame = Frame(limit: nat, end: nat, most: nat) {
    /** Everything in quadwords; a transfer fits behind the limit. */
    predicate Ok() {
      && Whole(limit) && Whole(end) && limit + 32 <= end
      && 16 <= most && limit + most <= end
    }
  }

  /** CopyGSPacketData's wait is over: `total` is readAmount, `front` where the packet begins. */
  predicate CopyPasses(front: int, used: int, total: int, limit: int, size: int) {
    front - total >= 0 || limit + (front - total) > used + size
  }

  /** RealignPacket's wait is over. */
  predicate MovePasses(front: int, used: int, total: int) {
    var toAdd := used - front;
    var intersect := if toAdd - front < 0 then 0 else toAdd - front;
    front - total >= toAdd - intersect
  }

  /** Data comes in; the packet is moved to the front of the buffer; its first bytes are submitted; the
      reader finishes its oldest packet; a masked path gives back what lies behind a packet. */
  datatype Step = Copy(size: nat) | Move | Submit(size: nat) | Pop | GiveBack

  /** The packet is moved for a tag past the limit, or for data that does not fit. */
  predicate MoveAsked(s: Place, f: Frame) {
    (s.used >= s.front + 16 && s.used > f.limit + 16) || s.used + f.most > f.end
  }

  predicate TagPast(s: Place, f: Frame, at: nat) {
    s.front <= at && at + 16 <= s.used && at > f.limit
  }

  predicate NoRoom(s: Place, f: Frame, size: nat) {
    0 < size <= f.most && s.used + size > f.end
  }

  /** That is: some tag of the packet may lie past the limit with all its bytes there, or some transfer
      does not fit. */
  lemma MoveAskedIff(s: Place, f: Frame)
    requires f.most > 0
    ensures MoveAsked(s, f) <==> (exists at :: TagPast(s, f, at)) || (exists size :: NoRoom(s, f, size))
  {
    if s.used >= s.front + 16 && s.used > f.limit + 16 {
      assert TagPast(s, f, s.used - 16);
    } else if s.used + f.most > f.end {
      assert NoRoom(s, f, f.most);
    }
  }

  /** When the code takes the step. A packet whose first tag lies past the limit is moved before it is
      parsed. */
  predicate Allowed(s: Place, op: Step, f: Frame) {
    s.front <= s.used &&
    match op
    case Copy(k) =>
      0 < k <= f.most && Whole(k) && s.used + k <= f.end && CopyPasses(s.front, s.used, Total(s.q), f.limit, k)
    case Move =>
      MoveAsked(s, f) && MovePasses(s.front, s.used, Total(s.q))
    case Submit(j) => 0 < j <= s.used - s.front && Whole(j) && s.front <= f.limit
    case Pop => s.q != []
    case GiveBack => true
  }

  function Next(s: Place, op: Step, f: Frame): Place
    requires Allowed(s, op, f)
  {
    match op
    case Copy(k) => s.(used := s.used + k)
    case Move => Place(Realigned(s.q, s.front, f.limit), 0, s.used - s.front)
    case Submit(j) => Place(s.q + [Data(s.front, j)], s.front + j, s.used)
    case Pop => s.(q := s.q[1..])
    case GiveBack => s.(used := s.front)
  }

  ghost predicate Leads(s: Place, op: Step, t: Place, f: Frame) {
    Allowed(s, op, f) && Next(s, op, f) == t
  }

  /** The step writes over a byte that is still to be read. */
  ghost predicate Harms(s: Place, op: Step) {
    match op
    case Copy(k) => HitsUnread(s.q, s.used, s.used + k)
    case Move => HitsUnread(s.q, 0, s.used - s.front)
    case _ => false
  }

  /** The steps can be taken up to one that does. */
  ghost predicate RunHarms(s: Place, ops: seq<Step>, f: Frame)
    decreases |ops|
  {
    ops != [] && Allowed(s, ops[0], f) && (Harms(s, ops[0]) || RunHarms(Next(s, ops[0], f), ops[1..], f))
  }

  ghost predicate CanHarm(s: Place, f: Frame) {
    exists ops :: RunHarms(s, ops, f)
  }

  lemma HarmsNow(s: Place, op: Step, f: Frame)
    requires Allowed(s, op, f) && Harms(s, op)
    ensures CanHarm(s, f)
  {
    hide Harms, Allowed, Whole;
    assert RunHarms(s, [op], f);
  }

  lemma HarmsLater(s: Place, op: Step, f: Frame)
    requires Allowed(s, op, f) && CanHarm(Next(s, op, f), f)
    ensures CanHarm(s, f)
  {
    hide Harms, Allowed, Next, Whole;
    var ops :| RunHarms(Next(s, op, f), ops, f);
    assert ([op] + ops)[1..] == ops;
    assert RunHarms(s, [op] + ops, f);
  }

  // ---- Without a soft reset nothing is harmed ----

  lemma LayoutStep(s: Place, back: nat, op: Step, f: Frame) returns (back': nat)
    requires Layout(s.q, back, s.front, s.used, f.limit, f.end) && Allowed(s, op, f)
    ensures !Harms(s, op)
    ensures var n := Next(s, op, f); Layout(n.q, back', n.front, n.used, f.limit, f.end)
  {
    hide Total, Tiles, BackTiles, BackEnd, Start, Layout, UnreadByte, Whole;
    match op
    case Copy(k) =>
      back' := back;
      LayoutCopy(s, back, k, f);
    case Move =>
      back' := |Realigned(s.q, s.front, f.limit)|;
      LayoutMove(s, back, f);
    case Submit(j) =>
      back' := back;
      SubmitKeeps(s.q, back, s.front, s.used, f.limit, f.end, j);
    case Pop =>
      back' := if back == 0 then 0 else back - 1;
      PopKeeps(s.q, back, s.front, s.used, f.limit, f.end);
    case GiveBack =>
      back' := back;
      LayoutGiveBack(s, back, f);
  }

  lemma LayoutGiveBack(s: Place, back: nat, f: Frame)
    requires Layout(s.q, back, s.front, s.used, f.limit, f.end)
    ensures Layout(s.q, back, s.front, s.front, f.limit, f.end)
  {
    hide Total, Tiles, BackTiles, Start;
  }

  lemma LayoutCopy(s: Place, back: nat, k: nat, f: Frame)
    requires Layout(s.q, back, s.front, s.used, f.limit, f.end) && s.used + k <= f.end
    requires CopyPasses(s.front, s.used, Total(s.q), f.limit, k)
    ensures !HitsUnread(s.q, s.used, s.used + k)
    ensures Layout(s.q, back, s.front, s.used + k, f.limit, f.end)
  {
    WrappedTotal(s.q, back, s.front, s.used, f.limit, f.end);
    forall x | s.used <= x < s.used + k ensures !UnreadByte(s.q, x) {
      UnreadIs(s.q, back, s.front, s.used, f.limit, f.end, x);
    }
    hide Total, Tiles, BackTiles, UnreadByte, BackEnd;
  }

  lemma LayoutMove(s: Place, back: nat, f: Frame)
    requires Layout(s.q, back, s.front, s.used, f.limit, f.end) && MovePasses(s.front, s.used, Total(s.q))
    ensures !HitsUnread(s.q, 0, s.used - s.front)
    ensures var q := Realigned(s.q, s.front, f.limit); Layout(q, |q|, 0, s.used - s.front, f.limit, f.end)
  {
    hide Total, Tiles, BackTiles, Start, BackEnd, UnreadByte, Realigned;
    RealignKeeps(s.q, back, s.front, s.used, f.limit, f.end);
    assert back == 0 by { NotWrapped(s.q, back, s.front, s.used, f.limit, f.end); }
    forall x | 0 <= x < s.used - s.front ensures !UnreadByte(s.q, x) {
      UnreadIs(s.q, 0, s.front, s.used, f.limit, f.end, x);
      NoEntryUnread(s.q, x);
    }
  }

  lemma NoEntryUnread(q: seq<Entry>, x: int)
    ensures q == [] ==> !UnreadByte(q, x)
  {
  }

  lemma {:induction false} LayoutRun(s: Place, back: nat, ops: seq<Step>, f: Frame)
    requires Layout(s.q, back, s.front, s.used, f.limit, f.end)
    ensures !RunHarms(s, ops, f)
    decreases |ops|
  {
    hide Layout, Harms, Next, Allowed;
    if ops != [] && Allowed(s, ops[0], f) {
      var back' := LayoutStep(s, back, ops[0], f);
      LayoutRun(Next(s, ops[0], f), back', ops[1..], f);
    }
  }

  /** As long as there is no soft reset, no run of copies, moves, submissions and reads that the code's
      checks let through writes over a byte still to be read. */
  lemma NeverHarms(s: Place, back: nat, f: Frame)
    requires Layout(s.q, back, s.front, s.used, f.limit, f.end)
    ensures !CanHarm(s, f)
  {
    hide Layout, RunHarms;
    forall ops ensures !RunHarms(s, ops, f) {
      LayoutRun(s, back, ops, f);
    }
  }
}
