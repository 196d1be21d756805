/** Exactly when a soft reset lets a later step of the path write over a packet that is still to be read. */
module GifResetHazard {
  import opened Basics
  import opened GifLayout
  import opened GifSoftReset

  /** All sizes and places are whole quadwords. */
  predicate Quadwords(q: seq<Entry>) {
    q == [] || (Whole(q[0].size) && (q[0].Data? ==> Whole(q[0].offset)) && Quadwords(q[1..]))
  }

  /** What the newest packet before a wrap, with the blank behind it, adds to the reader's count. */
  function Tail(q: seq<Entry>): nat {
    if q == [] then 0
    else if |q| == 1 || q[1].Blank? then Total(q)
    else Tail(q[1..])
  }

  /** The condition: n bytes were dropped from a packet that began at `front`. With unread packets
      directly before it, the reader at `a`: the buffer behind the dropped bytes is longer than `a`, or
      two quadwords were dropped and the packet began two quadwords before the limit. With all of them
      before a wrap: the dropped bytes outweigh the newest of them, or what keeps a copy off the oldest. */
  predicate Hazard(q: seq<Entry>, front: nat, n: nat, f: Frame) {
    q != [] && n > 0 &&
    if front > 0 then
      var a := if Total(q) <= front then front - Total(q) else 0;
      front + n + a < f.end || (n >= 32 && f.limit - front >= 32)
    else q[0].Data? && (n >= Tail(q) || n > q[0].offset + Total(q) - f.limit + 16)
  }

  // ---- If the condition fails, nothing is harmed: the states that can then be reached ----

  function Skip(n: nat): seq<Entry> { if n == 0 then [] else [Blank(n)] }

  /** No wrap since the reset: old packets on [x, h), new ones from f0 on, nothing in between. */
  ghost predicate Straight(s: Place, b: nat, old_: seq<Entry>, new_: seq<Entry>, x: nat, h: nat, f0: nat, f: Frame) {
    && s.q == Skip(b) + old_ + new_ && (b > 0 || old_ != [])
    && Tiles(old_, x, h) && Tiles(new_, f0, s.front) && x <= h <= f0 <= s.front <= s.used <= f.end
    && Quadwords(old_) && Whole(x) && Whole(h) && Whole(f0) && Whole(s.front) && Whole(s.used)
    && (old_ != [] ==> f0 + x >= f.end && (f0 - h <= 16 || f.limit - h <= 16))
  }

  /** The buffer has wrapped since: those packets, the blank up to the limit, and `late` from the bottom. */
  ghost predicate Turned(s: Place, b: nat, old_: seq<Entry>, new_: seq<Entry>, fill: nat, late: seq<Entry>,
                         x: nat, h: nat, f0: nat, e: nat, f: Frame) {
    && s.q == Skip(b) + old_ + (new_ + Skip(fill) + late) && (b > 0 || old_ != [])
    && Tiles(old_, x, h) && Tiles(new_, f0, e) && Tiles(late, 0, s.front)
    && x <= h <= f0 <= e <= f.end && fill == (if e < f.limit then f.limit - e else 0)
    && Quadwords(old_) && Whole(x) && Whole(h) && Whole(f0) && Whole(e) && Whole(s.front) && Whole(s.used)
    && s.front <= s.used <= (if old_ != [] then x else f0)
    && (old_ != [] ==> f0 - h - (if e < f.limit then 0 else e - f.limit) <= 16)
  }

  /** The reset came after a wrap, at the bottom of the buffer: old packets from x on, ahead of it. */
  ghost predicate Ahead(s: Place, old_: seq<Entry>, new_: seq<Entry>, x: nat, f0: nat, f: Frame) {
    && s.q == old_ + new_ && old_ != [] && old_[0].Data?
    && BackTiles(old_, x, f.limit, f.end) && Tiles(new_, f0, s.front) && f0 <= s.front <= s.used <= x
    && Quadwords(old_) && Whole(x) && Whole(f0) && Whole(s.front) && Whole(s.used)
    && f0 < Tail(old_) && f0 <= x + Total(old_) - f.limit + 16
  }

  ghost predicate Safe(s: Place, f: Frame) {
    || (exists back: nat :: Layout(s.q, back, s.front, s.used, f.limit, f.end))
    || (exists b: nat, old_, new_, x: nat, h: nat, f0: nat :: Straight(s, b, old_, new_, x, h, f0, f))
    || (exists b: nat, old_, new_, fill: nat, late, x: nat, h: nat, f0: nat, e: nat ::
          Turned(s, b, old_, new_, fill, late, x, h, f0, e, f))
    || (exists old_, new_, x: nat, f0: nat :: Ahead(s, old_, new_, x, f0, f))
  }

  // ---- Lists of packets in parts ----

  lemma TotalParts(a: seq<Entry>, b: seq<Entry>)
    ensures Total(a + b) == Total(a) + Total(b)
  {
    Splits([], a, b);
  }

  lemma TotalSkip(n: nat)
    ensures Total(Skip(n)) == n
  {
    assert n > 0 ==> [Blank(n)][1..] == [];
  }

  lemma UnreadSkip(n: nat, x: int)
    ensures !UnreadByte(Skip(n), x)
  {
  }

  lemma StraightFacts(s: Place, b: nat, old_: seq<Entry>, new_: seq<Entry>, x: nat, h: nat, f0: nat, f: Frame)
    requires Straight(s, b, old_, new_, x, h, f0, f)
    ensures Total(s.q) == b + (h - x) + (s.front - f0)
    ensures old_ == [] <==> h == x
  {
    hide Quadwords, Whole;
    TotalParts(Skip(b) + old_, new_);
    TotalParts(Skip(b), old_);
    TotalSkip(b);
    TilesTotal(old_, x, h);
    TilesTotal(new_, f0, s.front);
    TilesEmpty(old_, x, h);
  }

  lemma TilesEmpty(q: seq<Entry>, lo: int, hi: int)
    requires Tiles(q, lo, hi)
    ensures lo <= hi && (q == [] <==> lo == hi)
  {
    if q != [] {
      TilesTotal(q, lo, hi);
      TilesTotal(q[1..], lo + q[0].size, hi);
    }
  }

  lemma StraightUnread(s: Place, b: nat, old_: seq<Entry>, new_: seq<Entry>, x: nat, h: nat, f0: nat, f: Frame, y: int)
    requires Straight(s, b, old_, new_, x, h, f0, f)
    ensures UnreadByte(s.q, y) <==> x <= y < h || f0 <= y < s.front
  {
    hide Quadwords, UnreadByte, Tiles, Whole;
    UnreadSplits(Skip(b) + old_, new_, y);
    UnreadSplits(Skip(b), old_, y);
    UnreadSkip(b, y);
    UnreadTiles(old_, x, h, y);
    UnreadTiles(new_, f0, s.front, y);
  }

  lemma TurnedFacts(s: Place, b: nat, old_: seq<Entry>, new_: seq<Entry>, fill: nat, late: seq<Entry>,
                    x: nat, h: nat, f0: nat, e: nat, f: Frame)
    requires Turned(s, b, old_, new_, fill, late, x, h, f0, e, f)
    ensures Total(s.q) == b + (h - x) + (e - f0) + fill + s.front
    ensures old_ == [] <==> h == x
  {
    hide Quadwords, Whole;
    TotalParts(Skip(b) + old_, new_ + Skip(fill) + late);
    TotalParts(Skip(b), old_);
    TotalParts(new_ + Skip(fill), late);
    TotalParts(new_, Skip(fill));
    TotalSkip(b);
    TotalSkip(fill);
    TilesTotal(old_, x, h);
    TilesTotal(new_, f0, e);
    TilesTotal(late, 0, s.front);
    TilesEmpty(old_, x, h);
  }

  lemma TurnedUnread(s: Place, b: nat, old_: seq<Entry>, new_: seq<Entry>, fill: nat, late: seq<Entry>,
                     x: nat, h: nat, f0: nat, e: nat, f: Frame, y: int)
    requires Turned(s, b, old_, new_, fill, late, x, h, f0, e, f)
    ensures UnreadByte(s.q, y) <==> x <= y < h || f0 <= y < e || 0 <= y < s.front
  {
    hide Quadwords, UnreadByte, Tiles, Whole;
    UnreadSplits(Skip(b) + old_, new_ + Skip(fill) + late, y);
    UnreadSplits(Skip(b), old_, y);
    UnreadSplits(new_ + Skip(fill), late, y);
    UnreadSplits(new_, Skip(fill), y);
    UnreadSkip(b, y);
    UnreadSkip(fill, y);
    UnreadTiles(old_, x, h, y);
    UnreadTiles(new_, f0, e, y);
    UnreadTiles(late, 0, s.front, y);
  }

  lemma AheadUnread(s: Place, old_: seq<Entry>, new_: seq<Entry>, x: nat, f0: nat, f: Frame, y: int)
    requires Ahead(s, old_, new_, x, f0, f)
    ensures UnreadByte(s.q, y) ==> x <= y || f0 <= y < s.front
  {
    hide Quadwords, UnreadByte, Tiles, BackTiles, Whole;
    UnreadSplits(old_, new_, y);
    UnreadBack(old_, x, f.limit, f.end, y);
    UnreadTiles(new_, f0, s.front, y);
  }

  lemma AheadFacts(s: Place, old_: seq<Entry>, new_: seq<Entry>, x: nat, f0: nat, f: Frame)
    requires Ahead(s, old_, new_, x, f0, f)
    ensures Total(s.q) == Total(old_) + (s.front - f0) && f0 < Total(old_)
  {
    hide Quadwords, BackTiles, Whole;
    TotalParts(old_, new_);
    TilesTotal(new_, f0, s.front);
    TailWithin(old_);
  }

  lemma {:induction false} TailWithin(q: seq<Entry>)
    ensures Tail(q) <= Total(q)
  {
    if |q| > 1 { TailWithin(q[1..]); }
  }

  // ---- Every step keeps them ----

  lemma IsLayout(s: Place, back: nat, f: Frame)
    requires Layout(s.q, back, s.front, s.used, f.limit, f.end)
    ensures Safe(s, f)
  {
  }

  lemma IsStraight(s: Place, b: nat, old_: seq<Entry>, new_: seq<Entry>, x: nat, h: nat, f0: nat, f: Frame)
    requires Straight(s, b, old_, new_, x, h, f0, f)
    ensures Safe(s, f)
  {
  }

  lemma IsTurned(s: Place, b: nat, old_: seq<Entry>, new_: seq<Entry>, fill: nat, late: seq<Entry>,
                 x: nat, h: nat, f0: nat, e: nat, f: Frame)
    requires Turned(s, b, old_, new_, fill, late, x, h, f0, e, f)
    ensures Safe(s, f)
  {
  }

  lemma IsAhead(s: Place, old_: seq<Entry>, new_: seq<Entry>, x: nat, f0: nat, f: Frame)
    requires Ahead(s, old_, new_, x, f0, f)
    ensures Safe(s, f)
  {
  }

  /** New packets with nothing before them lie as they should. */
  lemma OnlyNew(q: seq<Entry>, f0: nat, front: nat, used: nat, f: Frame)
    requires Tiles(q, f0, front) && front <= used <= f.end && f.limit <= f.end
    ensures Layout(q, 0, front, used, f.limit, f.end)
  {
    TilesTotal(q, f0, front);
    assert q[0..] == q;
  }

  lemma StraightStep(s: Place, b: nat, old_: seq<Entry>, new_: seq<Entry>, x: nat, h: nat, f0: nat, op: Step, f: Frame)
    requires Straight(s, b, old_, new_, x, h, f0, f) && f.Ok() && Allowed(s, op, f)
    ensures !Harms(s, op) && Safe(Next(s, op, f), f)
  {
    hide Tiles, BackTiles, Total, Safe, UnreadByte, Quadwords, Straight, MovePasses, CopyPasses, HitsUnread, Whole;
    match op
    case Copy(k) => StraightCopy(s, b, old_, new_, x, h, f0, k, f);
    case Move => StraightMove(s, b, old_, new_, x, h, f0, f);
    case Submit(j) => StraightSubmit(s, b, old_, new_, x, h, f0, j, f);
    case Pop => StraightPop(s, b, old_, new_, x, h, f0, f);
    case GiveBack => StraightGiveBack(s, b, old_, new_, x, h, f0, f);
  }

  lemma StraightCopy(s: Place, b: nat, old_: seq<Entry>, new_: seq<Entry>, x: nat, h: nat, f0: nat, k: nat, f: Frame)
    requires Straight(s, b, old_, new_, x, h, f0, f) && s.used + k <= f.end && Whole(k)
    ensures !HitsUnread(s.q, s.used, s.used + k) && Safe(s.(used := s.used + k), f)
  {
    hide Tiles, Safe, UnreadByte, Quadwords, Whole;
    WholeSum(s.used, k);
    forall y | s.used <= y < s.used + k ensures !UnreadByte(s.q, y) {
      StraightUnread(s, b, old_, new_, x, h, f0, f, y);
    }
    IsStraight(s.(used := s.used + k), b, old_, new_, x, h, f0, f);
  }

  lemma StraightSubmit(s: Place, b: nat, old_: seq<Entry>, new_: seq<Entry>, x: nat, h: nat, f0: nat, j: nat, f: Frame)
    requires Straight(s, b, old_, new_, x, h, f0, f) && 0 < j <= s.used - s.front && Whole(j)
    ensures Safe(Place(s.q + [Data(s.front, j)], s.front + j, s.used), f)
  {
    hide Tiles, Safe, Quadwords, Whole;
    WholeSum(s.front, j);
    var more := new_ + [Data(s.front, j)];
    assert s.q + [Data(s.front, j)] == Skip(b) + old_ + more;
    TilesAppend(new_, f0, s.front, j);
    IsStraight(Place(s.q + [Data(s.front, j)], s.front + j, s.used), b, old_, more, x, h, f0, f);
  }

  lemma StraightGiveBack(s: Place, b: nat, old_: seq<Entry>, new_: seq<Entry>, x: nat, h: nat, f0: nat, f: Frame)
    requires Straight(s, b, old_, new_, x, h, f0, f)
    ensures Safe(s.(used := s.front), f)
  {
    hide Tiles, Safe, Quadwords, Whole;
    IsStraight(s.(used := s.front), b, old_, new_, x, h, f0, f);
  }

  /** The move takes the data no further than the reader, or the checks do not let it through. */
  lemma StraightMove(s: Place, b: nat, old_: seq<Entry>, new_: seq<Entry>, x: nat, h: nat, f0: nat, f: Frame)
    requires Straight(s, b, old_, new_, x, h, f0, f) && f.Ok() && MovePasses(s.front, s.used, Total(s.q))
    ensures !HitsUnread(s.q, 0, s.used - s.front)
    ensures Safe(Place(Realigned(s.q, s.front, f.limit), 0, s.used - s.front), f)
  {
    hide Tiles, BackTiles, Total, Safe, UnreadByte, Quadwords, Whole;
    StraightRoom(s, b, old_, new_, x, h, f0, f);
    forall y | 0 <= y < s.used - s.front ensures !UnreadByte(s.q, y) {
      StraightUnread(s, b, old_, new_, x, h, f0, f, y);
    }
    StraightTurns(s, b, old_, new_, x, h, f0, f);
  }

  lemma StraightRoom(s: Place, b: nat, old_: seq<Entry>, new_: seq<Entry>, x: nat, h: nat, f0: nat, f: Frame)
    requires Straight(s, b, old_, new_, x, h, f0, f) && f.Ok() && MovePasses(s.front, s.used, Total(s.q))
    ensures s.used - s.front <= (if old_ != [] then x else f0) && (old_ == [] ==> x == h)
  {
    hide Tiles, Total, Quadwords, Whole;
    StraightFacts(s, b, old_, new_, x, h, f0, f);
  }

  lemma StraightTurns(s: Place, b: nat, old_: seq<Entry>, new_: seq<Entry>, x: nat, h: nat, f0: nat, f: Frame)
    requires Straight(s, b, old_, new_, x, h, f0, f) && s.used - s.front <= (if old_ != [] then x else f0)
    ensures Safe(Place(Realigned(s.q, s.front, f.limit), 0, s.used - s.front), f)
  {
    hide Tiles, Safe, Quadwords, Whole;
    WholeSum(s.used, s.front);
    var fill := if s.front < f.limit then f.limit - s.front else 0;
    var n := Place(Realigned(s.q, s.front, f.limit), 0, s.used - s.front);
    SkipBehind(s.q, Skip(b) + old_, new_, fill);
    NoTiles();
    IsTurned(n, b, old_, new_, fill, [], x, h, f0, s.front, f);
  }

  lemma SkipBehind(q: seq<Entry>, a: seq<Entry>, c: seq<Entry>, fill: nat)
    requires q == a + c
    ensures (if fill == 0 then q else q + [Blank(fill)]) == a + (c + Skip(fill) + [])
  {
  }

  lemma NoTiles()
    ensures Tiles([], 0, 0) && Quadwords([]) && Total([]) == 0 && Whole(0) && Whole(16)
  {
  }

  lemma FirstTile(q: seq<Entry>, x: nat, h: nat)
    requires Tiles(q, x, h) && q != [] && Quadwords(q) && Whole(x)
    ensures Tiles(q[1..], x + q[0].size, h) && Quadwords(q[1..]) && Whole(x + q[0].size)
    ensures x + q[0].size <= h
  {
    TilesTotal(q, x, h);
    TilesTotal(q[1..], x + q[0].size, h);
  }

  lemma StraightPop(s: Place, b: nat, old_: seq<Entry>, new_: seq<Entry>, x: nat, h: nat, f0: nat, f: Frame)
    requires Straight(s, b, old_, new_, x, h, f0, f) && f.limit <= f.end
    ensures s.q != [] && Safe(s.(q := s.q[1..]), f)
  {
    hide Tiles, BackTiles, Total, Safe, Layout, Quadwords, Whole;
    var n := s.(q := s.q[1..]);
    PopParts(s.q, b, old_, new_);
    if b == 0 { FirstTile(old_, x, h); }
    if (if b > 0 then old_ == [] else |old_| == 1) {
      assert n.q == new_;
      OnlyNew(new_, f0, s.front, s.used, f);
      IsLayout(n, 0, f);
    } else if b > 0 {
      IsStraight(n, 0, old_, new_, x, h, f0, f);
    } else {
      IsStraight(n, 0, old_[1..], new_, x + old_[0].size, h, f0, f);
    }
  }

  lemma PopParts(q: seq<Entry>, b: nat, old_: seq<Entry>, rest: seq<Entry>)
    requires q == Skip(b) + old_ + rest && (b > 0 || old_ != [])
    ensures q != [] && q[1..] == Skip(0) + (if b > 0 then old_ else old_[1..]) + rest
  {
    if b > 0 {
      assert q == [Blank(b)] + (old_ + rest);
    } else {
      assert q == [old_[0]] + (old_[1..] + rest);
    }
  }

  lemma TurnedStep(s: Place, b: nat, old_: seq<Entry>, new_: seq<Entry>, fill: nat, late: seq<Entry>,
                   x: nat, h: nat, f0: nat, e: nat, op: Step, f: Frame)
    requires Turned(s, b, old_, new_, fill, late, x, h, f0, e, f) && f.Ok() && Allowed(s, op, f)
    ensures !Harms(s, op) && Safe(Next(s, op, f), f)
  {
    hide Tiles, BackTiles, Total, Safe, UnreadByte, Quadwords, Layout, Whole;
    hide Turned, MovePasses, CopyPasses, HitsUnread, Whole;
    match op
    case Copy(k) => TurnedCopy(s, b, old_, new_, fill, late, x, h, f0, e, k, f);
    case Move => TurnedStays(s, b, old_, new_, fill, late, x, h, f0, e, f);
    case Submit(j) => TurnedSubmit(s, b, old_, new_, fill, late, x, h, f0, e, j, f);
    case Pop => TurnedPop(s, b, old_, new_, fill, late, x, h, f0, e, f);
    case GiveBack => TurnedGiveBack(s, b, old_, new_, fill, late, x, h, f0, e, f);
  }

  lemma TurnedCopy(s: Place, b: nat, old_: seq<Entry>, new_: seq<Entry>, fill: nat, late: seq<Entry>,
                   x: nat, h: nat, f0: nat, e: nat, k: nat, f: Frame)
    requires Turned(s, b, old_, new_, fill, late, x, h, f0, e, f) && f.Ok() && Whole(k)
    requires CopyPasses(s.front, s.used, Total(s.q), f.limit, k)
    ensures !HitsUnread(s.q, s.used, s.used + k) && Safe(s.(used := s.used + k), f)
  {
    hide Tiles, Total, Safe, UnreadByte, Quadwords, CopyPasses, Whole;
    WholeSum(s.used, k);
    TurnedRoom(s, b, old_, new_, fill, late, x, h, f0, e, k, f);
    forall y | s.used <= y < s.used + k ensures !UnreadByte(s.q, y) {
      TurnedUnread(s, b, old_, new_, fill, late, x, h, f0, e, f, y);
    }
    IsTurned(s.(used := s.used + k), b, old_, new_, fill, late, x, h, f0, e, f);
  }

  lemma TurnedRoom(s: Place, b: nat, old_: seq<Entry>, new_: seq<Entry>, fill: nat, late: seq<Entry>,
                   x: nat, h: nat, f0: nat, e: nat, k: nat, f: Frame)
    requires Turned(s, b, old_, new_, fill, late, x, h, f0, e, f) && Whole(k)
    requires CopyPasses(s.front, s.used, Total(s.q), f.limit, k)
    ensures s.used + k <= (if old_ != [] then x else f0) && (old_ == [] ==> x == h)
  {
    hide Tiles, Total, Quadwords, Whole;
    TurnedFacts(s, b, old_, new_, fill, late, x, h, f0, e, f);
    if old_ != [] { NotBeyond(s.used, k, x); }
  }

  lemma OneQuadword(n: int)
    requires Whole(n)
    ensures (n < 32 ==> n <= 16) && (n > 0 ==> n >= 16)
  {
  }

  lemma NotBeyond(used: int, k: int, x: int)
    requires Whole(used) && Whole(k) && Whole(x)
    ensures used + k < x + 16 ==> used + k <= x
  {
  }

  lemma TurnedStays(s: Place, b: nat, old_: seq<Entry>, new_: seq<Entry>, fill: nat, late: seq<Entry>,
                    x: nat, h: nat, f0: nat, e: nat, f: Frame)
    requires Turned(s, b, old_, new_, fill, late, x, h, f0, e, f)
    ensures !MovePasses(s.front, s.used, Total(s.q))
  {
    hide Tiles, Total, Quadwords, Whole;
    TurnedFacts(s, b, old_, new_, fill, late, x, h, f0, e, f);
  }

  lemma TurnedSubmit(s: Place, b: nat, old_: seq<Entry>, new_: seq<Entry>, fill: nat, late: seq<Entry>,
                     x: nat, h: nat, f0: nat, e: nat, j: nat, f: Frame)
    requires Turned(s, b, old_, new_, fill, late, x, h, f0, e, f) && 0 < j <= s.used - s.front && Whole(j)
    ensures Safe(Place(s.q + [Data(s.front, j)], s.front + j, s.used), f)
  {
    hide Tiles, Safe, Quadwords, Whole;
    WholeSum(s.front, j);
    var more := late + [Data(s.front, j)];
    assert s.q + [Data(s.front, j)] == Skip(b) + old_ + (new_ + Skip(fill) + more);
    TilesAppend(late, 0, s.front, j);
    IsTurned(Place(s.q + [Data(s.front, j)], s.front + j, s.used), b, old_, new_, fill, more, x, h, f0, e, f);
  }

  lemma TurnedGiveBack(s: Place, b: nat, old_: seq<Entry>, new_: seq<Entry>, fill: nat, late: seq<Entry>,
                       x: nat, h: nat, f0: nat, e: nat, f: Frame)
    requires Turned(s, b, old_, new_, fill, late, x, h, f0, e, f)
    ensures Safe(s.(used := s.front), f)
  {
    hide Tiles, Safe, Quadwords, Whole;
    IsTurned(s.(used := s.front), b, old_, new_, fill, late, x, h, f0, e, f);
  }

  lemma TurnedPop(s: Place, b: nat, old_: seq<Entry>, new_: seq<Entry>, fill: nat, late: seq<Entry>,
                  x: nat, h: nat, f0: nat, e: nat, f: Frame)
    requires Turned(s, b, old_, new_, fill, late, x, h, f0, e, f) && f.limit <= f.end
    ensures s.q != [] && Safe(s.(q := s.q[1..]), f)
  {
    hide Tiles, BackTiles, Total, Safe, Layout, Quadwords, Whole;
    var n := s.(q := s.q[1..]);
    PopParts(s.q, b, old_, new_ + Skip(fill) + late);
    if b == 0 { FirstTile(old_, x, h); }
    if (if b > 0 then old_ == [] else |old_| == 1) {
      assert n.q == new_ + Skip(fill) + late;
      NewThenLate(n, new_, fill, late, f0, e, f);
    } else if b > 0 {
      IsTurned(n, 0, old_, new_, fill, late, x, h, f0, e, f);
    } else {
      IsTurned(n, 0, old_[1..], new_, fill, late, x + old_[0].size, h, f0, e, f);
    }
  }

  /** Once everything old has been read, the wrapped layout is whole again. */
  lemma NewThenLate(s: Place, new_: seq<Entry>, fill: nat, late: seq<Entry>, f0: nat, e: nat, f: Frame)
    requires s.q == new_ + Skip(fill) + late && Tiles(new_, f0, e) && Tiles(late, 0, s.front)
    requires f0 <= e <= f.end && f.limit <= f.end && fill == (if e < f.limit then f.limit - e else 0)
    requires s.front <= s.used <= f0
    ensures Safe(s, f)
  {
    hide Safe, Total, Quadwords, Whole;
    var bk := new_ + Skip(fill);
    TilesIsBack(new_, f0, e, f.limit, f.end);
    TilesEmpty(new_, f0, e);
    assert s.q[..|bk|] == bk && s.q[|bk|..] == late;
    if bk == [] {
      assert s.q == late;
      OnlyNew(late, 0, s.front, s.used, f);
      IsLayout(s, 0, f);
    } else {
      assert fill == 0 ==> bk == new_;
      assert s.q[0] == bk[0];
      hide Tiles, BackTiles;
      StartOfNew(new_, fill, f0, e, f.limit);
      IsLayout(s, |bk|, f);
    }
  }

  lemma StartOfNew(new_: seq<Entry>, fill: nat, f0: nat, e: nat, limit: nat)
    requires Tiles(new_, f0, e) && fill == (if e < limit then limit - e else 0) && new_ + Skip(fill) != []
    ensures var bk := new_ + Skip(fill);
            (bk[0].Data? ==> bk[0].offset == f0) && (bk[0].Blank? ==> f0 == e == limit - bk[0].size)
  {
  }

  lemma AheadStep(s: Place, old_: seq<Entry>, new_: seq<Entry>, x: nat, f0: nat, op: Step, f: Frame)
    requires Ahead(s, old_, new_, x, f0, f) && f.Ok() && Allowed(s, op, f)
    ensures !Harms(s, op) && Safe(Next(s, op, f), f)
  {
    hide BackTiles, Safe, UnreadByte, Total, Ahead, MovePasses, CopyPasses, HitsUnread, Whole;
    match op
    case Copy(k) => AheadCopy(s, old_, new_, x, f0, k, f);
    case Move => AheadStays(s, old_, new_, x, f0, f);
    case Submit(j) => AheadSubmit(s, old_, new_, x, f0, j, f);
    case Pop => AheadPop(s, old_, new_, x, f0, f);
    case GiveBack => AheadGiveBack(s, old_, new_, x, f0, f);
  }

  lemma AheadCopy(s: Place, old_: seq<Entry>, new_: seq<Entry>, x: nat, f0: nat, k: nat, f: Frame)
    requires Ahead(s, old_, new_, x, f0, f) && f.Ok() && Whole(k)
    requires CopyPasses(s.front, s.used, Total(s.q), f.limit, k)
    ensures !HitsUnread(s.q, s.used, s.used + k) && Safe(s.(used := s.used + k), f)
  {
    hide Tiles, BackTiles, Total, Safe, UnreadByte, Quadwords, Tail, Whole;
    WholeSum(s.used, k);
    AheadFacts(s, old_, new_, x, f0, f);
    NotBeyond(s.used, k, x);
    forall y | s.used <= y < s.used + k ensures !UnreadByte(s.q, y) {
      AheadUnread(s, old_, new_, x, f0, f, y);
    }
    IsAhead(s.(used := s.used + k), old_, new_, x, f0, f);
  }

  lemma AheadStays(s: Place, old_: seq<Entry>, new_: seq<Entry>, x: nat, f0: nat, f: Frame)
    requires Ahead(s, old_, new_, x, f0, f)
    ensures !MovePasses(s.front, s.used, Total(s.q))
  {
    hide Tiles, BackTiles, Total, Quadwords, Tail, Whole;
    AheadFacts(s, old_, new_, x, f0, f);
  }

  lemma AheadSubmit(s: Place, old_: seq<Entry>, new_: seq<Entry>, x: nat, f0: nat, j: nat, f: Frame)
    requires Ahead(s, old_, new_, x, f0, f) && 0 < j <= s.used - s.front && Whole(j)
    ensures Safe(Place(s.q + [Data(s.front, j)], s.front + j, s.used), f)
  {
    hide Tiles, BackTiles, Total, Safe, Quadwords, Tail, Whole;
    WholeSum(s.front, j);
    var more := new_ + [Data(s.front, j)];
    assert s.q + [Data(s.front, j)] == old_ + more;
    TilesAppend(new_, f0, s.front, j);
    IsAhead(Place(s.q + [Data(s.front, j)], s.front + j, s.used), old_, more, x, f0, f);
  }

  lemma AheadGiveBack(s: Place, old_: seq<Entry>, new_: seq<Entry>, x: nat, f0: nat, f: Frame)
    requires Ahead(s, old_, new_, x, f0, f)
    ensures Safe(s.(used := s.front), f)
  {
    hide Tiles, BackTiles, Total, Safe, Quadwords, Tail, Whole;
    IsAhead(s.(used := s.front), old_, new_, x, f0, f);
  }

  lemma AheadPop(s: Place, old_: seq<Entry>, new_: seq<Entry>, x: nat, f0: nat, f: Frame)
    requires Ahead(s, old_, new_, x, f0, f) && Whole(f.limit) && f.limit <= f.end
    ensures s.q != [] && Safe(s.(q := s.q[1..]), f)
  {
    hide Safe, Layout, Whole;
    WholeSum(x, old_[0].size);
    var n, rest, size := s.(q := s.q[1..]), old_[1..], old_[0].size;
    assert n.q == rest + new_;
    BackTotal(old_, x, f.limit, f.end);
    BackTotal(rest, x + size, f.limit, f.end);
    if rest == [] {
      assert n.q == new_;
      OnlyNew(new_, f0, s.front, s.used, f);
      IsLayout(n, 0, f);
    } else if rest[0].Data? {
      hide Tiles;
      IsAhead(n, rest, new_, x + size, f0, f);
    } else {
      var b := rest[0].size;
      assert rest == Skip(b) && n.q == Skip(b) + [] + new_;
      hide Tiles, BackTiles;
      NoTiles();
      IsStraight(n, b, [], new_, 0, 0, f0, f);
    }
  }

  lemma SafeStep(s: Place, op: Step, f: Frame)
    requires Safe(s, f) && f.Ok() && Allowed(s, op, f)
    ensures !Harms(s, op) && Safe(Next(s, op, f), f)
  {
    hide Layout, Straight, Turned, Ahead, Harms, Next, Allowed, Whole;
    if back: nat :| Layout(s.q, back, s.front, s.used, f.limit, f.end) {
      var back' := LayoutStep(s, back, op, f);
      IsLayout(Next(s, op, f), back', f);
    } else if b: nat, old_, new_, x: nat, h: nat, f0: nat :| Straight(s, b, old_, new_, x, h, f0, f) {
      StraightStep(s, b, old_, new_, x, h, f0, op, f);
    } else if b: nat, old_, new_, fill: nat, late, x: nat, h: nat, f0: nat, e: nat :|
        Turned(s, b, old_, new_, fill, late, x, h, f0, e, f) {
      TurnedStep(s, b, old_, new_, fill, late, x, h, f0, e, op, f);
    } else {
      var old_, new_, x: nat, f0: nat :| Ahead(s, old_, new_, x, f0, f);
      AheadStep(s, old_, new_, x, f0, op, f);
    }
  }

  lemma {:induction false} SafeRun(s: Place, ops: seq<Step>, f: Frame)
    requires Safe(s, f) && f.Ok()
    ensures !RunHarms(s, ops, f)
    decreases |ops|
  {
    hide Safe, Harms, Next, Allowed, Whole;
    if ops != [] && Allowed(s, ops[0], f) {
      SafeStep(s, ops[0], f);
      SafeRun(Next(s, ops[0], f), ops[1..], f);
    }
  }

  /** Where the condition fails, the reset leaves one of those states. */
  lemma ResetSafe(q: seq<Entry>, back: nat, front: nat, n: nat, f: Frame)
    requires Layout(q, back, front, front + n, f.limit, f.end) && f.Ok()
    requires Quadwords(q) && Whole(front) && Whole(n) && !Hazard(q, front, n, f)
    ensures Safe(Place(q, front + n, front + n), f)
  {
    var s := Place(q, front + n, front + n);
    if n == 0 || q == [] {
      SoftResetKeeps(q, back, front, front + n, f.limit, f.end, n);
      IsLayout(s, back, f);
    } else if back == 0 {
      assert q[0..] == q;
      hide Tiles, Total, Quadwords, BackTiles, Safe;
      StraightStart(q, front, n, f);
    } else {
      WrappedStart(q, back, front, n, f);
    }
  }

  lemma StraightStart(q: seq<Entry>, front: nat, n: nat, f: Frame)
    requires q != [] && Total(q) <= front && Tiles(q, front - Total(q), front) && n > 0 && front + n <= f.end && f.Ok()
    requires Quadwords(q) && Whole(front) && Whole(n) && !Hazard(q, front, n, f)
    ensures Safe(Place(q, front + n, front + n), f)
  {
    hide Tiles, Total, Quadwords, Safe, Tail, Whole;
    OneQuadword(n);
    WholeSum(f.limit, front);
    OneQuadword(f.limit - front);
    WholeSum(front, n);
    TotalQuadwords(q);
    WholeSum(front, Total(q));
    TilesEmpty(q, front - Total(q), front);
    EmptyTiles(front + n);
    assert q == Skip(0) + q + [];
    IsStraight(Place(q, front + n, front + n), 0, q, [], front - Total(q), front, front + n, f);
  }

  lemma EmptyTiles(x: int)
    ensures Tiles([], x, x)
  {
  }

  lemma {:induction false} TotalQuadwords(q: seq<Entry>)
    requires Quadwords(q)
    ensures Whole(Total(q))
  {
    if q != [] { TotalQuadwords(q[1..]); }
  }

  lemma WrappedStart(q: seq<Entry>, back: nat, front: nat, n: nat, f: Frame)
    requires Layout(q, back, front, front + n, f.limit, f.end) && f.Ok() && 0 < back && n > 0
    requires Quadwords(q) && Whole(front) && Whole(n) && !Hazard(q, front, n, f)
    ensures Safe(Place(q, front + n, front + n), f)
  {
    hide Safe, Whole;
    OneQuadword(n);
    WholeSum(f.limit, front);
    OneQuadword(f.limit - front);
    WholeSum(front, n);
    var s := Place(q, front + n, front + n);
    WrappedTotal(q, back, front, front + n, f.limit, f.end);
    TilesEmpty(q[back..], 0, front);
    EmptyTiles(front + n);
    if q[0].Blank? {
      assert q[..back] == Skip(q[0].size);
      assert q == Skip(q[0].size) + q[back..] + [];
      RestQuadwords(q, back);
      hide Tiles, BackTiles, Total, Quadwords, Tail;
      NoTiles();
      IsStraight(s, q[0].size, q[back..], [], 0, front, front + n, f);
    } else {
      hide Tiles, Quadwords, Tail;
      assert front == 0;
      assert q[..back] == q && q == q + [];
      FirstOffset(q);
      IsAhead(s, q, [], q[0].offset, n, f);
    }
  }

  lemma FirstOffset(q: seq<Entry>)
    requires Quadwords(q) && q != [] && q[0].Data?
    ensures Whole(q[0].offset) && Whole(q[0].size)
  {
  }

  lemma {:induction false} RestQuadwords(q: seq<Entry>, k: nat)
    requires Quadwords(q) && k <= |q|
    ensures Quadwords(q[k..])
  {
    if k > 0 {
      RestQuadwords(q[1..], k - 1);
      assert q[1..][k - 1..] == q[k..];
    }
  }

  // ---- If the condition holds, some run of steps harms ----

  /** Quadword by quadword, data can come in up to `goal`. */
  lemma {:induction false} Fill(s: Place, goal: nat, f: Frame)
    requires s.front <= s.used <= goal <= f.end && f.most >= 16 && Whole(s.used) && Whole(goal)
    requires s.used < goal ==> CopyPasses(s.front, goal - 16, Total(s.q), f.limit, 16)
    requires CanHarm(Place(s.q, s.front, goal), f)
    ensures CanHarm(s, f)
    decreases goal - s.used
  {
    hide CanHarm, Total, Whole;
    NoTiles();
    if s.used < goal { Quadword(s.used, goal); }
    WholeSum(s.used, 16);
    if s.used < goal {
      Fill(Place(s.q, s.front, s.used + 16), goal, f);
      assert Next(s, Copy(16), f) == Place(s.q, s.front, s.used + 16);
      HarmsLater(s, Copy(16), f);
    }
  }

  /** Data up to the unread byte x, then one quadword over it. */
  lemma FillOver(s: Place, x: nat, f: Frame)
    requires s.front <= s.used <= x && x + 16 <= f.end && f.most >= 16 && Whole(s.used) && Whole(x)
    requires CopyPasses(s.front, x, Total(s.q), f.limit, 16) && UnreadByte(s.q, x)
    ensures CanHarm(s, f)
  {
    hide CanHarm, Total, UnreadByte, Whole;
    NoTiles();
    var there := Place(s.q, s.front, x);
    assert HitsUnread(there.q, x, x + 16);
    HarmsNow(there, Copy(16), f);
    Fill(s, x, f);
  }

  /** With the reader at `a`, as far from the end as `a` from the bottom: fill the buffer, submit all but
      a + 16 bytes, and the move takes those over the oldest packet. */
  lemma HarmByMove(q: seq<Entry>, front: nat, n: nat, f: Frame)
    requires Layout(q, 0, front, front + n, f.limit, f.end) && f.Ok() && q != [] && n > 0
    requires Whole(front) && Whole(n) && Whole(Total(q))
    requires front + n + (front - Total(q)) < f.end
    ensures CanHarm(Place(q, front + n, front + n), f)
  {
    hide Layout, Total, CanHarm, UnreadByte, Whole;
    OneQuadword(n);
    WholeSum(front, n);
    WholeSum(front, Total(q));
    LayoutTotal(q, front, front + n, f);
    var a, f0 := front - Total(q), front + n;
    UnreadIs(q, 0, front, f0, f.limit, f.end, a);
    WholeSum(f0, a);
    Quadword(f0 + a, f.end);
    NoTiles();
    WholeSum(f0 + a, 16);
    if f0 > f.limit || f0 + a + 16 == f.end {
      var s := Place(q, f0, f0 + a + 16);
      MoveOver(s, a, f);
      Fill(Place(q, f0, f0), f0 + a + 16, f);
    } else {
      SubmitMost(Place(q, f0, f.end), a, f);
      FillAll(q, f0, f);
    }
  }

  /** All of a full buffer but a + 16 bytes is submitted. */
  lemma SubmitMost(s: Place, a: nat, f: Frame)
    requires f.Ok() && s.front <= f.limit && s.used == f.end && Whole(s.front) && Whole(a)
    requires s.front + a + 16 < f.end && UnreadByte(s.q, a) && s.front - Total(s.q) >= a + 16
    ensures CanHarm(s, f)
  {
    hide Total, UnreadByte, CanHarm, Whole;
    NoTiles();
    WholeSum(a, 16);
    WholeSum(f.end, a + 16);
    WholeSum(f.end - (a + 16), s.front);
    var j := f.end - (a + 16) - s.front;
    var t := Place(s.q + [Data(s.front, j)], s.front + j, f.end);
    TotalAppend(s.q, Data(s.front, j));
    UnreadSplits(s.q, [Data(s.front, j)], a);
    MoveOver(t, a, f);
    assert Next(s, Submit(j), f) == t;
    HarmsLater(s, Submit(j), f);
  }

  lemma Quadword(a: int, b: int)
    requires a < b && Whole(a) && Whole(b)
    ensures a + 16 <= b
  {
  }

  lemma LayoutTotal(q: seq<Entry>, front: nat, used: nat, f: Frame)
    requires Layout(q, 0, front, used, f.limit, f.end)
    ensures Total(q) <= front && (q != [] ==> Total(q) > 0)
  {
    assert q[0..] == q;
    TilesEmpty(q, front - Total(q), front);
  }

  lemma MoveOver(s: Place, a: nat, f: Frame)
    requires s.front <= s.used && s.used - s.front == a + 16 && UnreadByte(s.q, a) && f.most >= 16
    requires s.used == f.end || s.used > f.limit + 16
    requires s.front - Total(s.q) >= a + 16
    ensures CanHarm(s, f)
  {
    hide Total, UnreadByte, CanHarm, Whole;
    assert HitsUnread(s.q, 0, s.used - s.front);
    HarmsNow(s, Move, f);
  }

  /** Otherwise: fill the buffer, submit up to the limit, let the move take the rest below the reader, and
      the next data reaches it, because the count is n bytes off. */
  lemma HarmAfterMove(q: seq<Entry>, front: nat, n: nat, f: Frame)
    requires Layout(q, 0, front, front + n, f.limit, f.end) && f.Ok() && q != []
    requires Whole(front) && Whole(n) && Whole(Total(q))
    requires front + n + (front - Total(q)) >= f.end && n >= 32 && f.limit - front >= 32
    ensures CanHarm(Place(q, front + n, front + n), f)
  {
    hide Layout, Total, CanHarm, UnreadByte, Whole;
    WholeSum(front, n);
    WholeSum(front, Total(q));
    LayoutTotal(q, front, front + n, f);
    LayoutUsed(q, front, front + n, f);
    var a, f0 := front - Total(q), front + n;
    UnreadIs(q, 0, front, f0, f.limit, f.end, a);
    var s := Place(q, f0, f.end);
    if f0 < f.limit {
      SubmitUp(s, a, f);
    } else {
      MoveBelow(s, a, f);
    }
    FillAll(q, f0, f);
  }

  /** A straight path can be filled up. */
  lemma FillAll(q: seq<Entry>, f0: nat, f: Frame)
    requires f0 <= f.end && f.most >= 16 && Whole(f0) && Whole(f.end) && Total(q) <= f0
    requires CanHarm(Place(q, f0, f.end), f)
    ensures CanHarm(Place(q, f0, f0), f)
  {
    hide CanHarm, Total, Whole;
    Fill(Place(q, f0, f0), f.end, f);
  }

  lemma SubmitUp(s: Place, a: nat, f: Frame)
    requires f.Ok() && s.front < f.limit && s.used == f.end && Whole(s.front) && Whole(a)
    requires f.end - f.limit <= a && s.front - Total(s.q) >= a + 32 && UnreadByte(s.q, a) && a + 16 <= f.end
    ensures CanHarm(s, f)
  {
    hide Total, UnreadByte, CanHarm, Whole;
    WholeSum(f.limit, s.front);
    var j := f.limit - s.front;
    var t := Place(s.q + [Data(s.front, j)], f.limit, f.end);
    TotalAppend(s.q, Data(s.front, j));
    UnreadSplits(s.q, [Data(s.front, j)], a);
    MoveBelow(t, a, f);
    assert Next(s, Submit(j), f) == t;
    HarmsLater(s, Submit(j), f);
  }

  lemma LayoutUsed(q: seq<Entry>, front: nat, used: nat, f: Frame)
    requires Layout(q, 0, front, used, f.limit, f.end)
    ensures front <= used <= f.end
  {
  }

  lemma MoveBelow(s: Place, a: nat, f: Frame)
    requires f.Ok() && f.limit <= s.front <= s.used == f.end && Whole(s.front) && Whole(a)
    requires f.end - s.front <= a && s.front - Total(s.q) >= a && UnreadByte(s.q, a) && a + 16 <= f.end
    requires f.limit - Total(s.q) > a + 16
    ensures CanHarm(s, f)
  {
    hide Total, UnreadByte, CanHarm, Whole;
    WholeSum(f.end, s.front);
    var t := Place(s.q, 0, f.end - s.front);
    assert Next(s, Move, f) == t;
    FillOver(t, a, f);
    HarmsLater(s, Move, f);
  }

  /** With everything unread directly before the packet. */
  lemma StraightHarm(q: seq<Entry>, front: nat, n: nat, f: Frame)
    requires Layout(q, 0, front, front + n, f.limit, f.end) && f.Ok() && Quadwords(q)
    requires front > 0 && Whole(front) && Whole(n) && Hazard(q, front, n, f)
    ensures CanHarm(Place(q, front + n, front + n), f)
  {
    hide Layout, Total, CanHarm, Whole;
    TotalQuadwords(q);
    LayoutTotal(q, front, front + n, f);
    if front + n + (front - Total(q)) < f.end {
      HarmByMove(q, front, n, f);
    } else {
      HarmAfterMove(q, front, n, f);
    }
  }

  /** The reader may finish k packets first. */
  lemma {:induction false} ReadFirst(q: seq<Entry>, k: nat, front: nat, used: nat, f: Frame)
    requires k <= |q| && front <= used && CanHarm(Place(q[k..], front, used), f)
    ensures CanHarm(Place(q, front, used), f)
  {
    hide CanHarm, Whole;
    if k == 0 {
      assert q[0..] == q;
    } else {
      assert q[1..][k - 1..] == q[k..];
      ReadFirst(q[1..], k - 1, front, used, f);
      assert Next(Place(q, front, used), Pop, f) == Place(q[1..], front, used);
      HarmsLater(Place(q, front, used), Pop, f);
    }
  }

  /** After a wrap, with packets below the one dropped: read up to the wrap first. */
  lemma WrappedHarm(q: seq<Entry>, back: nat, front: nat, n: nat, f: Frame)
    requires Layout(q, back, front, front + n, f.limit, f.end) && f.Ok() && Quadwords(q) && back > 0
    requires front > 0 && Whole(front) && Whole(n) && Hazard(q, front, n, f)
    ensures CanHarm(Place(q, front + n, front + n), f)
  {
    hide Layout, CanHarm, Hazard, Whole;
    var late := LateOnly(q, back, front, n, f);
    StraightHarm(late, front, n, f);
    ReadFirst(q, back, front + n, front + n, f);
  }

  lemma LateOnly(q: seq<Entry>, back: nat, front: nat, n: nat, f: Frame) returns (late: seq<Entry>)
    requires Layout(q, back, front, front + n, f.limit, f.end) && Quadwords(q) && back > 0
    requires front > 0 && Hazard(q, front, n, f)
    ensures back <= |q| && late == q[back..] && Quadwords(late)
    ensures Layout(late, 0, front, front + n, f.limit, f.end) && Hazard(late, front, n, f)
  {
    late := q[back..];
    TilesEmpty(late, 0, front);
    TilesTotal(late, 0, front);
    WrappedTotal(q, back, front, front + n, f.limit, f.end);
    RestQuadwords(q, back);
    assert late[0..] == late;
    hide Quadwords, Tiles, BackTiles, Tail, Whole;
  }

  /** After a wrap, at the bottom of the buffer: data up to the oldest packet and over it, at once or after
      all packets but the newest have been read. */
  lemma {:induction false} AheadHarm(q: seq<Entry>, x: nat, n: nat, f: Frame)
    requires BackTiles(q, x, f.limit, f.end) && f.Ok() && Quadwords(q) && q != [] && q[0].Data?
    requires Whole(n) && Whole(x) && n <= x && (n >= Tail(q) || n > x + Total(q) - f.limit + 16)
    ensures CanHarm(Place(q, n, n), f)
  {
    hide CanHarm, Whole;
    WholeSum(x, q[0].size);
    BackTotal(q, x, f.limit, f.end);
    BackTotal(q[1..], x + q[0].size, f.limit, f.end);
    FirstOffset(q);
    assert UnreadByte(q, x) by { UnreadFirst(q, x); }
    assert x + 16 <= f.end;
    if n > x + Total(q) - f.limit + 16 || |q| == 1 || q[1].Blank? {
      FillOver(Place(q, n, n), x, f);
    } else {
      AheadHarm(q[1..], x + q[0].size, n, f);
      assert q[1..] == q[1..];
      ReadFirst(q, 1, n, n, f);
    }
  }

  lemma ResetHarm(q: seq<Entry>, back: nat, front: nat, n: nat, f: Frame)
    requires Layout(q, back, front, front + n, f.limit, f.end) && f.Ok()
    requires Quadwords(q) && Whole(front) && Whole(n) && Hazard(q, front, n, f)
    ensures CanHarm(Place(q, front + n, front + n), f)
  {
    hide CanHarm, Quadwords, Tail, Whole;
    if front == 0 {
      AtBottom(q, back, n, f);
      FirstOffset(q);
      AheadHarm(q, q[0].offset, n, f);
    } else if back == 0 {
      StraightHarm(q, front, n, f);
    } else {
      WrappedHarm(q, back, front, n, f);
    }
  }

  lemma AtBottom(q: seq<Entry>, back: nat, n: nat, f: Frame)
    requires Layout(q, back, 0, n, f.limit, f.end) && q != [] && q[0].Data?
    ensures BackTiles(q, q[0].offset, f.limit, f.end) && n <= q[0].offset
  {
    assert q[0..] == q;
    TilesEmpty(q[back..], if back == 0 then 0 - Total(q) else 0, 0);
    if back > 0 {
      assert q[..back] == q;
    }
  }

  /** After a soft reset has dropped n bytes of a packet, some run of the path's steps writes over a byte
      still to be read if and only if the condition holds, wherever the reader is. */
  lemma CanHarmIff(q: seq<Entry>, back: nat, front: nat, n: nat, f: Frame)
    requires Layout(q, back, front, front + n, f.limit, f.end) && f.Ok()
    requires Quadwords(q) && Whole(front) && Whole(n)
    ensures CanHarm(Place(q, front + n, front + n), f) <==> Hazard(q, front, n, f)
  {
    hide Layout, Hazard, Quadwords, Safe, CanHarm, Whole;
    if Hazard(q, front, n, f) {
      ResetHarm(q, back, front, n, f);
    } else {
      ResetSafe(q, back, front, n, f);
      SafeNever(Place(q, front + n, front + n), f);
    }
  }

  lemma SafeNever(s: Place, f: Frame)
    requires Safe(s, f) && f.Ok()
    ensures !CanHarm(s, f)
  {
    hide Safe, RunHarms, Whole;
    forall ops ensures !RunHarms(s, ops, f) {
      SafeRun(s, ops, f);
    }
  }
}
