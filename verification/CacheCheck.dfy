/** Whether an access goes through the data cache: the index of cached TLB entries is searched by address,
    four rows at a time and the last few one by one (src/vtlb.cpp:114-156). The two forms do not agree. */
module CacheCheck {
  import Arith
  import opened TlbIndex

  /** A register read as a signed number, as the four-row form compares. */
  function Signed(a: Word): int { if a < 0x8000_0000 then a else a - 0x1_0000_0000 }

  function Sum(a: Word, b: Word): Word { (a + b) % 0x1_0000_0000 }

  /** A row alone: the address is in the frame of a half that is cached. */
  predicate Hit(r: Row, a: Word) {
    || (r.on1 && r.key.pfn1 <= a <= Sum(r.key.pfn1, r.key.mask))
    || (r.on0 && r.key.pfn0 <= a <= Sum(r.key.pfn0, r.key.mask))
  }

  /** A row among four: the even half's frame is taken to end where the odd half's does. */
  predicate LaneHit(r: Row, a: Word) {
    var last := Signed(Sum(r.key.pfn1, r.key.mask));
    || (r.on1 && Signed(r.key.pfn1) <= Signed(a) <= last)
    || (r.on0 && Signed(r.key.pfn0) <= Signed(a) <= last)
  }

  /** Row i of n: the last n % 4 are looked at one by one. */
  predicate RowHit(rows: seq<Row>, i: nat, a: Word)
    requires i < |rows|
  {
    if i < |rows| - |rows| % 4 then LaneHit(rows[i], a) else Hit(rows[i], a)
  }

  /** CheckCache; `enabled` is the data cache enable bit of Config. */
  method CheckCache(index: CachedTlbs, enabled: bool, addr: Word) returns (hit: bool)
    requires index.Shape()
    ensures hit <==> enabled && exists i | 0 <= i < index.count :: RowHit(index.Rows(), i, addr)
  {
    if !enabled {
      return false;
    }
    var i := 0;
    while i + 4 <= index.count
      invariant i <= index.count && i % 4 == 0
      invariant forall k | 0 <= k < i :: !RowHit(index.Rows(), k, addr)
      decreases index.count - i
    {
      hide Hit, LaneHit;
      var any := FourRows(index, i, addr);
      if any {
        return true;
      }
      i := i + 4;
    }
    while i < index.count
      invariant index.count - index.count % 4 <= i <= index.count
      invariant forall k | 0 <= k < i :: !RowHit(index.Rows(), k, addr)
    {
      hide Hit, LaneHit;
      if Hit(index.RowAt(i), addr) {
        assert RowHit(index.Rows(), i, addr);
        return true;
      }
      i := i + 1;
    }
    return false;
  }

  /** The lanes of one step. */
  method FourRows(index: CachedTlbs, i: nat, addr: Word) returns (any: bool)
    requires index.Shape() && i + 4 <= index.count && i % 4 == 0
    ensures any <==> exists k | i <= k < i + 4 :: RowHit(index.Rows(), k, addr)
  {
    hide Hit, LaneHit;
    ghost var rows := index.Rows();
    GroupOfFour(i, index.count);
    assert forall k | i <= k < i + 4 :: RowHit(rows, k, addr) == LaneHit(index.RowAt(k), addr);
    any := LaneHit(index.RowAt(i), addr) || LaneHit(index.RowAt(i + 1), addr)
           || LaneHit(index.RowAt(i + 2), addr) || LaneHit(index.RowAt(i + 3), addr);
    if any {
      assert RowHit(rows, i, addr) || RowHit(rows, i + 1, addr)
             || RowHit(rows, i + 2, addr) || RowHit(rows, i + 3, addr);
    }
  }

  lemma GroupOfFour(i: nat, n: nat)
    requires i % 4 == 0 && i + 4 <= n
    ensures i + 4 <= n - n % 4
  {
  }

  // ---- The row form is right ----

  /** A row of the index covers exactly the pages of its entry's cached halves. */
  lemma HitIsPage(e: Entry, a: Word)
    requires e.pageMask in PAGE_MASKS
    ensures Hit(RowOf(e), a) <==>
      || (e.lo1.c == 3 && InPage(e.lo1.pfn, e.pageMask, a))
      || (e.lo0.c == 3 && InPage(e.lo0.pfn, e.pageMask, a))
  {
    RowCoversPage(e, a);
    KeyAligned(e);
    AlignedEnds(KeyOf(e));
    hide InPage, KeyOf, Aligned, Sum;
  }

  lemma AlignedEnds(k: Key)
    requires Aligned(k)
    ensures Sum(k.pfn0, k.mask) == k.pfn0 + k.mask && Sum(k.pfn1, k.mask) == k.pfn1 + k.mask
  {
    hide Sum, Signed;
    NoWrap(k.pfn0, k.mask);
    NoWrap(k.pfn1, k.mask);
  }

  /** Frames start at multiples of their length, which is a power of two of at most 16 MB. */
  ghost predicate Aligned(k: Key) {
    && k.mask in FRAME_MASKS && k.pfn0 % (k.mask + 1) == 0 && k.pfn1 % (k.mask + 1) == 0
  }

  const FRAME_MASKS: set<nat> := {0xFFF, 0x3FFF, 0xFFFF, 0x3_FFFF, 0xF_FFFF, 0x3F_FFFF, 0xFF_FFFF}

  lemma NoWrap(p: Word, mask: Word)
    requires mask in FRAME_MASKS && p % (mask + 1) == 0
    ensures Sum(p, mask) == p + mask && Signed(Sum(p, mask)) == Signed(p) + mask
    ensures Signed(p) % (mask + 1) == 0
  {
    var half := if mask == 0xFFF then 0x8_0000 else if mask == 0x3FFF then 0x2_0000 else if mask == 0xFFFF then 0x8000
                else if mask == 0x3_FFFF then 0x2000 else if mask == 0xF_FFFF then 0x800
                else if mask == 0x3F_FFFF then 0x200 else 0x80;
    NoWrapBy(p, mask + 1, half);
    hide Signed;
  }

  lemma NoWrapBy(p: Word, n: nat, half: nat)
    requires 0 < n <= 0x100_0000 && half * n == 0x8000_0000 && p % n == 0
    ensures Sum(p, n - 1) == p + n - 1 && Signed(p + n - 1) == Signed(p) + n - 1 && Signed(p) % n == 0
  {
    Arith.DivModUnique(0x8000_0000, half, n, 0);
    Arith.MulDistributes(half + half, half, n);
    Arith.DivModUnique(0x1_0000_0000, half + half, n, 0);
    Apart(p, 0x1_0000_0000, n);
    if p < 0x8000_0000 {
      Apart(p, 0x8000_0000, n);
    } else {
      Lower(p, half + half, n);
    }
  }

  lemma Lower(p: nat, k: nat, n: nat)
    requires n > 0 && p % n == 0
    ensures (p - k * n) % n == 0
  {
    var q := p / n;
    assert p == n * q;
    Arith.MulCommutes(n, q);
    Arith.MulDistributes(q, k, n);
    Arith.DivModUnique(p - k * n, q - k, n, 0);
  }

  lemma KeyAligned(e: Entry)
    requires e.pageMask in PAGE_MASKS
    ensures Aligned(KeyOf(e))
  {
    hide Pfn, ConvertPageMask;
    FrameIs(e.lo0.pfn, e.pageMask);
    FrameIs(e.lo1.pfn, e.pageMask);
    FrameMask(e.pageMask);
    Multiple(e.lo0.pfn, e.pageMask + 1);
    Multiple(e.lo1.pfn, e.pageMask + 1);
  }

  lemma FrameMask(m: nat)
    requires m in PAGE_MASKS
    ensures 0x1000 * (m + 1) - 1 in FRAME_MASKS
  {
  }

  lemma Multiple(frame: nat, s: nat)
    requires s > 0
    ensures 0x1000 * s > 0 && (frame - frame % s) * 0x1000 % (0x1000 * s) == 0
  {
    var q := frame / s;
    assert frame == s * q + frame % s;
    Arith.MulCommutes(s, q);
    Arith.DivModUnique((frame - frame % s) * 0x1000, q, 0x1000 * s, 0);
  }

  // ---- The four-row form is not ----

  /** The two forms agree on every address exactly if the row's even half is not cached, or both halves
      have the same frame, or both are cached and the odd half's frame comes right behind the even one's. */
  lemma LaneIsRowIff(r: Row)
    requires Aligned(r.key)
    ensures (forall a: Word :: LaneHit(r, a) == Hit(r, a)) <==>
      || !r.on0
      || r.key.pfn1 == r.key.pfn0
      || (r.on1 && Signed(r.key.pfn1) == Signed(r.key.pfn0) + r.key.mask + 1)
  {
    NoWrap(r.key.pfn0, r.key.mask);
    NoWrap(r.key.pfn1, r.key.mask);
    var p0, p1, n := Signed(r.key.pfn0), Signed(r.key.pfn1), r.key.mask + 1;
    if r.on0 && p1 < p0 {
      Apart(p1, p0, n);
      Differ(r, r.key.pfn0);
    } else if r.on0 && p1 > p0 && !(r.on1 && p1 == p0 + n) {
      Apart(p0, p1, n);
      Differ(r, if p0 + n >= 0 then p0 + n else p0 + n + 0x1_0000_0000);
    } else {
      forall a: Word ensures LaneHit(r, a) == Hit(r, a) {
        Agree(r, a);
      }
    }
    hide LaneHit, Hit;
  }

  /** Different multiples of n are n apart. */
  lemma Apart(x: int, y: int, n: nat)
    requires n > 0 && x % n == 0 && y % n == 0 && x < y
    ensures x + n <= y
  {
    var i, j := x / n, y / n;
    assert x == n * i && y == n * j;
    Arith.MulCommutes(n, i);
    Arith.MulCommutes(n, j);
    Arith.MulDistributes(j, i, n);
    Arith.MulAtLeast(j - i, n);
  }

  lemma Differ(r: Row, a: Word)
    requires LaneHit(r, a) != Hit(r, a)
    ensures exists b: Word :: LaneHit(r, b) != Hit(r, b)
  {
  }

  /** A frame does not cross the middle of the address space, so both ways of comparing see the same. */
  lemma SameFrame(p: Word, mask: Word, a: Word)
    requires mask in FRAME_MASKS && p % (mask + 1) == 0
    ensures p <= a <= Sum(p, mask) <==> Signed(p) <= Signed(a) <= Signed(Sum(p, mask))
  {
    NoWrap(p, mask);
  }

  lemma Agree(r: Row, a: Word)
    requires Aligned(r.key)
    requires !r.on0 || r.key.pfn1 == r.key.pfn0
             || (r.on1 && Signed(r.key.pfn1) == Signed(r.key.pfn0) + r.key.mask + 1)
    ensures LaneHit(r, a) == Hit(r, a)
  {
    SameFrame(r.key.pfn0, r.key.mask, a);
    SameFrame(r.key.pfn1, r.key.mask, a);
    NoWrap(r.key.pfn0, r.key.mask);
    NoWrap(r.key.pfn1, r.key.mask);
    hide Signed, Sum;
  }

  /** The entry that maps frames 1 and 0, only the first of them cached: an access to frame 1 is a hit for the
      row form, and none in a group of four. */
  lemma LaneMisses()
    ensures var r := RowOf(ZEROED.(lo0 := ZEROED_LO.(v := true, c := 3, pfn := 1)));
            Hit(r, 0x1000) && !LaneHit(r, 0x1000)
  {
    SmallKey(1, 0);
    hide KeyOf;
  }

  /** The key of an entry with 4 KB pages. */
  lemma SmallKey(f0: Frame, f1: Frame)
    ensures forall e: Entry | e.pageMask == 0 && e.lo0.pfn == f0 && e.lo1.pfn == f1 ::
      KeyOf(e) == Key(f0 * 0x1000, f1 * 0x1000, 0xFFF)
  {
    FrameIs(f0, 0);
    FrameIs(f1, 0);
    hide Pfn, ConvertPageMask;
  }

  /** And the one that maps frames 0 and 1, again only the first of them cached: an access to frame 1 is a hit
      in a group of four. */
  lemma LaneHitsUncached()
    ensures var r := RowOf(ZEROED.(lo0 := ZEROED_LO.(v := true, c := 3),
                                   lo1 := ZEROED_LO.(v := true, c := 2, pfn := 1)));
            LaneHit(r, 0x1000) && !Hit(r, 0x1000)
  {
    SmallKey(0, 1);
    hide KeyOf;
  }
}
