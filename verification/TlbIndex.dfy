/** The shadow index of cached TLB entries: five parallel arrays that the cache scans
    instead of the 48 TLB entries, kept up to date by every TLB write
    (src/COP0.cpp:283-390, 421-455; src/R5900.h:165-232). */
module TlbIndex {
  import Arith

  const ENTRIES := 48

  type CacheMode = c: nat | c < 8

  /** A page number, and a 32-bit register. */
  type Frame = n: nat | n < 0x10_0000

  type Word = n: nat | n < 0x1_0000_0000

  /** The fields of EntryLo0 and EntryLo1: global, valid, dirty, the three-bit cache mode,
      the page frame and, in EntryLo0 only, the scratchpad bit. */
  datatype EntryLo = EntryLo(g: bool, v: bool, d: bool, c: CacheMode, pfn: Frame, s: bool)
  {
    predicate IsCached() { c == 3 }

    predicate IsValidCacheMode() { c == 2 || c == 3 || c == 7 }
  }

  /** One TLB entry. `pageMask` is the register shifted right by 13; the field Mask is its
      lowest twelve bits. */
  datatype Entry = Entry(pageMask: Frame, asid: nat, vpn2: Frame, lo0: EntryLo, lo1: EntryLo)

  const ZEROED_LO := EntryLo(false, false, false, 0, 0, false)

  const ZEROED := Entry(0, 0, 0, ZEROED_LO, ZEROED_LO)

  /** What the index is searched by: both page frames and the converted page mask. */
  datatype Key = Key(pfn0: Word, pfn1: Word, mask: Word)

  /** One row of the index. */
  datatype Row = Row(key: Key, on0: bool, on1: bool)

  // ---- Fields of an entry ----

  predicate IsSpr(e: Entry) { e.lo0.s }

  /** The lowest n bits of x without those of y. */
  function AndNot(x: nat, y: nat, n: nat): (r: nat)
    ensures r <= x
  {
    if n == 0 then 0
    else
      (if x % 2 == 1 && y % 2 == 0 then 1 else 0) + 2 * AndNot(x / 2, y / 2, n - 1)
  }

  function Pfn(frame: Frame, pageMask: Frame): Word
  {
    AndNot(frame, pageMask % 0x1000, 20) * 0x1000
  }

  /** The number of ones among the lowest `n` bits of x. */
  function Popcount(x: nat, n: nat): (c: nat)
    ensures c <= n
  {
    if n == 0 then 0 else x % 2 + Popcount(x / 2, n - 1)
  }

  function Power(n: nat): (p: nat)
    ensures p > 0
  {
    if n == 0 then 1 else 2 * Power(n - 1)
  }

  function ConvertPageMask(pageMask: Frame): Word
  {
    PowerGrows(12 + Popcount(pageMask, 19), 32);
    Power(12 + Popcount(pageMask, 19)) - 1
  }

  lemma PowerGrows(m: nat, n: nat)
    requires m <= n
    ensures Power(m) <= Power(n)
    ensures Power(32) == 0x1_0000_0000
  {
    if m < n { PowerGrows(m, n - 1); }
    PowerOf32();
  }

  lemma PowerOf32()
    ensures Power(32) == 0x1_0000_0000
  {
    assert Power(8) == 0x100 && Power(16) == 0x1_0000 && Power(24) == 0x100_0000;
  }

  function KeyOf(e: Entry): Key
  {
    Key(Pfn(e.lo0.pfn, e.pageMask), Pfn(e.lo1.pfn, e.pageMask), ConvertPageMask(e.pageMask))
  }

  predicate Indexed(e: Entry)
  {
    !IsSpr(e) && ((e.lo0.v && e.lo0.IsCached()) || (e.lo1.v && e.lo1.IsCached()))
  }

  function RowOf(e: Entry): Row
  {
    Row(KeyOf(e), e.lo0.IsCached(), e.lo1.IsCached())
  }

  /** The entry a write stores: reserved cache modes are replaced. */
  function Fixed(e: Entry): Entry
  {
    if IsSpr(e) then e.(lo0 := e.lo0.(c := 3), lo1 := e.lo1.(c := 3))
    else
      e.(lo0 := if e.lo0.IsValidCacheMode() then e.lo0 else e.lo0.(c := 2),
         lo1 := if e.lo1.IsValidCacheMode() then e.lo1 else e.lo1.(c := 2))
  }

  /** Replacing reserved modes changes neither the frames, nor whether the entry is
      scratchpad, nor whether it belongs in the index. */
  lemma FixedKeepsEntry(e: Entry)
    ensures KeyOf(Fixed(e)) == KeyOf(e) && IsSpr(Fixed(e)) == IsSpr(e)
    ensures Indexed(Fixed(e)) == Indexed(e)
    ensures IsSpr(e) ==> Fixed(e).lo0.IsCached() && Fixed(e).lo1.IsCached()
    ensures !IsSpr(e) ==> RowOf(Fixed(e)) == RowOf(e)
    ensures !IsSpr(e) ==>
      && Fixed(e).lo0 == (if e.lo0.c in {2, 3, 7} then e.lo0 else e.lo0.(c := 2))
      && Fixed(e).lo1 == (if e.lo1.c in {2, 3, 7} then e.lo1 else e.lo1.(c := 2))
  {
    hide ConvertPageMask, Popcount, Pfn;
  }

  // ---- What a row stands for ----

  /** The page masks that the hardware knows: pages of 4 KB, 16 KB, 64 KB and so on up to 16 MB. */
  const PAGE_MASKS: set<nat> := {0, 3, 0xF, 0x3F, 0xFF, 0x3FF, 0xFFF}

  /** Physical address a lies in the page of `frame`: pages with this mask are mask + 1 frames long, and
      lie at multiples of that. */
  predicate InPage(frame: Frame, mask: Frame, a: Word)
  {
    a / 4096 / (mask + 1) == frame / (mask + 1)
  }

  /** Between a row's frame and that plus the row's mask. */
  predicate InFrame(pfn: Word, mask: Word, a: Word) { pfn <= a <= pfn + mask }

  /** The converted mask is one less than the page's length, and the frame is where the page starts: for
      each half of an entry the row covers the addresses of the entry's page and no others. */
  lemma RowCoversPage(e: Entry, a: Word)
    requires e.pageMask in PAGE_MASKS
    ensures InFrame(KeyOf(e).pfn0, KeyOf(e).mask, a) <==> InPage(e.lo0.pfn, e.pageMask, a)
    ensures InFrame(KeyOf(e).pfn1, KeyOf(e).mask, a) <==> InPage(e.lo1.pfn, e.pageMask, a)
  {
    hide InFrame, InPage, Pfn, ConvertPageMask;
    FrameIsPage(e.lo0.pfn, e.pageMask, a);
    FrameIsPage(e.lo1.pfn, e.pageMask, a);
  }

  function BitsOf(m: nat): (k: nat)
    requires m in PAGE_MASKS
    ensures k <= 12
  {
    if m == 0 then 0 else if m == 3 then 2 else if m == 0xF then 4 else if m == 0x3F then 6
    else if m == 0xFF then 8 else if m == 0x3FF then 10 else 12
  }

  lemma MaskIs(m: nat)
    requires m in PAGE_MASKS
    ensures m + 1 == Power(BitsOf(m))
  {
    assert Power(2) == 4 && Power(4) == 16 && Power(6) == 64 && Power(8) == 256 && Power(10) == 1024;
  }

  lemma {:induction false} PopcountOfOnes(k: nat, n: nat)
    requires k <= n
    ensures Popcount(Power(k) - 1, n) == k
  {
    if k > 0 {
      PopcountOfOnes(k - 1, n - 1);
      assert (Power(k) - 1) % 2 == 1 && (Power(k) - 1) / 2 == Power(k - 1) - 1;
    } else if n > 0 {
      PopcountOfOnes(0, n - 1);
    }
  }

  lemma {:induction false} AndNotOnes(x: nat, k: nat, n: nat)
    requires k <= n && x < Power(n)
    ensures AndNot(x, Power(k) - 1, n) == x - x % Power(k)
    decreases n
  {
    if n == 0 {
      assert x == 0;
    } else {
      assert x / 2 < Power(n - 1);
      if k == 0 {
        AndNotOnes(x / 2, 0, n - 1);
        AndNotNone(x, n);
      } else {
        var p := Power(k - 1);
        AndNotOnes(x / 2, k - 1, n - 1);
        AndNotLow(x, p, n);
        LowBit(x, p);
      }
      hide AndNot, Power;
    }
  }

  lemma AndNotNone(x: nat, n: nat)
    requires n > 0
    ensures AndNot(x, 0, n) == x % 2 + 2 * AndNot(x / 2, 0, n - 1)
  {
  }

  /** The lowest bit is dropped. */
  lemma AndNotLow(x: nat, p: nat, n: nat)
    requires p > 0 && n > 0
    ensures AndNot(x, 2 * p - 1, n) == 2 * AndNot(x / 2, p - 1, n - 1)
  {
    assert (2 * p - 1) % 2 == 1 && (2 * p - 1) / 2 == p - 1;
  }

  lemma LowBit(x: nat, p: nat)
    requires p > 0
    ensures 2 * p > 0 && x % (2 * p) == x % 2 + 2 * (x / 2 % p)
  {
    var h := x / 2;
    assert h == h / p * p + h % p;
    Arith.DivModUnique(x, h / p, 2 * p, x % 2 + 2 * (h % p));
  }

  lemma PowerTimes4096(k: nat)
    ensures Power(12 + k) == 0x1000 * Power(k)
  {
    PowerTimes16(k);
    PowerTimes16(4 + k);
    PowerTimes16(8 + k);
  }

  lemma PowerTimes16(k: nat)
    ensures Power(4 + k) == 16 * Power(k)
  {
    assert Power(2 + k) == 4 * Power(k);
  }

  lemma FrameIsPage(frame: Frame, m: Frame, a: Word)
    requires m in PAGE_MASKS
    ensures InFrame(Pfn(frame, m), ConvertPageMask(m), a) <==> InPage(frame, m, a)
  {
    FrameIs(frame, m);
    LargePage(frame, m + 1, a);
    InPageIs(frame, m, a);
    InFrameIs(Pfn(frame, m), ConvertPageMask(m), a);
    hide Pfn, ConvertPageMask, InPage, InFrame;
  }

  lemma InPageIs(frame: Frame, m: Frame, a: Word)
    ensures InPage(frame, m, a) <==> a / 4096 / (m + 1) == frame / (m + 1)
  {
  }

  lemma InFrameIs(pfn: Word, mask: Word, a: Word)
    ensures InFrame(pfn, mask, a) <==> pfn <= a <= pfn + mask
  {
  }

  /** In numbers: the mask is a page's length less one, the frame a multiple of that length. */
  lemma FrameIs(frame: Frame, m: Frame)
    requires m in PAGE_MASKS
    ensures Pfn(frame, m) == (frame - frame % (m + 1)) * 0x1000 && ConvertPageMask(m) == 0x1000 * (m + 1) - 1
  {
    var k := BitsOf(m);
    MaskIs(m);
    hide Power, AndNot, Popcount, BitsOf;
    PopcountOfOnes(k, 19);
    PowerTimes4096(k);
    Powers();
    AndNotOnes(frame, k, 20);
    SmallMask(m);
  }

  lemma SmallMask(m: nat)
    requires m in PAGE_MASKS
    ensures m % 0x1000 == m < 0x1000
  {
  }

  lemma Powers()
    ensures Power(12) == 0x1000 && Power(20) == 0x10_0000
  {
    assert Power(4) == 16 && Power(8) == 256 && Power(16) == 0x1_0000;
  }

  /** A stretch of s frames, in addresses. */
  lemma LargePage(frame: nat, s: nat, a: nat)
    requires s > 0
    ensures (frame - frame % s) * 0x1000 <= a <= (frame - frame % s) * 0x1000 + (0x1000 * s - 1)
            <==> a / 4096 / s == frame / s
  {
    var q, f := frame / s, a / 4096;
    Arith.MulCommutes(s, q);
    assert frame - frame % s == q * s;
    Arith.MulCommutes(s, f / s);
    assert f == f / s * s + f % s && 0 <= f % s < s;
    assert a == 4096 * f + a % 4096;
    if f / s != q {
      Arith.MulDistributes(f / s, q, s);
      Arith.MulAtLeast(f / s - q, s);
    }
  }

  // ---- What the index should hold ----

  function RowsFor(e: Entry): multiset<Row> { if Indexed(e) then multiset{RowOf(e)} else multiset{} }

  function KeysFor(e: Entry): multiset<Key> { if Indexed(e) then multiset{KeyOf(e)} else multiset{} }

  /** The rows, and the keys, of all cached valid entries outside the scratchpad. */
  ghost function TlbRows(tlb: seq<Entry>): multiset<Row>
  {
    if tlb == [] then multiset{} else RowsFor(tlb[0]) + TlbRows(tlb[1..])
  }

  ghost function TlbKeys(tlb: seq<Entry>): multiset<Key>
  {
    if tlb == [] then multiset{} else KeysFor(tlb[0]) + TlbKeys(tlb[1..])
  }

  ghost function Keys(rows: seq<Row>): (k: seq<Key>)
    ensures |k| == |rows|
  {
    seq(|rows|, i requires 0 <= i < |rows| => rows[i].key)
  }

  /** Exchanging one part of a sum of multisets. */
  lemma Exchange<T>(head: multiset<T>, tail: multiset<T>, was: multiset<T>, now: multiset<T>)
    requires was <= tail
    ensures was <= head + tail
    ensures head + (tail - was + now) == head + tail - was + now
    ensures head + tail - was == head + (tail - was)
  {
  }

  lemma {:induction false} TlbKeysUpdated(tlb: seq<Entry>, j: nat, e: Entry)
    requires j < |tlb|
    ensures KeysFor(tlb[j]) <= TlbKeys(tlb)
    ensures TlbKeys(tlb[j := e]) == TlbKeys(tlb) - KeysFor(tlb[j]) + KeysFor(e)
  {
    hide KeysFor;
    var u := tlb[j := e];
    if j == 0 {
      assert u[1..] == tlb[1..];
      assert KeysFor(tlb[0]) + TlbKeys(tlb[1..]) - KeysFor(tlb[0]) == TlbKeys(tlb[1..]);
    } else {
      assert u[1..] == tlb[1..][j - 1 := e];
      TlbKeysUpdated(tlb[1..], j - 1, e);
      assert u[0] == tlb[0] && tlb[1..][j - 1] == tlb[j];
      Exchange(KeysFor(tlb[0]), TlbKeys(tlb[1..]), KeysFor(tlb[j]), KeysFor(e));
    }
  }

  lemma {:induction false} TlbRowsUpdated(tlb: seq<Entry>, j: nat, e: Entry)
    requires j < |tlb|
    ensures RowsFor(tlb[j]) <= TlbRows(tlb)
    ensures TlbRows(tlb[j := e]) == TlbRows(tlb) - RowsFor(tlb[j]) + RowsFor(e)
  {
    hide RowsFor;
    var u := tlb[j := e];
    if j == 0 {
      assert u[1..] == tlb[1..];
      assert RowsFor(tlb[0]) + TlbRows(tlb[1..]) - RowsFor(tlb[0]) == TlbRows(tlb[1..]);
    } else {
      assert u[1..] == tlb[1..][j - 1 := e];
      TlbRowsUpdated(tlb[1..], j - 1, e);
      assert u[0] == tlb[0] && tlb[1..][j - 1] == tlb[j];
      Exchange(RowsFor(tlb[0]), TlbRows(tlb[1..]), RowsFor(tlb[j]), RowsFor(e));
    }
  }

  lemma {:induction false} TlbKeysBounded(tlb: seq<Entry>)
    ensures |TlbKeys(tlb)| <= |tlb|
  {
    hide KeyOf, Indexed;
    if tlb != [] {
      TlbKeysBounded(tlb[1..]);
    }
  }

  // ---- What one TLB write does to the rows ----

  /** The first row with that key, or the number of rows. */
  function First(rows: seq<Row>, key: Key): (i: nat)
    ensures i <= |rows|
    ensures forall k :: 0 <= k < i ==> rows[k].key != key
    ensures i < |rows| ==> rows[i].key == key
  {
    if rows == [] || rows[0].key == key then 0 else 1 + First(rows[1..], key)
  }

  function Without(rows: seq<Row>, i: nat): seq<Row>
  {
    if i < |rows| then rows[..i] + rows[i + 1..] else rows
  }

  function Unmapped(rows: seq<Row>, e: Entry): seq<Row>
  {
    if IsSpr(e) then rows else Without(rows, First(rows, KeyOf(e)))
  }

  function Written(rows: seq<Row>, e: Entry): seq<Row>
  {
    if Indexed(e) then rows + [RowOf(e)] else rows
  }

  lemma WithoutMultisets(rows: seq<Row>, i: nat)
    requires i < |rows|
    ensures multiset(Without(rows, i)) == multiset(rows) - multiset{rows[i]}
    ensures multiset(Keys(Without(rows, i))) == multiset(Keys(rows)) - multiset{rows[i].key}
    ensures rows[i] in multiset(rows) && rows[i].key in multiset(Keys(rows))
  {
    assert rows == rows[..i] + [rows[i]] + rows[i + 1..];
    var k := Keys(rows);
    assert k == k[..i] + [k[i]] + k[i + 1..];
    assert Keys(Without(rows, i)) == k[..i] + k[i + 1..];
  }

  lemma AppendMultisets(rows: seq<Row>, r: Row)
    ensures multiset(rows + [r]) == multiset(rows) + multiset{r}
    ensures multiset(Keys(rows + [r])) == multiset(Keys(rows)) + multiset{r.key}
  {
    assert Keys(rows + [r]) == Keys(rows) + [r.key];
  }

  /** The index never holds a key twice for one entry: its keys are a sub-multiset of the
      keys of the entries it should list, hence it never has more than 48 rows. */
  ghost predicate Faithful(rows: seq<Row>, tlb: seq<Entry>)
  {
    multiset(Keys(rows)) <= TlbKeys(tlb)
  }

  /** It lists exactly those entries' keys; it lists exactly those entries' rows. */
  ghost predicate ExactKeys(rows: seq<Row>, tlb: seq<Entry>)
  {
    multiset(Keys(rows)) == TlbKeys(tlb)
  }

  ghost predicate ExactRows(rows: seq<Row>, tlb: seq<Entry>)
  {
    multiset(rows) == TlbRows(tlb)
  }

  lemma SubmultisetSize(a: multiset<Key>, b: multiset<Key>)
    requires a <= b
    ensures |a| <= |b|
  {
    assert b == a + (b - a);
  }

  lemma FaithfulFits(rows: seq<Row>, tlb: seq<Entry>)
    requires Faithful(rows, tlb)
    ensures |rows| <= |tlb|
  {
    TlbKeysBounded(tlb);
    SubmultisetSize(multiset(Keys(rows)), TlbKeys(tlb));
  }

  lemma UnmapMultisets(rows: seq<Row>, e: Entry)
    requires !IsSpr(e)
    ensures multiset(Keys(Unmapped(rows, e))) == multiset(Keys(rows)) - multiset{KeyOf(e)}
    ensures var i := First(rows, KeyOf(e));
            multiset(Unmapped(rows, e))
            == if i < |rows| then multiset(rows) - multiset{rows[i]} else multiset(rows)
    ensures First(rows, KeyOf(e)) < |rows| <==> KeyOf(e) in multiset(Keys(rows))
  {
    hide KeyOf, First, Without, Keys, Unmapped;
    FirstListed(rows, KeyOf(e));
    UnmappedIs(rows, e);
    var i := First(rows, KeyOf(e));
    if i < |rows| {
      WithoutMultisets(rows, i);
    } else {
      NotThere(multiset(Keys(rows)), KeyOf(e));
    }
  }

  lemma UnmappedIs(rows: seq<Row>, e: Entry)
    requires !IsSpr(e)
    ensures var i := First(rows, KeyOf(e)); Unmapped(rows, e) == if i < |rows| then Without(rows, i) else rows
  {
    hide KeyOf, First;
  }

  lemma NotThere<T>(m: multiset<T>, x: T)
    requires x !in m
    ensures m - multiset{x} == m
  {
  }

  lemma FirstListed(rows: seq<Row>, key: Key)
    ensures var i := First(rows, key);
            && (i < |rows| <==> key in multiset(Keys(rows)))
            && (i < |rows| ==> rows[i].key == key)
  {
    var i := First(rows, key);
    if i < |rows| {
      assert Keys(rows)[i] == key;
    } else {
      assert forall k | 0 <= k < |rows| :: Keys(rows)[k] == rows[k].key != key;
    }
  }

  /** After the unmapping the index leaves room for entry j: it lists no more than the
      other 47 entries. */
  lemma UnmapKeepsFaithful(rows: seq<Row>, tlb: seq<Entry>, j: nat)
    requires j < |tlb| && Faithful(rows, tlb)
    ensures multiset(Keys(Unmapped(rows, tlb[j]))) <= TlbKeys(tlb) - KeysFor(tlb[j])
    ensures |Unmapped(rows, tlb[j])| < |tlb|
  {
    hide KeyOf, Indexed, IsSpr, Unmapped, Without, First, TlbKeys;
    var e := tlb[j];
    TlbKeysUpdated(tlb, j, ZEROED);
    SprNotIndexed(e);
    if IsSpr(e) {
      SprUnmapped(rows, e);
    } else {
      UnmapMultisets(rows, e);
    }
    assert multiset(Keys(Unmapped(rows, e))) <= TlbKeys(tlb) - KeysFor(e);
    OthersBounded(tlb, j);
    SubmultisetSize(multiset(Keys(Unmapped(rows, e))), TlbKeys(tlb) - KeysFor(e));
  }

  lemma SprUnmapped(rows: seq<Row>, e: Entry)
    requires IsSpr(e)
    ensures Unmapped(rows, e) == rows
  {
  }

  lemma KeysForSmall(e: Entry)
    ensures |KeysFor(e)| <= 1
  {
    hide KeyOf, Indexed;
  }

  lemma SprNotIndexed(e: Entry)
    ensures IsSpr(e) ==> KeysFor(e) == multiset{} && RowsFor(e) == multiset{}
  {
    hide KeyOf, RowOf;
  }

  lemma {:induction false} OthersBounded(tlb: seq<Entry>, j: nat)
    requires j < |tlb|
    ensures |TlbKeys(tlb) - KeysFor(tlb[j])| < |tlb|
  {
    hide KeysFor;
    KeysForSmall(tlb[0]);
    if j == 0 {
      TlbKeysBounded(tlb[1..]);
      assert TlbKeys(tlb) - KeysFor(tlb[0]) == TlbKeys(tlb[1..]);
    } else {
      OthersBounded(tlb[1..], j - 1);
      TlbKeysUpdated(tlb[1..], j - 1, ZEROED);
      Exchange(KeysFor(tlb[0]), TlbKeys(tlb[1..]), KeysFor(tlb[j]), multiset{});
    }
  }

  // ---- When a write keeps the index exact ----

  lemma WriteKeepsFaithful(rows: seq<Row>, tlb: seq<Entry>, j: nat, e: Entry)
    requires j < |tlb| && Faithful(rows, tlb)
    ensures Faithful(Written(Unmapped(rows, tlb[j]), e), tlb[j := e])
  {
    hide KeyOf, Indexed, IsSpr, Unmapped, TlbKeys;
    var left := Unmapped(rows, tlb[j]);
    UnmapKeepsFaithful(rows, tlb, j);
    TlbKeysUpdated(tlb, j, e);
    AppendMultisets(left, RowOf(e));
  }

  lemma WrittenKeys(rows: seq<Row>, e: Entry)
    ensures multiset(Keys(Written(rows, e))) == multiset(Keys(rows)) + KeysFor(e)
    ensures multiset(Written(rows, e)) == multiset(rows) + RowsFor(e)
  {
    hide KeyOf, Keys;
    AppendMultisets(rows, RowOf(e));
  }

  lemma Removes(m: multiset<Key>, k: Key)
    ensures m - multiset{k} == m <==> k !in m
  {
    if k in m {
      assert (m - multiset{k})[k] == m[k] - 1;
    }
  }

  /** The keys stay exact unless the entry that is overwritten is neither cached nor in the
      scratchpad and its key is listed for some other entry, whose row then goes instead. */
  lemma WriteKeepsExactKeys(rows: seq<Row>, tlb: seq<Entry>, j: nat, e: Entry)
    requires j < |tlb| && ExactKeys(rows, tlb)
    ensures ExactKeys(Written(Unmapped(rows, tlb[j]), e), tlb[j := e])
            <==> (IsSpr(tlb[j]) || Indexed(tlb[j]) || KeyOf(tlb[j]) !in Keys(rows))
  {
    hide KeyOf, Indexed, IsSpr, Unmapped, Written, TlbKeys, First, Keys;
    var was := tlb[j];
    var left := Unmapped(rows, was);
    var m := multiset(Keys(rows));
    TlbKeysUpdated(tlb, j, e);
    WrittenKeys(left, e);
    Cancel(multiset(Keys(left)), m - KeysFor(was), KeysFor(e));
    SprNotIndexed(was);
    if IsSpr(was) {
      SprUnmapped(rows, was);
    } else {
      UnmapMultisets(rows, was);
      Removes(m, KeyOf(was));
      assert KeyOf(was) in m <==> KeyOf(was) in Keys(rows);
    }
  }

  lemma Cancel<T>(a: multiset<T>, b: multiset<T>, c: multiset<T>)
    ensures a + c == b + c <==> a == b
  {
    assert a + c - c == a && b + c - c == b;
  }

  /** The row that goes when e is overwritten is e's own: the first row with e's key, if
      there is one, is the one listed for e. */
  predicate TakesOwnRow(rows: seq<Row>, e: Entry)
  {
    var i := First(rows, KeyOf(e));
    if Indexed(e) then i < |rows| && rows[i] == RowOf(e) else i == |rows|
  }

  /** Whole rows, with their two cache-enable flags, stay exact if and only if the row that
      goes is the overwritten entry's own. */
  lemma WriteKeepsExactRows(rows: seq<Row>, tlb: seq<Entry>, j: nat, e: Entry)
    requires j < |tlb| && ExactRows(rows, tlb)
    ensures ExactRows(Written(Unmapped(rows, tlb[j]), e), tlb[j := e])
            <==> (IsSpr(tlb[j]) || TakesOwnRow(rows, tlb[j]))
  {
    hide KeyOf, Indexed, IsSpr, Unmapped, Written, TlbRows, First, Keys, TakesOwnRow;
    var was := tlb[j];
    var left := Unmapped(rows, was);
    TlbRowsUpdated(tlb, j, e);
    WrittenKeys(left, e);
    SprNotIndexed(was);
    Cancel(multiset(left), TlbRows(tlb) - RowsFor(was), RowsFor(e));
    if IsSpr(was) {
      SprUnmapped(rows, was);
    } else {
      UnmapMultisets(rows, was);
      OwnRowIff(rows, was);
    }
  }

  lemma OwnRowIff(rows: seq<Row>, e: Entry)
    requires RowsFor(e) <= multiset(rows)
    ensures var i := First(rows, KeyOf(e));
            TakesOwnRow(rows, e)
            <==> multiset(rows) - RowsFor(e)
                 == if i < |rows| then multiset(rows) - multiset{rows[i]} else multiset(rows)
  {
    hide KeyOf, Indexed;
    var i := First(rows, KeyOf(e));
    var m := multiset(rows);
    if i < |rows| {
      assert rows[i] in m;
      if Indexed(e) && rows[i] != RowOf(e) {
        assert RowOf(e) in m;
        assert (m - multiset{rows[i]})[RowOf(e)] == m[RowOf(e)];
        assert (m - multiset{RowOf(e)})[RowOf(e)] == m[RowOf(e)] - 1;
      }
      if !Indexed(e) {
        assert (m - multiset{rows[i]})[rows[i]] == m[rows[i]] - 1;
      }
    }
  }

  /** No entry outside the scratchpad shares its key with a cached one. */
  ghost predicate UniqueKeys(tlb: seq<Entry>)
  {
    forall i, k :: 0 <= i < |tlb| && 0 <= k < |tlb| && i != k && Indexed(tlb[i]) && !IsSpr(tlb[k])
                   ==> KeyOf(tlb[i]) != KeyOf(tlb[k])
  }

  lemma {:induction false} ListedFor(tlb: seq<Entry>, r: Row) returns (i: nat)
    requires r in TlbRows(tlb)
    ensures i < |tlb| && Indexed(tlb[i]) && RowOf(tlb[i]) == r
  {
    hide KeyOf, Indexed;
    if r in RowsFor(tlb[0]) {
      i := 0;
    } else {
      var k := ListedFor(tlb[1..], r);
      i := k + 1;
    }
  }

  lemma UniqueTakesOwnRow(rows: seq<Row>, tlb: seq<Entry>, j: nat)
    requires j < |tlb| && ExactRows(rows, tlb) && UniqueKeys(tlb) && !IsSpr(tlb[j])
    ensures TakesOwnRow(rows, tlb[j])
  {
    hide KeyOf, Indexed, IsSpr, TlbRows;
    var i := First(rows, KeyOf(tlb[j]));
    TlbRowsUpdated(tlb, j, ZEROED);
    if i < |rows| {
      assert rows[i] in multiset(rows);
      var k := ListedFor(tlb, rows[i]);
      assert KeyOf(tlb[k]) == KeyOf(tlb[j]);
      assert k == j;
    }
  }

  // ---- Runs of TLB writes ----

  /** One TLBWI or TLBWR: the slot, as the low six bits of Index or Random, and the entry. */
  datatype Write = Write(slot: nat, e: Entry)

  function TlbAfter(tlb: seq<Entry>, w: Write): (t: seq<Entry>)
    ensures |t| == |tlb|
  {
    if w.slot % 64 < |tlb| then tlb[w.slot % 64 := Fixed(w.e)] else tlb
  }

  function RowsAfter(rows: seq<Row>, tlb: seq<Entry>, w: Write): seq<Row>
  {
    if w.slot % 64 < |tlb| then Written(Unmapped(rows, tlb[w.slot % 64]), Fixed(w.e)) else rows
  }

  /** Every state a run passes through, before each write. */
  ghost predicate AllUnique(tlb: seq<Entry>, ws: seq<Write>)
    decreases |ws|
  {
    ws == [] || (UniqueKeys(tlb) && AllUnique(TlbAfter(tlb, ws[0]), ws[1..]))
  }

  function RunTlb(tlb: seq<Entry>, ws: seq<Write>): (t: seq<Entry>)
    ensures |t| == |tlb|
    decreases |ws|
  {
    if ws == [] then tlb else RunTlb(TlbAfter(tlb, ws[0]), ws[1..])
  }

  function RunRows(rows: seq<Row>, tlb: seq<Entry>, ws: seq<Write>): seq<Row>
    decreases |ws|
  {
    if ws == [] then rows
    else RunRows(RowsAfter(rows, tlb, ws[0]), TlbAfter(tlb, ws[0]), ws[1..])
  }

  /** Over every run of writes the index lists no key more often than the entries carry it
      and so never outgrows its 48 rows; if keys stay unique, it lists exactly the rows of
      the cached entries. */
  lemma {:induction false} RunKeepsIndex(rows: seq<Row>, tlb: seq<Entry>, ws: seq<Write>)
    requires Faithful(rows, tlb)
    ensures Faithful(RunRows(rows, tlb, ws), RunTlb(tlb, ws))
    ensures |RunRows(rows, tlb, ws)| <= |tlb|
    ensures ExactRows(rows, tlb) && AllUnique(tlb, ws) ==> ExactRows(RunRows(rows, tlb, ws), RunTlb(tlb, ws))
    decreases |ws|
  {
    hide KeyOf, Indexed, IsSpr, Unmapped, Written, TlbRows, TlbKeys, Fixed, TakesOwnRow, Faithful, ExactRows,
         UniqueKeys;
    if ws == [] {
      FaithfulFits(rows, tlb);
    } else {
      var j := ws[0].slot % 64;
      if j < |tlb| {
        WriteKeepsFaithful(rows, tlb, j, Fixed(ws[0].e));
        if ExactRows(rows, tlb) && AllUnique(tlb, ws) {
          if !IsSpr(tlb[j]) {
            UniqueTakesOwnRow(rows, tlb, j);
          }
          WriteKeepsExactRows(rows, tlb, j, Fixed(ws[0].e));
        }
      }
      RunKeepsIndex(RowsAfter(rows, tlb, ws[0]), TlbAfter(tlb, ws[0]), ws[1..]);
    }
  }

  /** After reset every entry is zero, so all of them carry the same key: mapping frame 0
      in one of them and then clearing another one again drops the first one's row. */
  lemma ZeroKeyIsShared() returns (ws: seq<Write>)
    ensures var reset := seq(ENTRIES, i => ZEROED);
            RunRows([], reset, ws) == [] && Indexed(RunTlb(reset, ws)[0])
  {
    var cached := ZEROED.(lo0 := ZEROED_LO.(v := true, c := 3));
    var w0, w1 := Write(0, cached), Write(1, ZEROED);
    ws := [w0, w1];
    hide ConvertPageMask, Pfn;
    var t0 := seq(ENTRIES, i => ZEROED);
    var t1 := TlbAfter(t0, w0);
    assert t1[0].lo0.v && t1[0].lo0.c == 3 && t1[1] == ZEROED;
    var r1 := RowsAfter([], t0, w0);
    assert r1 == [RowOf(t1[0])] && KeyOf(t1[0]) == KeyOf(ZEROED);
    assert First(r1, KeyOf(ZEROED)) == 0;
    assert !Indexed(Fixed(ZEROED)) && !IsSpr(ZEROED);
    assert RowsAfter(r1, t1, w1) == [];
    assert ws[1..] == [w1] && [w1][1..] == [];
    assert RunRows(r1, t1, [w1]) == [];
    assert TlbAfter(t1, w1)[0] == t1[0];
    assert RunTlb(t1, [w1]) == TlbAfter(t1, w1);
  }

  // ---- The arrays themselves ----

  class CachedTlbs {
    const tlb: array<Entry>
    const pageMasks: array<Word>
    const pfn1s: array<Word>
    const pfn0s: array<Word>
    const cacheEnabled1: array<bool>
    const cacheEnabled0: array<bool>
    var count: nat

    ghost predicate Apart()
    {
      && pageMasks != pfn1s && pageMasks != pfn0s && pfn1s != pfn0s && cacheEnabled1 != cacheEnabled0
      && (tlb as object) != pageMasks && (tlb as object) != pfn1s && (tlb as object) != pfn0s
      && (tlb as object) != cacheEnabled1 && (tlb as object) != cacheEnabled0
      && (cacheEnabled1 as object) != pageMasks && (cacheEnabled0 as object) != pageMasks
      && (cacheEnabled1 as object) != pfn1s && (cacheEnabled0 as object) != pfn1s
      && (cacheEnabled1 as object) != pfn0s && (cacheEnabled0 as object) != pfn0s
    }

    /** Separate arrays, and room for every row in use. */
    ghost predicate Shape()
      reads this
    {
      && tlb.Length == pageMasks.Length == pfn1s.Length == pfn0s.Length == ENTRIES
      && cacheEnabled1.Length == cacheEnabled0.Length == ENTRIES
      && Apart()
      && count <= ENTRIES
    }

    function RowAt(k: nat): Row
      requires Shape() && k < ENTRIES
      reads this, pageMasks, pfn1s, pfn0s, cacheEnabled1, cacheEnabled0
    {
      Row(Key(pfn0s[k], pfn1s[k], pageMasks[k]), cacheEnabled0[k], cacheEnabled1[k])
    }

    ghost function Rows(): (r: seq<Row>)
      requires Shape()
      reads this, pageMasks, pfn1s, pfn0s, cacheEnabled1, cacheEnabled0
      ensures |r| == count && forall k :: 0 <= k < count ==> r[k] == RowAt(k)
    {
      seq(count, k requires 0 <= k < count && Shape()
        reads this, pageMasks, pfn1s, pfn0s, cacheEnabled1, cacheEnabled0 => RowAt(k))
    }

    ghost predicate Valid()
      reads this, tlb, pageMasks, pfn1s, pfn0s, cacheEnabled1, cacheEnabled0
    {
      Shape() && Faithful(Rows(), tlb[..])
    }

    constructor ()
      ensures Valid() && ExactRows(Rows(), tlb[..])
      ensures Rows() == [] && tlb[..] == seq(ENTRIES, i => ZEROED)
      ensures fresh(tlb) && fresh(pageMasks) && fresh(pfn1s) && fresh(pfn0s)
      ensures fresh(cacheEnabled1) && fresh(cacheEnabled0)
    {
      tlb := new Entry[ENTRIES](i => ZEROED);
      pageMasks := new Word[ENTRIES](i => 0);
      pfn1s := new Word[ENTRIES](i => 0);
      pfn0s := new Word[ENTRIES](i => 0);
      cacheEnabled1 := new bool[ENTRIES](i => false);
      cacheEnabled0 := new bool[ENTRIES](i => false);
      count := 0;
      new;
      assert tlb[..] == seq(ENTRIES, i => ZEROED);
      NoneIndexed(tlb[..]);
    }

    /** Row j + 1 copied down to row j, array by array. */
    method MoveDown(j: nat)
      requires Shape() && j + 1 < ENTRIES
      modifies pageMasks, pfn1s, pfn0s, cacheEnabled1, cacheEnabled0
      ensures RowAt(j) == old(RowAt(j + 1))
      ensures forall k :: 0 <= k < ENTRIES && k != j ==> RowAt(k) == old(RowAt(k))
    {
      cacheEnabled0[j] := cacheEnabled0[j + 1];
      cacheEnabled1[j] := cacheEnabled1[j + 1];
      pfn0s[j] := pfn0s[j + 1];
      pfn1s[j] := pfn1s[j + 1];
      pageMasks[j] := pageMasks[j + 1];
    }

    /** The inner loop: rows i + 1 and up each move down by one. */
    method ShiftDown(i: nat)
      requires Shape() && i < count
      modifies this`count, pageMasks, pfn1s, pfn0s, cacheEnabled1, cacheEnabled0
      ensures Shape() && Rows() == Without(old(Rows()), i)
    {
      var j := i;
      ghost var was := Rows();
      while j < count - 1
        modifies pageMasks, pfn1s, pfn0s, cacheEnabled1, cacheEnabled0
        invariant i <= j <= count - 1
        invariant forall k :: 0 <= k < i || j <= k < count ==> RowAt(k) == was[k]
        invariant forall k :: i <= k < j ==> RowAt(k) == was[k + 1]
      {
        hide Apart, RowAt;
        MoveDown(j);
        j := j + 1;
      }
      DropRow(was, i);
    }

    /** The row count goes down; what is left is in place. */
    method DropRow(ghost was: seq<Row>, ghost i: nat)
      requires Shape() && i < count == |was|
      requires forall k :: 0 <= k < count - 1 ==> RowAt(k) == was[if k < i then k else k + 1]
      modifies this`count
      ensures Shape() && Rows() == Without(was, i)
    {
      hide Apart;
      count := count - 1;
      ghost var now := Rows();
      forall k | 0 <= k < count ensures now[k] == was[if k < i then k else k + 1] {
        assert now[k] == RowAt(k) == old(RowAt(k));
      }
      WithoutIs(was, now, i);
    }

    lemma WithoutIs(was: seq<Row>, now: seq<Row>, i: nat)
      requires i < |was| && |now| == |was| - 1
      requires forall k :: 0 <= k < |now| ==> now[k] == was[if k < i then k else k + 1]
      ensures now == Without(was, i)
    {
    }

    method UnmapTLB(t: Entry)
      requires Shape()
      modifies this`count, pageMasks, pfn1s, pfn0s, cacheEnabled1, cacheEnabled0
      ensures Shape() && Rows() == Unmapped(old(Rows()), t)
    {
      if IsSpr(t) {
        return;
      }
      hide KeyOf, ConvertPageMask, Pfn;
      var i := 0;
      var key := KeyOf(t);
      while i < count
        invariant 0 <= i <= count
        invariant forall k :: 0 <= k < i ==> Rows()[k].key != key
        invariant Rows() == old(Rows())
      {
        if RowAt(i).key == key {
          FirstIs(Rows(), key, i);
          ShiftDown(i);
          return;
        }
        i := i + 1;
      }
      FirstIs(Rows(), key, i);
    }

    method WriteTLB(i: nat, e: Entry)
      requires Shape() && i < ENTRIES && count < ENTRIES
      modifies this`count, tlb, pageMasks, pfn1s, pfn0s, cacheEnabled1, cacheEnabled0
      ensures Shape() && Rows() == Written(old(Rows()), Fixed(e))
      ensures tlb[..] == old(tlb[..])[i := Fixed(e)]
    {
      hide ConvertPageMask, Pfn;
      tlb[i] := e;
      if IsSpr(tlb[i]) {
        tlb[i] := tlb[i].(lo0 := tlb[i].lo0.(c := 3));
        tlb[i] := tlb[i].(lo1 := tlb[i].lo1.(c := 3));
      } else {
        if !tlb[i].lo0.IsValidCacheMode() {
          tlb[i] := tlb[i].(lo0 := tlb[i].lo0.(c := 2));
        }
        if !tlb[i].lo1.IsValidCacheMode() {
          tlb[i] := tlb[i].(lo1 := tlb[i].lo1.(c := 2));
        }
      }
      assert tlb[i] == Fixed(e);
      assert Rows() == old(Rows());
      if !IsSpr(tlb[i]) && ((tlb[i].lo0.v && tlb[i].lo0.IsCached()) || (tlb[i].lo1.v && tlb[i].lo1.IsCached())) {
        AppendRow(tlb[i]);
      }
    }

    method AppendRow(e: Entry)
      requires Shape() && count < ENTRIES
      modifies this`count, pageMasks, pfn1s, pfn0s, cacheEnabled1, cacheEnabled0
      ensures Shape() && Rows() == old(Rows()) + [RowOf(e)]
    {
      hide ConvertPageMask, Pfn;
      var idx := count;
      cacheEnabled0[idx] := e.lo0.IsCached();
      cacheEnabled1[idx] := e.lo1.IsCached();
      pfn1s[idx] := Pfn(e.lo1.pfn, e.pageMask);
      pfn0s[idx] := Pfn(e.lo0.pfn, e.pageMask);
      pageMasks[idx] := ConvertPageMask(e.pageMask);
      count := count + 1;
      assert forall k :: 0 <= k < idx ==> RowAt(k) == old(RowAt(k));
      assert RowAt(idx) == RowOf(e);
      assert forall k :: 0 <= k < count ==> Rows()[k] == (old(Rows()) + [RowOf(e)])[k];
    }

    /** TLBWI with slot = Index, TLBWR with slot = Random: both ignore slots 48 to 63. */
    method WriteEntry(slot: nat, e: Entry)
      requires Valid()
      modifies this`count, tlb, pageMasks, pfn1s, pfn0s, cacheEnabled1, cacheEnabled0
      ensures Valid()
      ensures Rows() == RowsAfter(old(Rows()), old(tlb[..]), Write(slot, e))
      ensures tlb[..] == TlbAfter(old(tlb[..]), Write(slot, e))
    {
      hide Unmapped, Written, Fixed, TlbKeys, Faithful;
      var j := slot % 64;
      if j > 47 {
        return;
      }
      ghost var rows, entries := Rows(), tlb[..];
      assert Faithful(rows, entries) && |entries| == ENTRIES;
      UnmapKeepsFaithful(rows, entries, j);
      WriteKeepsFaithful(rows, entries, j, Fixed(e));
      UnmapTLB(tlb[j]);
      WriteTLB(j, e);
    }

    /** A whole run of TLB writes, in place. */
    method RunWrites(ws: seq<Write>)
      requires Valid()
      modifies this`count, tlb, pageMasks, pfn1s, pfn0s, cacheEnabled1, cacheEnabled0
      ensures Valid()
      ensures Rows() == RunRows(old(Rows()), old(tlb[..]), ws) && tlb[..] == RunTlb(old(tlb[..]), ws)
      ensures old(ExactRows(Rows(), tlb[..])) && AllUnique(old(tlb[..]), ws) ==> ExactRows(Rows(), tlb[..])
    {
      hide RowsAfter, TlbAfter, Faithful, ExactRows;
      ghost var rows, entries := Rows(), tlb[..];
      RunKeepsIndex(rows, entries, ws);
      var i := 0;
      assert ws[0..] == ws;
      while i < |ws|
        invariant 0 <= i <= |ws| && Valid()
        invariant RunRows(Rows(), tlb[..], ws[i..]) == RunRows(rows, entries, ws)
        invariant RunTlb(tlb[..], ws[i..]) == RunTlb(entries, ws)
      {
        assert ws[i..][0] == ws[i] && ws[i..][1..] == ws[i + 1..];
        WriteEntry(ws[i].slot, ws[i].e);
        assert Write(ws[i].slot, ws[i].e) == ws[i];
        i := i + 1;
      }
    }
  }

  lemma {:induction false} NoneIndexed(tlb: seq<Entry>)
    requires forall i :: 0 <= i < |tlb| ==> tlb[i] == ZEROED
    ensures TlbRows(tlb) == multiset{} && TlbKeys(tlb) == multiset{}
  {
    if tlb != [] {
      assert tlb[0] == ZEROED;
      NoneIndexed(tlb[1..]);
    }
  }

  lemma FirstIs(rows: seq<Row>, key: Key, i: nat)
    requires i <= |rows| && forall k :: 0 <= k < i ==> rows[k].key != key
    requires i < |rows| ==> rows[i].key == key
    ensures First(rows, key) == i
  {
    var f := First(rows, key);
    if f < i {
      assert false;
    }
  }
}
