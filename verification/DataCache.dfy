/** The EE data cache: 64 sets of 2 ways, write-back, tagged with the physical (host) page. */
module DataCache {

  import Arith
  import opened Basics

  /** 64 bytes. */
  type Line = seq<byte>

  datatype CacheTag = CacheTag(page: nat, validPFN: bool, dirty: bool, valid: bool, lrf: bool, locked: bool) {
    predicate Matches(p: nat) {
      valid && page == p
    }

    function GetFlags(): Flags {
      Flags(dirty, valid, lrf, locked)
    }

    function Clear(): CacheTag {
      CacheTag(0, false, false, false, lrf, false)
    }
  }

  /** The flag bits of a tag that the guest can read. */
  datatype Flags = Flags(dirty: bool, valid: bool, lrf: bool, locked: bool)

  const NULL_TAG := CacheTag(0, false, false, false, false, false)
  const ZERO_LINE: Line := seq(64, _ => 0)

  // A 32-bit address: page number, line within the page (which is also the set), byte in the line.

  function PageOf(addr: nat): nat { addr / 4096 }

  function SetOf(addr: nat): (s: nat) ensures s < 64 { (addr / 64) % 64 }

  function OffsetOf(addr: nat): (o: nat) ensures o < 64 { addr % 64 }

  /** Where an access of n bytes starts in the line: the address is rounded down to its size. */
  function AlignedOffset(addr: nat, n: nat): (o: nat)
    requires n in ACCESS_SIZES
    ensures o + n <= 64 && o % n == 0 && o <= OffsetOf(addr) < o + n
  {
    OffsetOf(addr) - OffsetOf(addr) % n
  }

  const ACCESS_SIZES: set<nat> := {1, 2, 4, 8, 16}

  /** `line` with n bytes replaced. */
  function Patch(line: Line, o: nat, bytes: seq<byte>): (r: Line)
    requires o + |bytes| <= |line|
    ensures |r| == |line| && r[o..o + |bytes|] == bytes
  {
    line[..o] + bytes + line[o + |bytes|..]
  }

  class Cache {
    const tags: array2<CacheTag>
    const data: array2<Line>
    /** Host memory: page, line within the page. */
    const mem: array2<Line>
    /** Virtual page to host page. */
    var vmap: map<nat, nat>
    /** The memory a program without a cache would see. */
    ghost var flat: seq<seq<Line>>

    ghost predicate Shape()
      reads this, tags, data, mem
    {
      && tags.Length0 == data.Length0 == mem.Length1 == 64 && tags.Length1 == data.Length1 == 2
      && data != mem && |flat| == mem.Length0 && Whole(flat)
      && (forall p | 0 <= p < |flat| :: |flat[p]| == 64)
      && (forall p, s | 0 <= p < |flat| && 0 <= s < 64 :: |flat[p][s]| == 64 && |mem[p, s]| == 64)
      && (forall v | v in vmap :: vmap[v] < mem.Length0)
    }

    /** A valid line shows what flat memory holds there; if it is clean, so does host memory. */
    ghost predicate LineOk(s: nat, w: nat)
      requires Shape() && s < 64 && w < 2
      reads this, tags, data, mem
    {
      var t := tags[s, w];
      && |data[s, w]| == 64
      && (t.valid ==> t.validPFN && t.page < |flat| && data[s, w] == flat[t.page][s])
      && (t.valid && !t.dirty ==> mem[t.page, s] == flat[t.page][s])
    }

    predicate DirtyFor(s: nat, w: nat, p: nat)
      requires s < tags.Length0 && w < tags.Length1
      reads tags
    {
      tags[s, w].valid && tags[s, w].dirty && tags[s, w].page == p
    }

    /** No page is cached twice, and host memory is only behind where a dirty line covers it. */
    ghost predicate Valid()
      reads this, tags, data, mem
    {
      && Shape()
      && (forall s, w | 0 <= s < 64 && 0 <= w < 2 :: LineOk(s, w))
      && (forall s | 0 <= s < 64 :: !(tags[s, 0].valid && tags[s, 1].valid && tags[s, 0].page == tags[s, 1].page))
      && (forall p, s | 0 <= p < |flat| && 0 <= s < 64 ::
            mem[p, s] == flat[p][s] || DirtyFor(s, 0, p) || DirtyFor(s, 1, p))
    }

    ghost predicate NoLocks()
      reads tags
    {
      && tags.Length0 == 64 && tags.Length1 == 2
      && forall s, w | 0 <= s < 64 && 0 <= w < 2 :: !tags[s, w].locked
    }

    /** The reset cache over a given host memory. */
    constructor (pages: nat, contents: seq<seq<Line>>)
      requires |contents| == pages
      requires forall p | 0 <= p < pages :: |contents[p]| == 64 && forall s | 0 <= s < 64 :: |contents[p][s]| == 64
      ensures Valid() && NoLocks() && flat == contents && vmap == map[]
      ensures forall s | 0 <= s < 64 :: Victim(s) == 0
      ensures fresh(tags) && fresh(data) && fresh(mem)
    {
      tags := new CacheTag[64, 2]((_, _) => NULL_TAG);
      data := new Line[64, 2]((_, _) => ZERO_LINE);
      mem := new Line[pages, 64]((p, s) requires 0 <= p < pages && 0 <= s < 64 => contents[p][s]);
      vmap := map[];
      flat := contents;
    }

    method WriteBackIfNeeded(s: nat, w: nat)
      requires Valid() && s < 64 && w < 2
      modifies tags, mem
      ensures Valid()
      ensures tags[s, w] == old(tags[s, w]).(dirty := old(tags[s, w].dirty && !tags[s, w].valid))
      ensures forall s', w' | 0 <= s' < 64 && 0 <= w' < 2 && (s', w') != (s, w) :: tags[s', w'] == old(tags[s', w'])
    {
      var t := tags[s, w];
      if !(t.dirty && t.valid) {
        return;
      }
      assert LineOk(s, w);
      if t.validPFN {
        mem[t.page, s] := data[s, w];
      }
      tags[s, w] := t.(dirty := false);
      forall s', w' | 0 <= s' < 64 && 0 <= w' < 2 ensures LineOk(s', w') {
        assert old(LineOk(s', w'));
        assert !(old(tags[s, 0].valid && tags[s, 1].valid && tags[s, 0].page == tags[s, 1].page));
      }
    }
  
    predicate Hit(s: nat, w: nat, p: nat)
      requires s < tags.Length0 && w < tags.Length1
      reads tags
    {
      tags[s, w].Matches(p)
    }

    /** Way 0 is tried first. */
    method FindInCache(s: nat, p: nat) returns (hit: bool, way: nat)
      requires s < tags.Length0 && tags.Length1 == 2
      ensures hit <==> Hit(s, 0, p) || Hit(s, 1, p)
      ensures hit ==> way < 2 && Hit(s, way, p) && (way == 1 ==> !Hit(s, 0, p))
      ensures !hit ==> way == 0
    {
      hit, way := true, 0;
      if !tags[s, 0].Matches(p) {
        if tags[s, 1].Matches(p) {
          way := 1;
        } else {
          hit := false;
        }
      }
    }

    /** The way to be filled next, by the least-recently-filled flags. */
    function Victim(s: nat): (w: nat)
      requires s < tags.Length0 && tags.Length1 == 2
      reads tags
      ensures w < 2
    {
      if tags[s, 0].lrf != tags[s, 1].lrf then 1 else 0
    }

    /** Brings a page's line into a way whose old line has been written back. */
    method Fill(s: nat, w: nat, p: nat)
      requires Valid() && s < 64 && w < 2 && p < |flat|
      requires !(tags[s, w].dirty && tags[s, w].valid) && !Hit(s, 0, p) && !Hit(s, 1, p)
      modifies tags, data
      ensures Valid() && tags[s, w] == CacheTag(p, true, false, true, !old(tags[s, w].lrf), old(tags[s, w].locked))
      ensures forall s', w' | 0 <= s' < 64 && 0 <= w' < 2 && (s', w') != (s, w) :: tags[s', w'] == old(tags[s', w'])
    {
      var t := tags[s, w];
      assert mem[p, s] == flat[p][s];
      tags[s, w] := CacheTag(p, true, false, true, !t.lrf, t.locked);
      data[s, w] := mem[p, s];
      forall s', w' | 0 <= s' < 64 && 0 <= w' < 2 ensures LineOk(s', w') {
        assert old(LineOk(s', w'));
      }
    }

    predicate Cached(s: nat, p: nat)
      requires s < tags.Length0 && tags.Length1 == 2
      reads tags
    {
      Hit(s, 0, p) || Hit(s, 1, p)
    }

    /** The way a hit on a locked way is sent to. */
    function OtherWay(s: nat, p: nat): (w: nat)
      requires s < tags.Length0 && tags.Length1 == 2
      reads tags
      ensures w < 2
    {
      if Hit(s, 0, p) then 1 else 0
    }

    /** A hit on a locked way is sent to the other way of the set if that one is not locked. */
    predicate Redirected(s: nat, p: nat)
      requires s < tags.Length0 && tags.Length1 == 2
      reads tags
    {
      if Hit(s, 0, p) then tags[s, 0].locked && !tags[s, 1].locked
      else Hit(s, 1, p) && tags[s, 1].locked && !tags[s, 0].locked
    }

    /** A miss in a set without locks. */
    predicate Missed(s: nat, p: nat)
      requires s < tags.Length0 && tags.Length1 == 2
      reads tags
    {
      !Hit(s, 0, p) && !Hit(s, 1, p) && !tags[s, 0].locked && !tags[s, 1].locked
    }

    /** The way that an access to `addr` uses, filled first if the page's line is not cached. */
    method GetFreeCache(addr: nat) returns (s: nat, way: nat)
      requires Valid() && PageOf(addr) in vmap
      modifies tags, data, mem
      ensures Valid() && s == SetOf(addr) && way < 2
      ensures Hit(s, way, vmap[PageOf(addr)]) <==> !old(Redirected(SetOf(addr), vmap[PageOf(addr)]))
      ensures forall s', w' | 0 <= s' < 64 && 0 <= w' < 2 :: tags[s', w'].locked == old(tags[s', w'].locked)
      ensures old(Redirected(SetOf(addr), vmap[PageOf(addr)])) ==> way == old(OtherWay(SetOf(addr), vmap[PageOf(addr)]))
      ensures old(Cached(SetOf(addr), vmap[PageOf(addr)])) ==>
        forall s', w' | 0 <= s' < 64 && 0 <= w' < 2 ::
          tags[s', w'] == old(tags[s', w']) && data[s', w'] == old(data[s', w'])
      // after a fill, the other way is next in turn
      ensures old(Missed(SetOf(addr), vmap[PageOf(addr)])) ==> way == old(Victim(SetOf(addr))) && Victim(s) == 1 - way
    {
      s := SetOf(addr);
      var p := vmap[PageOf(addr)];
      var hit;
      hit, way := FindInCache(s, p);
      if hit {
        if tags[s, way].locked && !tags[s, 1 - way].locked {
          way := 1 - way;
        }
      } else {
        way := Victim(s);
        if tags[s, way].locked {
          way := 1 - way;
        }
        WriteBackIfNeeded(s, way);
        Fill(s, way, p);
      }
    }
  
    // ---- Guest accesses ----

    method Read(addr: nat, n: nat) returns (value: seq<byte>)
      requires Valid() && PageOf(addr) in vmap && n in ACCESS_SIZES
      modifies tags, data, mem
      ensures Valid() && (old(NoLocks()) ==> NoLocks())
      ensures |value| == n
      ensures var s, p, o := SetOf(addr), vmap[PageOf(addr)], AlignedOffset(addr, n);
              if old(Redirected(s, p)) then
                |old(data[s, OtherWay(s, p)])| == 64 && value == old(data[s, OtherWay(s, p)])[o..o + n]
              else value == flat[p][s][o..o + n]
      ensures flat == old(flat)
      ensures !old(Redirected(SetOf(addr), vmap[PageOf(addr)])) ==> old(Readable(addr, n, value))
    {
      var s, way := GetFreeCache(addr);
      assert LineOk(s, way);
      var o := AlignedOffset(addr, n);
      value := data[s, way][o..o + n];
      if !old(Redirected(SetOf(addr), vmap[PageOf(addr)])) {
        ReadsBytes(addr, n, value);
      }
    }

    /** The value is what a load reads from memory without a cache. */
    ghost predicate Readable(addr: nat, n: nat, value: seq<byte>)
      requires Whole(flat)
      reads this
    {
      Legal(Machine(), Load(addr, n)) && FlatStep(Machine(), Load(addr, n)).1 == value
    }

    lemma ReadsBytes(addr: nat, n: nat, value: seq<byte>)
      requires Valid() && PageOf(addr) in vmap && n in ACCESS_SIZES
      requires var s, p, o := SetOf(addr), vmap[PageOf(addr)], AlignedOffset(addr, n);
               |flat[p][s]| == 64 && value == flat[p][s][o..o + n]
      ensures Readable(addr, n, value)
    {
      hide AlignedOffset, SetOf;
      InPage(addr, n);
      BytesOfLine(flat, vmap[PageOf(addr)], SetOf(addr), AlignedOffset(addr, n), n);
    }

    lemma WritesBytes(addr: nat, value: seq<byte>)
      requires Valid() && PageOf(addr) in vmap && |value| in ACCESS_SIZES
      ensures Legal(Machine(), Store(addr, value))
      ensures InFlat(flat, vmap[PageOf(addr)], SetOf(addr))
      ensures var f := Stored(flat, vmap[PageOf(addr)], addr, value);
              Whole(f) && FlatStep(Machine(), Store(addr, value)).0 == FlatMachine(Bytes(f), vmap)
    {
      hide AlignedOffset, SetOf, Patch, Bytes, Whole;
      ValidWhole();
      InPage(addr, |value|);
      BytesPatched(flat, vmap[PageOf(addr)], SetOf(addr), AlignedOffset(addr, |value|), value);
    }

    /** A store changes flat memory at its own place, unless a lock sends it to the other way: then it
        changes it at that way's page, if that way is in use. */
    method Write(addr: nat, value: seq<byte>)
      requires Valid() && PageOf(addr) in vmap && |value| in ACCESS_SIZES
      modifies tags, data, mem, this`flat
      ensures Valid() && (old(NoLocks()) ==> NoLocks())
      ensures var s, p := SetOf(addr), vmap[PageOf(addr)];
              if !old(Redirected(s, p)) then flat == Stored(old(flat), p, addr, value)
              else
                var t := old(tags[s, OtherWay(s, p)]);
                if t.valid then InFlat(old(flat), t.page, s) && flat == Stored(old(flat), t.page, addr, value)
                else flat == old(flat)
      ensures !old(Redirected(SetOf(addr), vmap[PageOf(addr)])) ==>
        old(Legal(Machine(), Store(addr, value))) && Machine() == FlatStep(old(Machine()), Store(addr, value)).0
    {
      WritesBytes(addr, value);
      hide FlatStep, Legal, Bytes;
      var s, way := GetFreeCache(addr);
      var o := AlignedOffset(addr, |value|);
      assert LineOk(s, way);
      StoreInLine(s, way, o, value);
    }

    /** Puts bytes into a line and marks it dirty. A line that is not in use shows them to nobody. */
    method StoreInLine(s: nat, way: nat, o: nat, value: seq<byte>)
      requires Valid() && s < 64 && way < 2 && o + |value| <= 64
      modifies tags, data, this`flat
      ensures Valid() && tags[s, way] == old(tags[s, way]).(dirty := true)
      ensures forall s', w' | 0 <= s' < 64 && 0 <= w' < 2 && (s', w') != (s, way) :: tags[s', w'] == old(tags[s', w'])
      ensures var p := tags[s, way].page;
              if tags[s, way].valid then
                && p < |old(flat)| && |old(flat)[p]| == 64 && |old(flat)[p][s]| == 64
                && flat == old(flat)[p := old(flat)[p][s := Patch(old(flat)[p][s], o, value)]]
              else flat == old(flat)
    {
      assert LineOk(s, way);
      if tags[s, way].valid {
        StoreInUse(s, way, o, value);
      } else {
        StoreUnused(s, way, o, value);
      }
    }

    method StoreInUse(s: nat, way: nat, o: nat, value: seq<byte>)
      requires Valid() && s < 64 && way < 2 && o + |value| <= 64 && tags[s, way].valid
      requires InFlat(flat, tags[s, way].page, s)
      modifies tags, data, this`flat
      ensures Valid() && tags[s, way] == old(tags[s, way]).(dirty := true)
      ensures forall s', w' | 0 <= s' < 64 && 0 <= w' < 2 && (s', w') != (s, way) :: tags[s', w'] == old(tags[s', w'])
      ensures var p := tags[s, way].page; flat == old(flat)[p := old(flat)[p][s := Patch(old(flat)[p][s], o, value)]]
    {
      assert LineOk(s, way) && LineOk(s, 1 - way);
      var p := tags[s, way].page;
      tags[s, way] := tags[s, way].(dirty := true);
      data[s, way] := Patch(data[s, way], o, value);
      flat := flat[p := flat[p][s := data[s, way]]];
      forall s', w' | 0 <= s' < 64 && 0 <= w' < 2 ensures LineOk(s', w') {
        assert old(LineOk(s', w'));
      }
    }

    method StoreUnused(s: nat, way: nat, o: nat, value: seq<byte>)
      requires Valid() && s < 64 && way < 2 && o + |value| <= 64 && !tags[s, way].valid && |data[s, way]| == 64
      modifies tags, data
      ensures Valid() && tags[s, way] == old(tags[s, way]).(dirty := true)
      ensures forall s', w' | 0 <= s' < 64 && 0 <= w' < 2 && (s', w') != (s, way) :: tags[s', w'] == old(tags[s', w'])
    {
      tags[s, way] := tags[s, way].(dirty := true);
      data[s, way] := Patch(data[s, way], o, value);
      forall s', w' | 0 <= s' < 64 && 0 <= w' < 2 ensures LineOk(s', w') {
        assert old(LineOk(s', w'));
      }
    }

    // ---- The CACHE instruction ----

    /** Drops a line: a clean one leaves no trace; a dirty one takes its stores with it. */
    method Discard(s: nat, w: nat)
      requires Valid() && s < 64 && w < 2
      modifies tags, data, this`flat
      ensures Valid() && (old(NoLocks()) ==> NoLocks())
      ensures old(LineOk(s, w)) && tags[s, w] == CacheTag(0, false, false, false, old(tags[s, w].lrf), false)
      ensures forall s', w' | 0 <= s' < 64 && 0 <= w' < 2 && (s', w') != (s, w) :: tags[s', w'] == old(tags[s', w'])
      ensures var t := old(tags[s, w]);
              if t.valid && t.dirty then
                && flat == old(flat)[t.page := old(flat)[t.page][s := mem[t.page, s]]]
                && (flat == old(flat) <==> mem[t.page, s] == old(data[s, w]))
              else flat == old(flat)
    {
      assert LineOk(s, w);
      if tags[s, w].valid && tags[s, w].dirty {
        SameLine(flat, tags[s, w].page, s, mem[tags[s, w].page, s]);
        DropStores(s, w);
      } else {
        DropClean(s, w);
      }
    }

    /** Clearing a line that host memory is not behind of. */
    method DropClean(s: nat, w: nat)
      requires Valid() && s < 64 && w < 2 && !(tags[s, w].valid && tags[s, w].dirty)
      modifies tags, data
      ensures Valid() && tags[s, w] == old(tags[s, w]).Clear()
      ensures forall s', w' | 0 <= s' < 64 && 0 <= w' < 2 && (s', w') != (s, w) :: tags[s', w'] == old(tags[s', w'])
    {
      tags[s, w] := tags[s, w].Clear();
      data[s, w] := ZERO_LINE;
      forall s', w' | 0 <= s' < 64 && 0 <= w' < 2 ensures LineOk(s', w') {
        assert old(LineOk(s', w'));
      }
    }

    /** Clearing a dirty line: flat memory is set back to what host memory holds. */
    method DropStores(s: nat, w: nat)
      requires Valid() && s < 64 && w < 2 && tags[s, w].valid && tags[s, w].dirty
      requires InFlat(flat, tags[s, w].page, s)
      modifies tags, data, this`flat
      ensures Valid() && tags[s, w] == old(tags[s, w]).Clear()
      ensures forall s', w' | 0 <= s' < 64 && 0 <= w' < 2 && (s', w') != (s, w) :: tags[s', w'] == old(tags[s', w'])
      ensures var p := old(tags[s, w].page); flat == old(flat)[p := old(flat)[p][s := mem[p, s]]]
    {
      var p := tags[s, w].page;
      assert LineOk(s, 1 - w);
      flat := flat[p := flat[p][s := mem[p, s]]];
      tags[s, w] := tags[s, w].Clear();
      data[s, w] := ZERO_LINE;
      forall s', w' | 0 <= s' < 64 && 0 <= w' < 2 ensures LineOk(s', w') {
        assert old(LineOk(s', w'));
      }
    }

    /** DHIN: hit, invalidate without writing back. What the program sees is unchanged exactly if host
        memory already held it. */
    method HitInvalidate(addr: nat)
      requires Valid() && PageOf(addr) in vmap
      modifies tags, data, this`flat
      ensures Valid() && (old(NoLocks()) ==> NoLocks())
      ensures flat == old(flat) <==>
        mem[vmap[PageOf(addr)], SetOf(addr)] == old(flat)[vmap[PageOf(addr)]][SetOf(addr)]
      ensures !Cached(SetOf(addr), vmap[PageOf(addr)])
    {
      var s := SetOf(addr);
      var hit, way := FindInCache(s, vmap[PageOf(addr)]);
      if hit {
        assert LineOk(s, way);
        Discard(s, way);
      }
    }

    /** DHWBIN and DHWOIN: hit, write back, and invalidate or not. */
    method HitWriteback(addr: nat, invalidate: bool)
      requires Valid() && PageOf(addr) in vmap
      modifies tags, data, mem, this`flat
      ensures Valid() && flat == old(flat) && (old(NoLocks()) ==> NoLocks())
      ensures mem[vmap[PageOf(addr)], SetOf(addr)] == flat[vmap[PageOf(addr)]][SetOf(addr)]
      ensures Cached(SetOf(addr), vmap[PageOf(addr)]) <==> old(Cached(SetOf(addr), vmap[PageOf(addr)])) && !invalidate
    {
      var s := SetOf(addr);
      var hit, way := FindInCache(s, vmap[PageOf(addr)]);
      if hit {
        WriteBackIfNeeded(s, way);
        if invalidate {
          Discard(s, way);
        }
      }
    }

    /** DXWBIN: the way is the low bit of the address. */
    method IndexWriteback(addr: nat)
      requires Valid()
      modifies tags, data, mem, this`flat
      ensures Valid() && flat == old(flat) && (old(NoLocks()) ==> NoLocks())
      ensures tags[SetOf(addr), addr % 2] ==
        CacheTag(0, false, false, false, old(tags[SetOf(addr), addr % 2].lrf), false)
    {
      WriteBackIfNeeded(SetOf(addr), addr % 2);
      Discard(SetOf(addr), addr % 2);
    }

    /** DXLTG writes the line back before it reports the flags. */
    method LoadTag(addr: nat) returns (f: Flags)
      requires Valid()
      modifies tags, mem
      ensures Valid() && (old(NoLocks()) ==> NoLocks())
      ensures f == tags[SetOf(addr), addr % 2].GetFlags() && !(f.valid && f.dirty)
      ensures tags[SetOf(addr), addr % 2] == old(tags[SetOf(addr), addr % 2]).(dirty := f.dirty)
    {
      WriteBackIfNeeded(SetOf(addr), addr % 2);
      f := tags[SetOf(addr), addr % 2].GetFlags();
    }

    method WritebackCache()
      requires Valid()
      modifies tags, mem
      ensures Valid() && (old(NoLocks()) ==> NoLocks())
      ensures forall p, s | 0 <= p < |flat| && 0 <= s < 64 :: mem[p, s] == flat[p][s]
    {
      for i := 0 to 64
        invariant Valid() && (old(NoLocks()) ==> NoLocks())
        invariant forall s, w | 0 <= s < i && 0 <= w < 2 :: !(tags[s, w].valid && tags[s, w].dirty)
      {
        for j := 0 to 2
          invariant Valid() && (old(NoLocks()) ==> NoLocks())
          invariant forall s, w | 0 <= s < 64 && 0 <= w < 2 && (s < i || (s == i && w < j)) ::
            !(tags[s, w].valid && tags[s, w].dirty)
        {
          WriteBackIfNeeded(i, j);
        }
      }
    }

    /** A TLB change moves a virtual page. */
    method MapPage(v: nat, p: nat)
      requires Valid() && p < |flat|
      modifies this`vmap
      ensures Valid() && vmap == old(vmap)[v := p]
    {
      vmap := vmap[v := p];
      forall s', w' | 0 <= s' < 64 && 0 <= w' < 2 ensures LineOk(s', w') {
        assert old(LineOk(s', w'));
      }
    }

    // ---- Whole runs ----

    /** What the program sees: flat memory, byte by byte. */
    ghost function Machine(): FlatMachine
      requires Whole(flat)
      reads this
    {
      FlatMachine(Bytes(flat), vmap)
    }

    method Step(op: Op) returns (out: seq<byte>)
      requires Valid() && NoLocks() && Legal(Machine(), op)
      modifies tags, data, mem, this`flat, this`vmap
      ensures Valid() && NoLocks() && Whole(flat)
      ensures (Machine(), out) == FlatStep(old(Machine()), op)
    {
      out := [];
      match op {
        case Load(addr, n) => out := Read(addr, n);
        case Store(addr, value) => Write(addr, value);
        case Hit(addr, invalidate) => HitWriteback(addr, invalidate);
        case Index(addr) => IndexWriteback(addr);
        case Tag(addr) => var f := LoadTag(addr);
        case Remap(v, p) => MapPage(v, p);
        case Flush => WritebackCache();
      }
    }

    /** Host memory, where it is up to date, is the memory the program sees. */
    lemma HostMemory()
      requires Valid() && forall p, s | 0 <= p < |flat| && 0 <= s < 64 :: mem[p, s] == flat[p][s]
      ensures mem.Length0 == |flat| && forall p, s | 0 <= p < |flat| && 0 <= s < 64 ::
        |mem[p, s]| == 64 && 4096 * p + 64 * s + 64 <= |Machine().bytes|
        && mem[p, s] == Machine().bytes[4096 * p + 64 * s..4096 * p + 64 * s + 64]
    {
      forall p, s | 0 <= p < |flat| && 0 <= s < 64
        ensures 4096 * p + 64 * s + 64 <= |Machine().bytes|
        ensures |mem[p, s]| == 64 && mem[p, s] == Machine().bytes[4096 * p + 64 * s..4096 * p + 64 * s + 64]
      {
        BytesOfLine(flat, p, s, 0, 64);
      }
    }

    lemma ValidWhole()
      requires Valid()
      ensures Whole(flat)
    {
    }

    /** Transparency: any run of loads, stores, write-backs and remappings reads what flat memory
        would have read, and after the final write-back host memory is that flat memory. */
    method Run(ops: seq<Op>) returns (outs: seq<seq<byte>>)
      requires Valid() && NoLocks() && LegalRun(Machine(), ops)
      modifies tags, data, mem, this`flat, this`vmap
      ensures Valid() && NoLocks() && mem.Length0 == |flat|
      ensures (Machine(), outs) == FlatRun(old(Machine()), ops)
      ensures forall p, s | 0 <= p < |flat| && 0 <= s < 64 ::
        |mem[p, s]| == 64 && mem[p, s] == Machine().bytes[4096 * p + 64 * s..4096 * p + 64 * s + 64]
    {
      hide Valid, FlatStep, Legal, Whole, Bytes;
      outs := [];
      ValidWhole();
      ghost var m0 := Machine();
      assert ops[0..] == ops;
      for i := 0 to |ops|
        invariant Valid() && NoLocks() && Whole(flat) && LegalRun(Machine(), ops[i..])
        invariant FlatRun(m0, ops).0 == FlatRun(Machine(), ops[i..]).0
        invariant FlatRun(m0, ops).1 == outs + FlatRun(Machine(), ops[i..]).1
      {
        assert ops[i..][1..] == ops[i + 1..];
        var out := Step(ops[i]);
        outs := outs + [out];
      }
      assert ops[|ops|..] == [] && outs + [] == outs;
      assert FlatRun(m0, ops) == (Machine(), outs);
      WritebackCache();
      HostMemory();
    }
  }

  lemma SameLine(flat: seq<seq<Line>>, p: nat, s: nat, line: Line)
    requires p < |flat| && s < |flat[p]|
    ensures flat[p := flat[p][s := line]] == flat <==> line == flat[p][s]
  {
    var f := flat[p := flat[p][s := line]];
    assert f[p][s] == line;
    if line == flat[p][s] {
      assert flat[p][s := line] == flat[p];
    }
  }

  /** Flat memory has that line. */
  predicate InFlat(flat: seq<seq<Line>>, p: nat, s: nat) {
    p < |flat| && |flat[p]| == 64 && s < 64 && |flat[p][s]| == 64
  }

  /** Flat memory after a store of `value` at `addr`, whose page is host page p. */
  function Stored(flat: seq<seq<Line>>, p: nat, addr: nat, value: seq<byte>): (r: seq<seq<Line>>)
    requires InFlat(flat, p, SetOf(addr)) && |value| in ACCESS_SIZES
  {
    var s := SetOf(addr);
    flat[p := flat[p][s := Patch(flat[p][s], AlignedOffset(addr, |value|), value)]]
  }

  // ---- Memory as bytes ----

  /** All pages and lines have their sizes. */
  ghost predicate Whole(flat: seq<seq<Line>>) {
    forall p | 0 <= p < |flat| :: WholePage(flat[p])
  }

  ghost predicate WholePage(page: seq<Line>) {
    |page| == 64 && forall s | 0 <= s < 64 :: |page[s]| == 64
  }

  /** Byte i of memory. */
  ghost function ByteAt(flat: seq<seq<Line>>, i: nat): byte
    requires Whole(flat) && i < 4096 * |flat|
  {
    flat[i / 4096][i % 4096 / 64][i % 64]
  }

  ghost function Bytes(flat: seq<seq<Line>>): (b: seq<byte>)
    requires Whole(flat)
    ensures |b| == 4096 * |flat|
  {
    seq(4096 * |flat|, i requires 0 <= i < 4096 * |flat| => ByteAt(flat, i))
  }

  // ---- A machine without a cache ----

  /** Byte-addressed memory, and where the virtual pages are in it. */
  datatype FlatMachine = FlatMachine(bytes: seq<byte>, vmap: map<nat, nat>)

  datatype Op =
    | Load(addr: nat, n: nat)
    | Store(addr: nat, value: seq<byte>)
    | Hit(addr: nat, invalidate: bool)
    | Index(addr: nat)
    | Tag(addr: nat)
    | Remap(v: nat, p: nat)
    | Flush

  /** Where an access of n bytes goes: the address rounded down to its size, in the page it maps to. */
  function Place(vmap: map<nat, nat>, addr: nat, n: nat): int
    requires addr / 4096 in vmap && n > 0
  {
    vmap[addr / 4096] * 4096 + (addr - addr % n) % 4096
  }

  ghost predicate Legal(m: FlatMachine, op: Op) {
    match op
    case Load(addr, n) =>
      addr / 4096 in m.vmap && n in ACCESS_SIZES && 4096 * (m.vmap[addr / 4096] + 1) <= |m.bytes|
    case Store(addr, value) =>
      addr / 4096 in m.vmap && |value| in ACCESS_SIZES && 4096 * (m.vmap[addr / 4096] + 1) <= |m.bytes|
    case Hit(addr, _) => addr / 4096 in m.vmap && 4096 * (m.vmap[addr / 4096] + 1) <= |m.bytes|
    case Remap(_, p) => 4096 * (p + 1) <= |m.bytes|
    case _ => true
  }

  /** A load reads the bytes at its place; a store replaces them; nothing else is seen. */
  ghost function FlatStep(m: FlatMachine, op: Op): (r: (FlatMachine, seq<byte>))
    requires Legal(m, op)
  {
    match op
    case Load(addr, n) =>
      PlaceFits(m.vmap, addr, n, |m.bytes|);
      var at := Place(m.vmap, addr, n);
      (m, m.bytes[at..at + n])
    case Store(addr, value) =>
      PlaceFits(m.vmap, addr, |value|, |m.bytes|);
      var at := Place(m.vmap, addr, |value|);
      (m.(bytes := m.bytes[..at] + value + m.bytes[at + |value|..]), [])
    case Remap(v, p) => (m.(vmap := m.vmap[v := p]), [])
    case _ => (m, [])
  }

  lemma PlaceFits(vmap: map<nat, nat>, addr: nat, n: nat, size: nat)
    requires addr / 4096 in vmap && n in ACCESS_SIZES && 4096 * (vmap[addr / 4096] + 1) <= size
    ensures 0 <= Place(vmap, addr, n) && Place(vmap, addr, n) + n <= size
  {
    InPage(addr, n);
  }

  /** An aligned access stays in its line, and its line is the set of its address. */
  lemma InPage(addr: nat, n: nat)
    requires n in ACCESS_SIZES
    ensures (addr - addr % n) % 4096 == 64 * SetOf(addr) + AlignedOffset(addr, n)
    ensures (addr - addr % n) % 4096 + n <= 4096
  {
    var r := addr % 64;
    SameRemainder(addr, n);
    Down(r, n);
    LineInPage(addr / 64, r - r % n);
    assert addr - addr % n == 64 * (addr / 64) + (r - r % n);
    hide AlignedOffset;
    AlignedIs(addr, n);
  }

  lemma AlignedIs(addr: nat, n: nat)
    requires n in ACCESS_SIZES
    ensures AlignedOffset(addr, n) == addr % 64 - addr % 64 % n
  {
  }

  lemma SameRemainder(addr: nat, n: nat)
    requires n in ACCESS_SIZES
    ensures addr % n == addr % 64 % n
  {
    var k := if n == 1 then 64 else if n == 2 then 32 else if n == 4 then 16 else if n == 8 then 8 else 4;
    RemainderOf(addr, k, n);
  }

  lemma RemainderOf(addr: nat, k: nat, n: nat)
    requires n > 0 && k * n == 64
    ensures addr % n == addr % 64 % n
  {
    var q, r := addr / 64, addr % 64;
    QuotientTimes(r, n);
    TimesLine(q, k, n);
    Arith.MulDistributes(q * k, r / n, n);
    Arith.DivModUnique(addr, q * k + r / n, n, r % n);
  }

  lemma TimesLine(q: nat, k: nat, n: nat)
    requires k * n == 64
    ensures q * k * n == q * 64
  {
    assert q * k * n == q * (k * n);
  }

  lemma QuotientTimes(r: nat, n: nat)
    requires n > 0
    ensures r == r / n * n + r % n && 0 <= r % n < n
  {
  }

  lemma Down(r: nat, n: nat)
    requires n in ACCESS_SIZES && r < 64
    ensures 0 <= r - r % n && r - r % n + n <= 64
  {
  }

  lemma LineInPage(q: nat, t: nat)
    requires t < 64
    ensures (64 * q + t) % 4096 == 64 * (q % 64) + t
    ensures 64 * (q % 64) + 64 <= 4096
  {
    assert q == 64 * (q / 64) + q % 64;
  }

  ghost predicate LegalRun(m: FlatMachine, ops: seq<Op>)
    decreases |ops|
  {
    ops == [] || (Legal(m, ops[0]) && LegalRun(FlatStep(m, ops[0]).0, ops[1..]))
  }

  ghost function FlatRun(m: FlatMachine, ops: seq<Op>): (FlatMachine, seq<seq<byte>>)
    requires LegalRun(m, ops)
    decreases |ops|
  {
    if ops == [] then (m, [])
    else
      var (m', out) := FlatStep(m, ops[0]);
      var (m'', outs) := FlatRun(m', ops[1..]);
      (m'', [out] + outs)
  }

  // ---- Lines and bytes ----

  lemma Coordinates(p: nat, s: nat, o: nat)
    requires s < 64 && o < 64
    ensures var i := 4096 * p + 64 * s + o; i / 4096 == p && i % 4096 / 64 == s && i % 64 == o
  {
    var i := 4096 * p + 64 * s + o;
    assert i == 4096 * p + (64 * s + o) && 64 * s + o < 4096;
    assert i == 64 * (64 * p + s) + o;
  }

  lemma BytesOfLine(flat: seq<seq<Line>>, p: nat, s: nat, o: nat, n: nat)
    requires Whole(flat) && InFlat(flat, p, s) && o + n <= 64
    ensures var at := 4096 * p + 64 * s + o;
            at + n <= |Bytes(flat)| && Bytes(flat)[at..at + n] == flat[p][s][o..o + n]
  {
    var at := 4096 * p + 64 * s + o;
    assert 4096 * p + 4096 <= 4096 * |flat|;
    var b, line := Bytes(flat), flat[p][s];
    forall i | at <= i < at + n ensures b[i] == line[i - at + o] {
      Coordinates(p, s, i - at + o);
    }
    SameSlice(b, at, line, o, n);
  }

  lemma SameSlice(b: seq<byte>, at: nat, line: Line, o: nat, n: nat)
    requires at + n <= |b| && o + n <= |line|
    requires forall i | at <= i < at + n :: b[i] == line[i - at + o]
    ensures b[at..at + n] == line[o..o + n]
  {
  }

  lemma WholeAfter(flat: seq<seq<Line>>, p: nat, s: nat, line: Line)
    requires Whole(flat) && InFlat(flat, p, s) && |line| == 64
    ensures Whole(flat[p := flat[p][s := line]])
  {
    assert WholePage(flat[p]);
    var f := flat[p := flat[p][s := line]];
    forall q | 0 <= q < |f| ensures WholePage(f[q]) {
      assert WholePage(flat[q]);
    }
  }

  /** Replacing bytes of one line replaces those bytes of memory and no others. */
  lemma BytesPatched(flat: seq<seq<Line>>, p: nat, s: nat, o: nat, value: seq<byte>)
    requires Whole(flat) && InFlat(flat, p, s) && o + |value| <= 64
    ensures var f := flat[p := flat[p][s := Patch(flat[p][s], o, value)]];
            var at := 4096 * p + 64 * s + o;
            && Whole(f) && at + |value| <= |Bytes(flat)|
            && Bytes(f) == Bytes(flat)[..at] + value + Bytes(flat)[at + |value|..]
  {
    var f := flat[p := flat[p][s := Patch(flat[p][s], o, value)]];
    WholeAfter(flat, p, s, Patch(flat[p][s], o, value));
    var at := 4096 * p + 64 * s + o;
    assert 4096 * p + 4096 <= 4096 * |flat|;
    var was := Bytes(flat);
    var want := was[..at] + value + was[at + |value|..];
    forall i | 0 <= i < 4096 * |flat| ensures ByteAt(f, i) == want[i] {
      PatchedAt(flat, p, s, o, value, i);
    }
    hide ByteAt;
    assert |Bytes(f)| == |want|;
  }

  lemma PatchedAt(flat: seq<seq<Line>>, p: nat, s: nat, o: nat, value: seq<byte>, i: nat)
    requires Whole(flat) && InFlat(flat, p, s) && o + |value| <= 64 && i < 4096 * |flat|
    ensures var f := flat[p := flat[p][s := Patch(flat[p][s], o, value)]];
            var at := 4096 * p + 64 * s + o;
            && Whole(f) && ByteAt(f, i) == if at <= i < at + |value| then value[i - at] else ByteAt(flat, i)
  {
    hide Patch;
    var line := Patch(flat[p][s], o, value);
    WholeAfter(flat, p, s, line);
    var q, t, c := i / 4096, i % 4096 / 64, i % 64;
    IndexParts(i);
    PatchCovers(p, s, o, |value|, q, t, c);
    assert WholePage(flat[q]);
    if q == p && t == s {
      PatchedByte(flat[p][s], o, value, c);
    }
  }

  lemma PatchedByte(line: Line, o: nat, value: seq<byte>, c: nat)
    requires o + |value| <= |line| && c < |line|
    ensures Patch(line, o, value)[c] == if o <= c < o + |value| then value[c - o] else line[c]
  {
  }

  lemma IndexParts(i: nat)
    ensures i == 4096 * (i / 4096) + 64 * (i % 4096 / 64) + i % 64 && i % 4096 / 64 < 64
  {
    assert i % 64 == i % 4096 % 64;
  }

  lemma PatchCovers(p: nat, s: nat, o: nat, n: nat, q: nat, t: nat, c: nat)
    requires s < 64 && o + n <= 64 && t < 64 && c < 64
    ensures var at, i := 4096 * p + 64 * s + o, 4096 * q + 64 * t + c;
            at <= i < at + n <==> q == p && t == s && o <= c < o + n
  {
    if q < p {
      assert 4096 * q + 4096 <= 4096 * p;
    } else if q > p {
      assert 4096 * p + 4096 <= 4096 * q;
    } else if t < s {
      assert 64 * t + 64 <= 64 * s;
    } else if t > s {
      assert 64 * s + 64 <= 64 * t;
    }
  }

  // ---- Aliases ----

  /** After a store each byte of a load is the stored one if the store covers its place in memory,
      through whatever virtual pages the two go, and what it was before if not. */
  lemma StoreThenLoad(m: FlatMachine, a: nat, value: seq<byte>, b: nat, n: nat)
    requires Legal(m, Store(a, value)) && Legal(m, Load(b, n))
    ensures var m' := FlatStep(m, Store(a, value)).0;
            var pa := m.vmap[a / 4096] * 4096 + (a - a % |value|) % 4096;
            var pb := m.vmap[b / 4096] * 4096 + (b - b % n) % 4096;
            && Legal(m', Load(b, n)) && |FlatStep(m', Load(b, n)).1| == |FlatStep(m, Load(b, n)).1| == n
            && forall j | 0 <= j < n ::
                 FlatStep(m', Load(b, n)).1[j] ==
                 if pa <= pb + j < pa + |value| then value[pb + j - pa] else FlatStep(m, Load(b, n)).1[j]
  {
    hide FlatStep, Place, Legal;
    StoreIs(m, a, value);
    StillLegal(m, a, value, b, n);
    LoadIs(m, b, n);
    LoadIs(FlatStep(m, Store(a, value)).0, b, n);
    PlaceIs(m.vmap, a, |value|);
    PlaceIs(m.vmap, b, n);
    forall j | 0 <= j < n
      ensures FlatStep(FlatStep(m, Store(a, value)).0, Load(b, n)).1[j] ==
              if Place(m.vmap, a, |value|) <= Place(m.vmap, b, n) + j < Place(m.vmap, a, |value|) + |value|
              then value[Place(m.vmap, b, n) + j - Place(m.vmap, a, |value|)]
              else FlatStep(m, Load(b, n)).1[j]
    {
      ByteOfLoad(m, a, value, b, n, j);
    }
  }

  lemma ByteOfLoad(m: FlatMachine, a: nat, value: seq<byte>, b: nat, n: nat, j: nat)
    requires Legal(m, Store(a, value)) && Legal(m, Load(b, n)) && j < n
    ensures var m' := FlatStep(m, Store(a, value)).0;
            && a / 4096 in m.vmap && b / 4096 in m.vmap && |value| > 0 && Legal(m', Load(b, n))
            && |FlatStep(m', Load(b, n)).1| == |FlatStep(m, Load(b, n)).1| == n
            && FlatStep(m', Load(b, n)).1[j] ==
               if Place(m.vmap, a, |value|) <= Place(m.vmap, b, n) + j < Place(m.vmap, a, |value|) + |value|
               then value[Place(m.vmap, b, n) + j - Place(m.vmap, a, |value|)]
               else FlatStep(m, Load(b, n)).1[j]
  {
    hide FlatStep, Place, Legal;
    StoreIs(m, a, value);
    StillLegal(m, a, value, b, n);
    LoadIs(m, b, n);
    LoadIs(FlatStep(m, Store(a, value)).0, b, n);
    Replaced(m.bytes, Place(m.vmap, a, |value|), value, Place(m.vmap, b, n), n, j);
  }

  lemma PlaceIs(vmap: map<nat, nat>, addr: nat, n: nat)
    requires addr / 4096 in vmap && n > 0
    ensures Place(vmap, addr, n) == vmap[addr / 4096] * 4096 + (addr - addr % n) % 4096
  {
  }

  lemma LoadIs(m: FlatMachine, b: nat, n: nat)
    requires Legal(m, Load(b, n))
    ensures b / 4096 in m.vmap && n in ACCESS_SIZES
    ensures var at := Place(m.vmap, b, n);
            0 <= at && at + n <= |m.bytes| && FlatStep(m, Load(b, n)) == (m, m.bytes[at..at + n])
  {
    PlaceFits(m.vmap, b, n, |m.bytes|);
    hide Place;
  }

  lemma StoreIs(m: FlatMachine, a: nat, value: seq<byte>)
    requires Legal(m, Store(a, value))
    ensures a / 4096 in m.vmap && |value| in ACCESS_SIZES
    ensures var at := Place(m.vmap, a, |value|);
            && 0 <= at && at + |value| <= |m.bytes|
            && FlatStep(m, Store(a, value)).0 == m.(bytes := m.bytes[..at] + value + m.bytes[at + |value|..])
  {
    PlaceFits(m.vmap, a, |value|, |m.bytes|);
    hide Place;
  }

  lemma StillLegal(m: FlatMachine, a: nat, value: seq<byte>, b: nat, n: nat)
    requires Legal(m, Store(a, value)) && Legal(m, Load(b, n))
    ensures Legal(FlatStep(m, Store(a, value)).0, Load(b, n))
  {
    StoreIs(m, a, value);
    SameSize(m, FlatStep(m, Store(a, value)).0, b, n);
    hide FlatStep, Place, Legal;
  }

  lemma SameSize(m: FlatMachine, m': FlatMachine, b: nat, n: nat)
    requires Legal(m, Load(b, n)) && m'.vmap == m.vmap && |m'.bytes| == |m.bytes|
    ensures Legal(m', Load(b, n))
  {
  }

  lemma Replaced(bytes: seq<byte>, at: nat, value: seq<byte>, from: nat, n: nat, j: nat)
    requires at + |value| <= |bytes| && from + n <= |bytes| && j < n
    ensures var r := bytes[..at] + value + bytes[at + |value|..];
            && |r| == |bytes|
            && r[from..from + n][j] == if at <= from + j < at + |value| then value[from + j - at]
                                       else bytes[from..from + n][j]
  {
    var r := bytes[..at] + value + bytes[at + |value|..];
    var i := from + j;
    assert r[from..from + n][j] == r[i] && bytes[from..from + n][j] == bytes[i];
    if i < at {
      assert r[i] == bytes[..at][i];
    } else if i >= at + |value| {
      assert r[i] == bytes[at + |value|..][i - at - |value|];
    }
  }
}
