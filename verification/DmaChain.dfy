/** Source-chain DMA: the tag walk with its two-deep call stack, and a channel that moves
    each packet in pieces (src/Hw.cpp:191-325; src/Gif.cpp:156-166, 362-486;
    src/Dmac.cpp:11-22). */
module DmaChain {

  const WRAP := 0x1_0000_0000

  /** An address register wraps at 32 bits. */
  type Word = a: nat | a < WRAP

  /** The sixteen-bit quadword count of a tag. */
  type Count = n: nat | n < 0x1_0000

  datatype TagId = REFE | CNT | NEXT | REF | REFS | CALL | RET | END

  datatype Tag = Tag(id: TagId, qwc: Count, addr: Word, irq: bool)

  /** Tags by address; a missing address is one the DMAC cannot resolve. */
  type Memory = map<Word, Tag>

  function Plus(a: Word, quads: nat): Word { (a + 16 * quads) % WRAP }

  /** The addresses of `n` consecutive quadwords. */
  function Quads(a: Word, n: nat): (q: seq<Word>)
    ensures |q| == n
  {
    seq(n, i requires 0 <= i < n => Plus(a, i))
  }

  lemma PlusPlus(a: Word, m: nat, n: nat)
    ensures Plus(Plus(a, m), n) == Plus(a, m + n)
  {
  }

  lemma QuadsSplit(a: Word, m: nat, n: nat)
    ensures Quads(a, m + n) == Quads(a, m) + Quads(Plus(a, m), n)
  {
    hide Plus;
    forall i | 0 <= i < n ensures Quads(a, m + n)[m + i] == Quads(Plus(a, m), n)[i] {
      PlusPlus(a, m, i);
    }
    assert forall i :: 0 <= i < m + n ==> Quads(a, m + n)[i] == (Quads(a, m) + Quads(Plus(a, m), n))[i];
  }

  // ---- The ideal traversal: a stack of any depth ----

  datatype Place = At(tadr: Word, stack: seq<Word>) | Ended

  /** One packet: where its data lies, under which tag, and at which call depth. */
  datatype Visit = Visit(addr: Word, qwc: Count, id: TagId, depth: nat)

  /** Where the packet of the tag at t has its data: at the tag's address, or after the tag. */
  function DataOf(tag: Tag, t: Word): Word
  {
    if tag.id in {REFE, REF, REFS} then tag.addr else Plus(t, 1)
  }

  /** The tag after this one. Data that follows a tag is skipped over; a call returns behind
      its own data; REFE, END, an outermost RET and an enabled tag interrupt end the chain. */
  function NextPlace(tag: Tag, tie: bool, t: Word, stack: seq<Word>): Place
  {
    if tie && tag.irq then Ended
    else match tag.id
      case REFE => Ended
      case END => Ended
      case CNT => At(Plus(t, 1 + tag.qwc), stack)
      case NEXT => At(tag.addr, stack)
      case REF => At(Plus(t, 1), stack)
      case REFS => At(Plus(t, 1), stack)
      case CALL => At(tag.addr, stack + [Plus(t, 1 + tag.qwc)])
      case RET => if stack == [] then Ended else At(stack[|stack| - 1], stack[..|stack| - 1])
  }

  predicate Ready(mem: Memory, p: Place) { p.At? && p.tadr in mem }

  function VisitAt(mem: Memory, p: Place): Visit
    requires Ready(mem, p)
  {
    var tag := mem[p.tadr];
    Visit(DataOf(tag, p.tadr), tag.qwc, tag.id, |p.stack|)
  }

  function Next(mem: Memory, tie: bool, p: Place): Place
    requires Ready(mem, p)
  {
    NextPlace(mem[p.tadr], tie, p.tadr, p.stack)
  }

  /** The packets of the first n tags, and the place after them. A place that is not ready
      stays where it is. */
  function Walk(mem: Memory, tie: bool, p: Place, n: nat): (v: seq<Visit>)
    ensures |v| <= n
    decreases n
  {
    if n == 0 || !Ready(mem, p) then [] else [VisitAt(mem, p)] + Walk(mem, tie, Next(mem, tie, p), n - 1)
  }

  function After(mem: Memory, tie: bool, p: Place, n: nat): Place
    decreases n
  {
    if n == 0 || !Ready(mem, p) then p else After(mem, tie, Next(mem, tie, p), n - 1)
  }

  /** One more tag extends the walk by one packet at its end. */
  lemma {:induction false} WalkGrows(mem: Memory, tie: bool, p: Place, n: nat)
    requires |Walk(mem, tie, p, n)| == n && Ready(mem, After(mem, tie, p, n))
    ensures var q := After(mem, tie, p, n);
            && Walk(mem, tie, p, n + 1) == Walk(mem, tie, p, n) + [VisitAt(mem, q)]
            && After(mem, tie, p, n + 1) == Next(mem, tie, q)
    decreases n
  {
    hide VisitAt, Next;
    if n > 0 {
      WalkGrows(mem, tie, Next(mem, tie, p), n - 1);
    } else {
      assert Walk(mem, tie, Next(mem, tie, p), 0) == [];
      assert After(mem, tie, Next(mem, tie, p), 0) == Next(mem, tie, p);
    }
  }

  /** A longer walk starts with the shorter one, and adds nothing after an end. */
  lemma {:induction false} WalkExtends(mem: Memory, tie: bool, p: Place, n: nat, m: nat)
    requires n <= m
    ensures Walk(mem, tie, p, n) <= Walk(mem, tie, p, m)
    ensures !Ready(mem, After(mem, tie, p, n)) ==> Walk(mem, tie, p, m) == Walk(mem, tie, p, n)
    decreases n
  {
    hide VisitAt, Next;
    if n > 0 && Ready(mem, p) {
      WalkExtends(mem, tie, Next(mem, tie, p), n - 1, m - 1);
    }
  }

  /** What each tag is for, in addresses: where its data lies, and which tag is next. */
  lemma TagTable(tag: Tag, t: Word, stack: seq<Word>)
    ensures DataOf(tag, t) == if tag.id == REF || tag.id == REFS || tag.id == REFE then tag.addr
                              else (t + 16) % 0x1_0000_0000
    ensures tag.id == CNT ==> NextPlace(tag, false, t, stack) == At((t + 16 + 16 * tag.qwc) % 0x1_0000_0000, stack)
    ensures tag.id == NEXT ==> NextPlace(tag, false, t, stack) == At(tag.addr, stack)
    ensures tag.id == REF || tag.id == REFS ==>
      NextPlace(tag, false, t, stack) == At((t + 16) % 0x1_0000_0000, stack)
    ensures tag.id == REFE || tag.id == END || (tag.id == RET && stack == []) ==>
      NextPlace(tag, false, t, stack) == Ended
    ensures NextPlace(tag, true, t, stack) == if tag.irq then Ended else NextPlace(tag, false, t, stack)
  {
  }

  /** A CALL leads to its subroutine, and a RET there to the tag just behind the CALL's own data. */
  lemma CallThenReturn(mem: Memory, t: Word, stack: seq<Word>)
    requires t in mem && mem[t].id == CALL && mem[t].addr in mem && mem[mem[t].addr].id == RET
    ensures var sub := Next(mem, false, At(t, stack));
            && sub.At? && sub.tadr == mem[t].addr
            && Next(mem, false, sub) == At((t + 16 + 16 * mem[t].qwc) % 0x1_0000_0000, stack)
  {
    var behind := Plus(t, 1 + mem[t].qwc);
    assert (stack + [behind])[..|stack|] == stack;
  }

  /** The n places up to the one after n tags all lie inside a subroutine called from `depth`. */
  predicate Inside(mem: Memory, tie: bool, p: Place, n: nat, depth: nat)
    decreases n
  {
    p.At? && |p.stack| > depth && (n == 0 || (Ready(mem, p) && Inside(mem, tie, Next(mem, tie, p), n - 1, depth)))
  }

  /** However long the subroutine and whatever it calls itself, the place after it is the one it was to
      return to. */
  lemma {:induction false} ComesBack(mem: Memory, tie: bool, p: Place, n: nat, stack: seq<Word>, back: Word)
    requires p.At? && stack + [back] <= p.stack && Inside(mem, tie, p, n, |stack|)
    requires Ready(mem, After(mem, tie, p, n))
    ensures var q := Next(mem, tie, After(mem, tie, p, n));
            q.At? && |q.stack| == |stack| ==> q == At(back, stack)
    decreases n
  {
    if n > 0 {
      NextInside(mem, tie, p, stack, back);
      ComesBack(mem, tie, Next(mem, tie, p), n - 1, stack, back);
    } else {
      NextInside(mem, tie, p, stack, back);
    }
  }

  lemma NextInside(mem: Memory, tie: bool, p: Place, stack: seq<Word>, back: Word)
    requires Ready(mem, p) && stack + [back] <= p.stack
    ensures var q := Next(mem, tie, p);
            && (q.At? && |q.stack| > |stack| ==> stack + [back] <= q.stack)
            && (q.At? && |q.stack| == |stack| ==> q == At(back, stack))
  {
    var q := Next(mem, tie, p);
    if q.At? && |q.stack| < |p.stack| {
      assert p.stack[..|p.stack| - 1] == q.stack;
      if |q.stack| == |stack| {
        assert q.stack == (stack + [back])[..|stack|] == stack;
      }
    } else if q.At? && |q.stack| > |p.stack| {
      assert q.stack[..|p.stack|] == p.stack;
    }
  }

  /** So a CALL is followed, once its subroutine is left, by the tag behind the CALL's data. */
  lemma CallComesBack(mem: Memory, tie: bool, t: Word, stack: seq<Word>, n: nat)
    requires t in mem && mem[t].id == CALL && !(tie && mem[t].irq)
    requires Inside(mem, tie, Next(mem, tie, At(t, stack)), n, |stack|)
    requires Ready(mem, After(mem, tie, Next(mem, tie, At(t, stack)), n))
    ensures var q := Next(mem, tie, After(mem, tie, Next(mem, tie, At(t, stack)), n));
            q.At? && |q.stack| == |stack| ==> q == At((t + 16 + 16 * mem[t].qwc) % 0x1_0000_0000, stack)
  {
    ComesBack(mem, tie, Next(mem, tie, At(t, stack)), n, stack, Plus(t, 1 + mem[t].qwc));
  }

  function Flat(v: seq<Visit>): seq<Word>
  {
    if v == [] then [] else Quads(v[0].addr, v[0].qwc) + Flat(v[1..])
  }

  lemma {:induction false} FlatAppend(v: seq<Visit>, x: Visit)
    ensures Flat(v + [x]) == Flat(v) + Quads(x.addr, x.qwc)
  {
    hide Quads;
    if v == [] {
      assert [x][1..] == [];
      assert v + [x] == [x];
    } else {
      assert (v + [x])[1..] == v[1..] + [x];
      FlatAppend(v[1..], x);
    }
  }

  // ---- Where the hardware stack ends a traversal early ----

  /** A call made at depth two: its packet still moves, then the chain ends. */
  predicate Overflows(v: Visit) { v.id == CALL && v.depth >= 2 }

  function Cut(v: seq<Visit>): seq<Visit>
  {
    if v == [] then [] else if Overflows(v[0]) then [v[0]] else [v[0]] + Cut(v[1..])
  }

  /** A traversal is cut exactly when some call but the last packet overflows. */
  lemma {:induction false} CutIff(v: seq<Visit>)
    ensures Cut(v) == v <==> forall i :: 0 <= i < |v| - 1 ==> !Overflows(v[i])
    ensures Cut(v) <= v
  {
    if v != [] {
      CutIff(v[1..]);
      assert forall i :: 0 <= i < |v| - 1 ==> v[1..][i] == v[i + 1];
      if Overflows(v[0]) {
        assert Cut(v) == v <==> |v| == 1;
      } else {
        assert Cut(v) == v <==> Cut(v[1..]) == v[1..] by {
          assert ([v[0]] + Cut(v[1..]))[1..] == Cut(v[1..]);
        }
      }
    }
  }

  lemma {:induction false} CutAtOverflow(v: seq<Visit>, w: seq<Visit>)
    requires v <= w && v != [] && Cut(v) == v && Overflows(v[|v| - 1])
    ensures Cut(w) == v
  {
    if |v| == 1 {
      assert v == [w[0]];
    } else {
      CutIff(v);
      CutIff(v[1..]);
      assert forall i :: 0 <= i < |v| - 2 ==> v[1..][i] == v[i + 1];
      CutAtOverflow(v[1..], w[1..]);
      assert w[0] == v[0] && v == [v[0]] + v[1..];
    }
  }

  // ---- The channel ----

  class Channel {
    var str: bool
    var chainMode: bool
    var tie: bool
    var id: TagId          // the tag bits held in chcr
    var asp: nat
    var madr: Word
    var qwc: Count
    var tadr: Word
    var asr0: Word
    var asr1: Word
    var done: bool         // gspath3done

    /** What the current transfer has done: where it began, the data that was left in the
        channel then, how many tags it read and which quadwords it moved. */
    ghost var begin: Place
    ghost var first: seq<Word>
    ghost var tags: nat
    ghost var moved: seq<Word>

    ghost function Stack(): (s: seq<Word>)
      reads this`asp, this`asr0, this`asr1
    {
      if asp == 0 then [] else if asp == 1 then [asr0] else [asr0, asr1]
    }

    /** Where the next tag is once the current packet has moved. */
    ghost function Settled(): Word
      reads this`chainMode, this`id, this`qwc, this`madr, this`tadr
    {
      if chainMode && id == CNT && qwc > 0 then Plus(madr, qwc) else tadr
    }

    ghost predicate Valid(mem: Memory)
      reads this
    {
      var v := Walk(mem, tie, begin, tags);
      && str && asp <= 2 && (!chainMode ==> done && begin == Ended)
      && |v| == tags && Cut(v) == v
      && moved + Quads(madr, qwc) == first + Flat(v)
      && (!done ==>
            && After(mem, tie, begin, tags) == At(Settled(), Stack())
            && (tags > 0 ==> !Overflows(v[tags - 1])))
      && (done && tags > 0 ==> After(mem, tie, begin, tags) == Ended || Overflows(v[tags - 1]))
      && (done && tags == 0 ==> begin == Ended)
    }

    /** The tag's effect on the address registers and the stack; the result says whether
        the transfer ends with this packet. On entry madr holds the tag's address field. */
    method SrcChainWithStack(tagId: TagId) returns (end: bool)
      requires asp <= 3
      modifies this`madr, this`tadr, this`asp, this`asr0, this`asr1
      ensures asp <= 3
      ensures var tag := Tag(tagId, qwc, old(madr), false);
              madr == DataOf(tag, old(tadr))
      ensures old(asp) <= 2 ==>
                var tag := Tag(tagId, qwc, old(madr), false);
                var n := NextPlace(tag, false, old(tadr), old(Stack()));
                && asp <= 2
                && end == (n == Ended || (tagId == CALL && old(asp) == 2))
                && (!end ==> Stack() == n.stack)
                && (!end && tagId != CNT ==> tadr == n.tadr)
                && (tagId == CNT ==> tadr == madr && Plus(madr, qwc) == n.tadr)
                && (end ==> Stack() == old(Stack()) && tadr == if tagId == REFE then Plus(old(tadr), 1) else old(tadr))
      ensures tagId != CALL && tagId != RET ==> unchanged(`asp) && unchanged(`asr0) && unchanged(`asr1)
      ensures asp < old(asp) ==> (if asp == 0 then asr0 else asr1) == 0
      ensures old(asp) == 3 ==>
        unchanged(`asp) && unchanged(`asr0) && unchanged(`asr1) && (end <== tagId in {CALL, RET})
    {
      end := false;
      PlusPlus(tadr, 1, qwc);
      match tagId {
        case REFE =>
          tadr := Plus(tadr, 1);
          end := true;
        case CNT =>
          tadr := Plus(tadr, 1);
          madr := tadr;
        case NEXT =>
          var temp := madr;
          madr := Plus(tadr, 1);
          tadr := temp;
        case REF =>
          tadr := Plus(tadr, 1);
        case REFS =>
          tadr := Plus(tadr, 1);
        case CALL =>
          var temp := madr;
          madr := Plus(tadr, 1);
          if asp == 0 {
            asr0 := Plus(madr, qwc);
            asp := asp + 1;
          } else if asp == 1 {
            asr1 := Plus(madr, qwc);
            asp := asp + 1;
          } else {
            return true;
          }
          tadr := temp;
        case RET =>
          madr := Plus(tadr, 1);
          if asp == 2 {
            tadr := asr1;
            asr1 := 0;
            asp := asp - 1;
          } else if asp == 1 {
            tadr := asr0;
            asr0 := 0;
            asp := asp - 1;
          } else {
            return true;
          }
        case END =>
          madr := Plus(tadr, 1);
          end := true;
      }
    }

    /** dmaGIF, in chain or in normal mode: the transfer begins with whatever packet the channel was
        left with, and with whatever return addresses it still holds; in normal mode that packet is
        all there is. */
    method Start(ghost mem: Memory, oldIrq: bool)
      requires str && asp <= 2
      modifies this`done, this`begin, this`first, this`tags, this`moved
      ensures Valid(mem)
      ensures first == Quads(madr, qwc) && moved == [] && tags == 0
      ensures begin == if !chainMode || (qwc > 0 && (id == REFE || id == END || (oldIrq && tie))) then Ended
                       else At(Settled(), Stack())
    {
      hide Quads, Plus, NextPlace, Walk, After, Cut, Flat, Overflows;
      done := false;
      if !chainMode {
        done := true;
      }
      if chainMode && qwc > 0 {
        if id == REFE || id == END || (oldIrq && tie) {
          done := true;
        }
      }
      begin := if done then Ended else At(Settled(), Stack());
      first := Quads(madr, qwc);
      tags := 0;
      moved := [];
      NoTags(mem, tie, begin);
      assert moved + first == first + Flat(Walk(mem, tie, begin, 0));
    }

    lemma NoTags(mem: Memory, tie: bool, p: Place)
      ensures Walk(mem, tie, p, 0) == [] && After(mem, tie, p, 0) == p
      ensures Cut([]) == [] && Flat([]) == []
    {
    }

    /** hwDmacSrcTadrInc: behind CNT data the tag address follows the data address. */
    method TadrInc()
      modifies this`tadr
      ensures tadr == if str && chainMode && id == CNT then madr else old(tadr)
    {
      if !str {
        return;
      }
      if !chainMode {
        return;
      }
      if id == CNT {
        tadr := madr;
      }
    }

    /** incGifChAddr: n quadwords of the packet have moved. */
    method IncAddr(ghost mem: Memory, n: nat)
      requires Valid(mem) && 0 < qwc && n <= qwc
      modifies this`madr, this`qwc, this`tadr, this`moved
      ensures Valid(mem)
      ensures madr == Plus(old(madr), n) && qwc == old(qwc) - n
      ensures moved == old(moved) + Quads(old(madr), n)
      ensures chainMode && id == CNT ==> tadr == madr
      ensures Settled() == old(Settled())
    {
      hide Walk, After, Cut, Flat, Ready, Quads, Plus, Overflows;
      if str {
        QuadsSplit(madr, n, qwc - n);
        PlusPlus(madr, n, qwc - n);
        moved := moved + Quads(madr, n);
        madr := (madr + n * 16) % WRAP;
        PlusIs(old(madr), n);
        qwc := qwc - n;
        TadrInc();
      }
    }

    /** The body of ReadTag once the tag is known, with the tag interrupt. */
    method ApplyTag(tag: Tag)
      requires chainMode && asp <= 2
      modifies this`id, this`qwc, this`madr, this`tadr, this`asp, this`asr0, this`asr1, this`done
      ensures id == tag.id && qwc == tag.qwc && madr == DataOf(tag, old(tadr)) && asp <= 2
      ensures var n := NextPlace(tag, tie, old(tadr), old(Stack()));
              && done == (n == Ended || (tag.id == CALL && old(asp) == 2))
              && (!done ==> n == At(Settled(), Stack()))
    {
      hide NextPlace, DataOf, Plus;
      id := tag.id;
      qwc := tag.qwc;
      madr := tag.addr;
      done := SrcChainWithStack(tag.id);
      TagIrrelevantBits(tag, tie, old(tadr), old(Stack()));
      PlusNone(madr);
      if tie && tag.irq {
        done := true;
      }
    }

    /** ReadTag: fetches the tag at tadr into the channel. A tag that cannot be reached is a
        bus error and changes nothing. */
    method ReadTag(mem: Memory) returns (ok: bool)
      requires Valid(mem) && qwc == 0 && !done
      modifies this`id, this`qwc, this`madr, this`tadr, this`asp, this`asr0, this`asr1, this`done, this`tags
      ensures Valid(mem)
      ensures ok == (old(tadr) in mem)
      ensures ok ==> tags == old(tags) + 1 && qwc == mem[old(tadr)].qwc && id == mem[old(tadr)].id
      ensures !ok ==> tags == old(tags) && qwc == 0 && !done && madr == old(madr) && tadr == old(tadr)
    {
      hide Walk, After, Cut, Flat, Overflows, Quads, Plus, NextPlace, DataOf;
      if tadr !in mem {
        return false;
      }
      ghost var p := At(tadr, Stack());
      OneMoreTag(mem, tie, begin, tags, p);
      assert Quads(madr, 0) == [];
      assert moved == first + Flat(Walk(mem, tie, begin, tags));
      ApplyTag(mem[tadr]);
      tags := tags + 1;
      ok := true;
    }

    /** One round of GIFdma: the next tag if the last packet is through, then one piece of
        the packet, as much of it as the receiver takes. */
    method Round(mem: Memory, taken: nat)
      requires Valid(mem)
      modifies this`id, this`qwc, this`madr, this`tadr, this`asp, this`asr0, this`asr1, this`done, this`tags, this`moved
      ensures Valid(mem)
      ensures tags >= old(tags) && old(moved) <= moved
      ensures taken > 0 ==> tags > old(tags) || |moved| > |old(moved)|
                            || (old(qwc) == 0 && (old(done) || old(tadr) !in mem))
    {
      hide Walk, After, Cut, Flat, Overflows, Quads, Plus;
      if !(qwc > 0 || !done) {
        return;
      }
      if !done && qwc == 0 {
        var ok := ReadTag(mem);
        if !ok {
          return;
        }
      }
      if qwc > 0 {
        IncAddr(mem, if taken < qwc then taken else qwc);
      }
    }

    /** Any number of rounds with pieces of any size: what moved is a prefix of the ideal
        traversal cut at the first overflowing call, and all of it once the channel is done. */
    method Run(mem: Memory, pieces: seq<nat>)
      requires Valid(mem)
      modifies this`id, this`qwc, this`madr, this`tadr, this`asp, this`asr0, this`asr1, this`done, this`tags, this`moved
      ensures Valid(mem) && tags >= old(tags) && old(moved) <= moved
      ensures forall n :: n >= tags ==> moved <= first + Flat(Cut(Walk(mem, tie, begin, n)))
      ensures done && qwc == 0 ==> forall n :: n >= tags ==> moved == first + Flat(Cut(Walk(mem, tie, begin, n)))
    {
      for i := 0 to |pieces|
        invariant Valid(mem) && tags >= old(tags) && old(moved) <= moved
      {
        hide *;
        Round(mem, pieces[i]);
      }
      forall n | n >= tags
        ensures moved <= first + Flat(Cut(Walk(mem, tie, begin, n)))
        ensures done && qwc == 0 ==> moved == first + Flat(Cut(Walk(mem, tie, begin, n)))
      {
        hide *;
        MovedInOrder(mem, n);
      }
    }

    lemma MovedInOrder(mem: Memory, n: nat)
      requires Valid(mem) && n >= tags
      ensures moved <= first + Flat(Cut(Walk(mem, tie, begin, n)))
      ensures done && qwc == 0 ==> moved == first + Flat(Cut(Walk(mem, tie, begin, n)))
    {
      hide Flat, Overflows, Quads, Plus, After, Walk, Cut;
      var v, w := Walk(mem, tie, begin, tags), Walk(mem, tie, begin, n);
      WalkExtends(mem, tie, begin, tags, n);
      CutIff(v);
      if tags > 0 && Overflows(v[tags - 1]) {
        CutAtOverflow(v, w);
      } else {
        CutKeeps(v, w);
        if done {
          AfterEnd(mem, tie, begin, tags);
          CutIff(w);
        }
      }
      assert v <= Cut(w);
      FlatPrefix(v, Cut(w));
      assert moved <= moved + Quads(madr, qwc);
      assert qwc == 0 ==> Quads(madr, qwc) == [];
    }
  }

  lemma {:induction false} CutKeeps(v: seq<Visit>, w: seq<Visit>)
    requires v <= w && forall i :: 0 <= i < |v| ==> !Overflows(v[i])
    ensures v <= Cut(w)
  {
    if v != [] {
      assert forall i :: 0 <= i < |v| - 1 ==> v[1..][i] == v[i + 1];
      CutKeeps(v[1..], w[1..]);
      assert v == [v[0]] + v[1..] && v[0] == w[0];
    }
  }

  lemma {:induction false} FlatPrefix(v: seq<Visit>, w: seq<Visit>)
    requires v <= w
    ensures Flat(v) <= Flat(w)
  {
    hide Quads;
    if v != [] {
      FlatPrefix(v[1..], w[1..]);
    }
  }

  /** What reading the tag at p adds to the traversal. */
  lemma OneMoreTag(mem: Memory, tie: bool, begin: Place, tags: nat, p: Place)
    requires |Walk(mem, tie, begin, tags)| == tags && After(mem, tie, begin, tags) == p && Ready(mem, p)
    requires var v := Walk(mem, tie, begin, tags); Cut(v) == v && (tags > 0 ==> !Overflows(v[tags - 1]))
    ensures var tag, v, w := mem[p.tadr], Walk(mem, tie, begin, tags), Walk(mem, tie, begin, tags + 1);
            && |w| == tags + 1 && Cut(w) == w
            && Flat(w) == Flat(v) + Quads(DataOf(tag, p.tadr), tag.qwc)
            && (Overflows(w[tags]) <==> tag.id == CALL && |p.stack| >= 2)
            && After(mem, tie, begin, tags + 1) == NextPlace(tag, tie, p.tadr, p.stack)
  {
    hide Walk, After, Cut, Flat, Quads, Plus, NextPlace, DataOf;
    var v := Walk(mem, tie, begin, tags);
    WalkGrows(mem, tie, begin, tags);
    FlatAppend(v, VisitAt(mem, p));
    CutGrows(v, VisitAt(mem, p));
  }

  lemma PlusIs(a: Word, n: nat)
    ensures Plus(a, n) == (a + n * 16) % WRAP
  {
  }

  lemma AfterEnd(mem: Memory, tie: bool, p: Place, n: nat)
    ensures p == Ended ==> After(mem, tie, p, n) == Ended
  {
  }

  lemma PlusNone(a: Word)
    ensures Plus(a, 0) == a
  {
  }

  lemma TagIrrelevantBits(tag: Tag, tie: bool, t: Word, stack: seq<Word>)
    ensures !(tie && tag.irq) ==>
      NextPlace(tag, tie, t, stack) == NextPlace(Tag(tag.id, tag.qwc, tag.addr, false), false, t, stack)
    ensures tie && tag.irq ==> NextPlace(tag, tie, t, stack) == Ended
    ensures DataOf(tag, t) == DataOf(Tag(tag.id, tag.qwc, tag.addr, false), t)
    ensures NextPlace(tag, tie, t, stack).At? && tag.id == CNT ==>
      NextPlace(tag, tie, t, stack).tadr == Plus(t, 1 + tag.qwc)
  {
  }

  /** Appending a packet behind packets none of which overflows keeps the traversal uncut. */
  lemma CutGrows(v: seq<Visit>, x: Visit)
    requires Cut(v) == v && (v != [] ==> !Overflows(v[|v| - 1]))
    ensures Cut(v + [x]) == v + [x]
  {
    hide Cut, Overflows;
    CutIff(v);
    CutIff(v + [x]);
    assert forall i :: 0 <= i < |v| ==> (v + [x])[i] == v[i];
  }
}
