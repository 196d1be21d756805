/** The resumable packet parser as a function on values: what one call of ExecuteGSPacket does to
    the parser state and the GS registers, given the bytes that are waiting. */
module GifParser {
  import opened Basics
  import opened GifTags
  import opened GsSignals

  datatype PathState = Idle | OnPacked | OnRegList | OnImage | Wait

  /** `size` counts the bytes of the current packet consumed so far. */
  datatype Parser = Parser(tag: Tag, state: PathState, size: nat) {
    ghost predicate Ok() {
      tag.Ok() && (tag.isValid ==> state == OnPacked)
    }
  }

  const FRESH := Parser(NULL_TAG, Idle, 0)

  function StateOf(f: Flag): PathState {
    match f
    case Packed => OnPacked
    case RegPairs => OnRegList
    case Image => OnImage
  }

  /** Why a call came back: out of data, stopped by a stalling SIGNAL, or at an EOP. */
  datatype Ending = Starved | Stalled | Done

  datatype Outcome = Outcome(p: Parser, gs: Gs, used: nat, ending: Ending)

  function After(n: nat, o: Outcome): Outcome {
    o.(used := n + o.used)
  }

  ghost predicate Running(p: Parser) {
    && (p.tag.isValid ==> p.tag.hasAD && p.state == OnPacked)
    && (p.tag.(isValid := false)).Ok()
  }

  /** One turn of the parser's loop: it either ends the call or goes on n bytes further. */
  datatype Turn = Stop(o: Outcome) | Go(p: Parser, gs: Gs, n: nat)

  function ParseTurn(p: Parser, gs: Gs, data: seq<byte>): (m: Turn)
    requires Running(p)
    ensures m.Go? ==> Running(m.p) && m.n <= |data| && m.p.size == p.size + m.n
    ensures m.Go? && m.n == 0 ==> p.tag.isValid && !m.p.tag.isValid && !p.tag.eop && p.tag.nLoop == 0
    ensures m.Stop? ==> m.o.p.Ok() && m.o.used <= |data| && m.o.p.size == p.size + m.o.used
    ensures m.Stop? && m.o.ending == Starved ==> m.o.used == 0 && m.o.gs == gs
    ensures m.Stop? && m.o.ending == Done ==>
      !m.o.p.tag.isValid && (m.o.used >= 16 || (p.tag.isValid && p.tag.eop && p.tag.nLoop == 0))
  {
    if !p.tag.isValid then
      if |data| < 16 then Stop(Outcome(p, gs, 0, Starved))
      else
        var t := SetTag(p.tag, data[..16]);
        var q := p.(tag := t, state := StateOf(t.flg));
        if t.hasAD then Go(q.(size := p.size + 16), gs, 16)
        else if 16 + t.len > |data| then Stop(Outcome(q.(tag := t.(isValid := false)), gs, 0, Starved))
        else EndTag(q, gs, 16 + t.len)
    else if p.tag.nLoop == 0 then EndTag(p, gs, 0)
    else if |data| < 16 then Stop(Outcome(p, gs, 0, Starved))
    else
      var (gs', stall) := AdStep(p.tag, gs, data[..16]);
      var q := p.(tag := PackedStep(p.tag));
      if stall && !(q.tag.eop && q.tag.nLoop == 0) then Stop(Outcome(q.(size := p.size + 16), gs', 16, Stalled))
      else if q.tag.nLoop == 0 then EndTag(q, gs', 16)
      else Go(q.(size := p.size + 16), gs', 16)
  }

  /** The tag's data is all there: reload a tag, or, at an EOP, the packet is complete. */
  function EndTag(p: Parser, gs: Gs, n: nat): Turn {
    var q := p.(tag := p.tag.(isValid := false), size := p.size + n);
    if p.tag.eop then Stop(Outcome(q, gs, n, Done)) else Go(q, gs, n)
  }

  /** The register effect of one quadword of a PACKED tag. */
  function AdStep(t: Tag, gs: Gs, qw: seq<byte>): (Gs, bool)
    requires |t.regs| == 16 && |qw| >= 16
  {
    if t.CurReg() == GIF_REG_A_D then HandlerAD(gs, qw) else (gs, false)
  }

  /** One call. Bytes are consumed from the front of `data`. */
  function Exec(p: Parser, gs: Gs, data: seq<byte>): (o: Outcome)
    requires Running(p)
    ensures o.p.Ok() && o.used <= |data| && o.p.size == p.size + o.used
    ensures o.ending == Done ==> !o.p.tag.isValid && (p.Ok() ==> o.used >= 16)
    decreases |data|, p.tag.isValid
  {
    match ParseTurn(p, gs, data)
    case Stop(o) => o
    case Go(q, gs', n) => After(n, Exec(q, gs', data[n..]))
  }

  // ---- One call, step by step ----

  /** The rest of a call from the point where the current tag's data has been consumed. */
  function EndOf(p: Parser, gs: Gs, data: seq<byte>): (o: Outcome)
    requires Running(p.(tag := p.tag.(isValid := false)))
  {
    var q := p.(tag := p.tag.(isValid := false));
    if p.tag.eop then Outcome(q, gs, 0, Done) else Exec(q, gs, data)
  }

  lemma EndExec(p: Parser, gs: Gs, data: seq<byte>)
    requires Running(p) && p.tag.isValid && p.tag.nLoop == 0
    ensures Exec(p, gs, data) == EndOf(p, gs, data)
  {
    assert data[0..] == data;
  }

  lemma FetchExec(p: Parser, gs: Gs, data: seq<byte>)
    requires Running(p) && !p.tag.isValid && |data| >= 16
    ensures var t := SetTag(p.tag, data[..16]);
            var q := p.(tag := t, state := StateOf(t.flg));
            if t.hasAD then
              Running(q) && Exec(p, gs, data) == After(16, Exec(q.(size := p.size + 16), gs, data[16..]))
            else if 16 + t.len > |data| then
              Exec(p, gs, data) == Outcome(q.(tag := t.(isValid := false)), gs, 0, Starved)
            else
              && Running(q.(tag := t.(isValid := false)))
              && Exec(p, gs, data) ==
                   After(16 + t.len, EndOf(q.(size := p.size + 16 + t.len), gs, data[16 + t.len..]))
  {
    FetchTurn(p, gs, data);
    hide SetTag, ParseTurn;
  }

  lemma FetchTurn(p: Parser, gs: Gs, data: seq<byte>)
    requires Running(p) && !p.tag.isValid && |data| >= 16
    ensures var t := SetTag(p.tag, data[..16]);
            var q := p.(tag := t, state := StateOf(t.flg));
            if t.hasAD then Running(q) && ParseTurn(p, gs, data) == Go(q.(size := p.size + 16), gs, 16)
            else if 16 + t.len > |data| then
              ParseTurn(p, gs, data) == Stop(Outcome(q.(tag := t.(isValid := false)), gs, 0, Starved))
            else
              Running(q.(tag := t.(isValid := false))) && ParseTurn(p, gs, data) == EndTag(q, gs, 16 + t.len)
  {
    hide DataLen, RegList, NReg, EndTag;
  }

  /** A whole IMAGE packet or piece of one. */
  lemma ImageExec(p: Parser, gs: Gs, data: seq<byte>)
    requires Running(p) && !p.tag.isValid && |data| >= 16 && Flg(data[..16]) == Image
    requires |data| == 16 + DataLen(data[..16])
    ensures var o := Exec(p, gs, data);
            && o.used == |data| && o.gs == gs && o.p.state == OnImage && o.p.size == p.size + |data|
            && !o.p.tag.isValid && o.ending == if Eop(data[..16]) then Done else Starved
  {
    FetchExec(p, gs, data);
    SetTagFields(p.tag, data[..16]);
    hide SetTag, DataLen, Exec;
    var t := SetTag(p.tag, data[..16]);
    var q := p.(tag := t.(isValid := false), state := OnImage, size := p.size + |data|);
    assert data[16 + t.len..] == [];
    if !t.eop {
      StarvedExec(q, gs);
    }
  }

  lemma StarvedExec(p: Parser, gs: Gs)
    requires Running(p) && !p.tag.isValid
    ensures Exec(p, gs, []) == Outcome(p, gs, 0, Starved)
  {
  }

  /** A tag has been read whose data, unless it comes as A+D quadwords, is all there. */
  ghost predicate AtData(p: Parser, data: seq<byte>) {
    && p.tag.isValid && Running(p.(tag := p.tag.(isValid := false)))
    && (p.tag.hasAD ==> Running(p))
    && (!p.tag.hasAD ==> p.tag.len <= |data|)
  }

  /** The rest of a call from there. */
  function DataExec(p: Parser, gs: Gs, data: seq<byte>): Outcome
    requires AtData(p, data)
  {
    if p.tag.hasAD then Exec(p, gs, data)
    else After(p.tag.len, EndOf(p.(size := p.size + p.tag.len), gs, data[p.tag.len..]))
  }

  /** What reading a tag does to the call: `q` and `rest` are the parser and the data after it. */
  ghost predicate Fetched(p: Parser, gs: Gs, data: seq<byte>, q: Parser, rest: seq<byte>, ok: bool)
    requires Running(p)
  {
    if !ok then q.Ok() && Running(q) && rest == data && Exec(p, gs, data) == Outcome(q, gs, 0, Starved)
    else
      && |data| >= 16 && rest == data[16..] && AtData(q, rest)
      && Exec(p, gs, data) == After(16, DataExec(q, gs, rest))
  }

  lemma TagFetched(p: Parser, gs: Gs, data: seq<byte>)
    requires Running(p) && !p.tag.isValid && |data| >= 16
    ensures var t := SetTag(p.tag, data[..16]);
            var q := p.(tag := t, state := StateOf(t.flg));
            var ok := t.hasAD || 16 + t.len <= |data|;
            if ok then Fetched(p, gs, data, q.(size := p.size + 16), data[16..], true)
            else Fetched(p, gs, data, q.(tag := t.(isValid := false)), data, false)
  {
    hide SetTag, Exec, EndOf, DataLen, Eop, DataExec, StateOf;
    FetchExec(p, gs, data);
    SetTagFields(p.tag, data[..16]);
    var t := SetTag(p.tag, data[..16]);
    var q := p.(tag := t, state := StateOf(t.flg), size := p.size + 16);
    if t.hasAD {
      DataExecAD(q, gs, data[16..]);
    } else if 16 + t.len <= |data| {
      DataExecPlain(q, gs, data);
    }
  }

  lemma DataExecAD(q: Parser, gs: Gs, rest: seq<byte>)
    requires AtData(q, rest) && q.tag.hasAD
    ensures DataExec(q, gs, rest) == Exec(q, gs, rest)
  {
    hide Exec;
  }

  lemma DataExecPlain(q: Parser, gs: Gs, data: seq<byte>)
    requires |data| >= 16 && AtData(q, data[16..]) && !q.tag.hasAD
    ensures After(16, DataExec(q, gs, data[16..])) ==
      After(16 + q.tag.len, EndOf(q.(size := q.size + q.tag.len), gs, data[16 + q.tag.len..]))
  {
    hide EndOf;
    assert data[16..][q.tag.len..] == data[16 + q.tag.len..];
  }

  lemma StepExec(p: Parser, gs: Gs, data: seq<byte>)
    requires Running(p) && p.tag.isValid && p.tag.nLoop > 0 && |data| >= 16
    ensures var (gs', stall) := AdStep(p.tag, gs, data[..16]);
            var q := p.(tag := PackedStep(p.tag), size := p.size + 16);
            && Running(q)
            && (!stall ==> Exec(p, gs, data) == After(16, Exec(q, gs', data[16..])))
            && (stall && !(q.tag.eop && q.tag.nLoop == 0) ==> Exec(p, gs, data) == Outcome(q, gs', 16, Stalled))
            && (stall && q.tag.eop && q.tag.nLoop == 0 ==>
                  Exec(p, gs, data) == After(16, EndOf(q, gs', data[16..])))
  {
    hide AdStep;
    var q := p.(tag := PackedStep(p.tag), size := p.size + 16);
    if q.tag.nLoop == 0 {
      EndExec(q, AdStep(p.tag, gs, data[..16]).0, data[16..]);
    }
  }

  /** Where a call has got to in the middle of a PACKED tag, after `used` bytes. */
  ghost predicate Reached(p: Parser, gs0: Gs, data: seq<byte>, q: Parser, gs: Gs, rest: seq<byte>,
                          used: nat, stall: bool)
    requires Running(p)
  {
    && used <= |data| && rest == data[used..]
    && Running(q) && q.tag.isValid
    && Exec(p, gs0, data) ==
         if !stall then After(used, Exec(q, gs, rest))
         else if q.tag.eop && q.tag.nLoop == 0 then After(used, EndOf(q, gs, rest))
         else Outcome(q, gs, used, Stalled)
  }

  lemma ReachedStep(p: Parser, gs0: Gs, data: seq<byte>, q: Parser, gs: Gs, rest: seq<byte>, used: nat)
    requires Running(p) && Reached(p, gs0, data, q, gs, rest, used, false)
    requires q.tag.nLoop > 0 && |rest| >= 16
    ensures var (gs', stall) := AdStep(q.tag, gs, rest[..16]);
            Reached(p, gs0, data, q.(tag := PackedStep(q.tag), size := q.size + 16), gs', rest[16..],
                    used + 16, stall)
  {
    StepExec(q, gs, rest);
    hide Exec, EndOf, AdStep;
    assert data[used..][16..] == data[used + 16..];
  }

  lemma ReachedEnd(p: Parser, gs0: Gs, data: seq<byte>, q: Parser, gs: Gs, rest: seq<byte>, used: nat, stall: bool)
    requires Running(p) && Reached(p, gs0, data, q, gs, rest, used, stall)
    requires q.tag.nLoop == 0 && (stall ==> q.tag.eop)
    ensures Exec(p, gs0, data) == After(used, EndOf(q, gs, rest))
  {
    hide Exec, EndOf;
    EndExec(q, gs, rest);
  }

  lemma ReachedStall(p: Parser, gs0: Gs, data: seq<byte>, q: Parser, gs: Gs, rest: seq<byte>, used: nat)
    requires Running(p) && Reached(p, gs0, data, q, gs, rest, used, true)
    requires !(q.tag.eop && q.tag.nLoop == 0)
    ensures Exec(p, gs0, data) == Outcome(q, gs, used, Stalled) && q.Ok()
  {
  }

  lemma ReachedStarved(p: Parser, gs0: Gs, data: seq<byte>, q: Parser, gs: Gs, rest: seq<byte>, used: nat)
    requires Running(p) && Reached(p, gs0, data, q, gs, rest, used, false)
    requires q.tag.nLoop > 0 && |rest| < 16
    ensures Exec(p, gs0, data) == Outcome(q, gs, used, Starved) && q.Ok()
  {
  }

  // ---- One call on more data ----

  /** Re-reading a tag that did not have its data yet changes nothing. */
  lemma SetTagTwice(prev: Tag, hdr: seq<byte>, flag: bool)
    requires |prev.regs| == 16 && |hdr| >= 16
    ensures SetTag(SetTag(prev, hdr).(isValid := flag), hdr) == SetTag(prev, hdr)
  {
    if Flg(hdr) == Packed {
      var n := NReg(hdr);
      var t := SetTag(prev, hdr);
      assert t.regs[n..] == prev.regs[n..];
    }
  }

  lemma TurnExtends(p: Parser, gs: Gs, x: seq<byte>, y: seq<byte>)
    requires Running(p)
    ensures var m := ParseTurn(p, gs, x);
            ParseTurn(p, gs, x + y) ==
              if m.Stop? && m.o.ending == Starved then ParseTurn(m.o.p, gs, x + y) else m
  {
    if |x| >= 16 {
      assert (x + y)[..16] == x[..16];
      SetTagTwice(p.tag, x[..16], false);
    }
  }

  /** Where a call on `x` stopped, a call on `x` with more data behind it carries on: it ends the
      same way, or, if `x` ran out, it equals stopping there and calling again. */
  lemma {:induction false} ExecExtends(p: Parser, gs: Gs, x: seq<byte>, y: seq<byte>)
    requires Running(p)
    ensures var o := Exec(p, gs, x);
            Exec(p, gs, x + y) ==
              if o.ending == Starved then After(o.used, Exec(o.p, o.gs, x[o.used..] + y)) else o
    decreases |x|, p.tag.isValid
  {
    hide ParseTurn, Running;
    TurnExtends(p, gs, x, y);
    match ParseTurn(p, gs, x) {
      case Stop(o) =>
        assert x[0..] == x;
      case Go(q, gs', n) =>
        assert (x + y)[n..] == x[n..] + y;
        ExecExtends(q, gs', x[n..], y);
        var o := Exec(q, gs', x[n..]);
        assert x[n..][o.used..] == x[n + o.used..];
    }
  }

  // ---- SIGNALs during one call ----

  lemma AdStepSignals(t: Tag, gs: Gs, qw: seq<byte>)
    requires |t.regs| == 16 && |qw| >= 16 && !gs.queued
    ensures AdStep(t, gs, qw).1 == AdStep(t, gs, qw).0.queued
    ensures gs.NoSignalLost() ==> AdStep(t, gs, qw).0.NoSignalLost()
  {
    if gs.NoSignalLost() {
      HandlerKeepsSignals(gs, At(qw, 8), WriteOf(qw));
    }
  }

  lemma TurnSignals(p: Parser, gs: Gs, data: seq<byte>)
    requires Running(p) && !gs.queued
    ensures match ParseTurn(p, gs, data)
            case Go(_, gs', _) => !gs'.queued && (gs.NoSignalLost() ==> gs'.NoSignalLost())
            case Stop(o) =>
              && (o.ending == Stalled ==> o.gs.queued)
              && (o.ending == Starved ==> !o.gs.queued)
              && (gs.NoSignalLost() ==> o.gs.NoSignalLost())
  {
    if p.tag.isValid && |data| >= 16 {
      AdStepSignals(p.tag, gs, data[..16]);
    }
  }

  /** A call that starts with no SIGNAL stalled handles every A+D write with none stalled, so it
      loses none; it is left with one stalled if and only if that is what stopped it, or the
      stalling write closed the packet. */
  lemma {:induction false} ExecSignals(p: Parser, gs: Gs, data: seq<byte>)
    requires Running(p) && !gs.queued
    ensures var o := Exec(p, gs, data);
            && (o.ending == Stalled ==> o.gs.queued)
            && (o.ending == Starved ==> !o.gs.queued)
            && (gs.NoSignalLost() ==> o.gs.NoSignalLost())
    decreases |data|, p.tag.isValid
  {
    hide ParseTurn;
    TurnSignals(p, gs, data);
    match ParseTurn(p, gs, data) {
      case Stop(o) =>
      case Go(q, gs', n) => ExecSignals(q, gs', data[n..]);
    }
  }

  lemma AdStepFollows(t: Tag, gs: Gs, qw: seq<byte>)
    requires |t.regs| == 16 && |qw| >= 16
    ensures Follows(gs, AdStep(t, gs, qw).0)
  {
    hide Follows, HandleWrite, WriteOf;
    FollowsSelf(gs);
    HandlerFollows(gs, At(qw, 8), WriteOf(qw));
  }

  lemma TurnFollows(p: Parser, gs: Gs, data: seq<byte>)
    requires Running(p)
    ensures match ParseTurn(p, gs, data)
            case Go(_, gs', _) => Follows(gs, gs')
            case Stop(o) => Follows(gs, o.gs)
  {
    hide Follows, AdStep, SetTag, PackedStep;
    FollowsSelf(gs);
    if p.tag.isValid && |data| >= 16 {
      AdStepFollows(p.tag, gs, data[..16]);
    }
  }

  /** A call only adds to what the GS has seen. */
  lemma {:induction false} ExecFollows(p: Parser, gs: Gs, data: seq<byte>)
    requires Running(p)
    ensures Follows(gs, Exec(p, gs, data).gs)
    decreases |data|, p.tag.isValid
  {
    hide ParseTurn;
    TurnFollows(p, gs, data);
    match ParseTurn(p, gs, data) {
      case Stop(o) =>
      case Go(q, gs', n) =>
        ExecFollows(q, gs', data[n..]);
        FollowsChain(gs, gs', Exec(q, gs', data[n..]).gs);
    }
  }

  // ---- Packet length, from the headers alone ----

  /** Length of the packet at the front of `data`: the headers up to the first EOP, each with the
      data length it announces; None if it is not all there. */
  function Span(data: seq<byte>): (r: Option<nat>)
    decreases |data|
  {
    if |data| < 16 then None
    else
      var n := 16 + DataLen(data[..16]);
      if |data| < n then None
      else if Eop(data[..16]) then Some(n)
      else Plus(n, Span(data[n..]))
  }

  function Plus(n: nat, r: Option<nat>): Option<nat> {
    match r case None => None case Some(m) => Some(n + m)
  }

  /** The same, from the middle of a PACKED tag. */
  function SpanFrom(t: Tag, data: seq<byte>): Option<nat> {
    if !t.isValid then Span(data)
    else
      var n := 16 * StepsLeft(t);
      if n < 0 || |data| < n then None
      else if t.eop then Some(n)
      else Plus(n, Span(data[n..]))
  }

  lemma {:induction false} SpanPrefix(x: seq<byte>, y: seq<byte>)
    ensures Span(x) == None && Span(x + y).Some? ==> Span(x + y).value > |x|
    ensures Span(x).Some? ==> Span(x + y) == Span(x) && Span(x).value <= |x|
    decreases |x|
  {
    if |x| >= 16 {
      assert (x + y)[..16] == x[..16];
      hide DataLen, Eop;
      var n := 16 + DataLen(x[..16]);
      if n <= |x| {
        assert (x + y)[n..] == x[n..] + y;
        SpanPrefix(x[n..], y);
      }
    }
  }

  predicate Aligned(n: nat) {
    n % 16 == 0
  }

  /** Packets are whole quadwords. */
  lemma {:induction false} SpanAligned(data: seq<byte>)
    ensures Span(data).Some? ==> Aligned(Span(data).value)
    decreases |data|
  {
    hide DataLen, Eop, Aligned;
    if |data| >= 16 {
      DataLenAligned(data[..16]);
      var len := DataLen(data[..16]);
      SumAligned(16, len);
      if 16 + len <= |data| {
        SpanAligned(data[16 + len..]);
        if Span(data[16 + len..]).Some? { SumAligned(16 + len, Span(data[16 + len..]).value); }
      }
    }
  }

  lemma SumAligned(a: nat, b: nat)
    ensures Aligned(a) && Aligned(b) ==> Aligned(a + b)
    ensures Aligned(16)
  {
  }

  lemma DataLenAligned(hdr: seq<byte>)
    requires |hdr| >= 16
    ensures Aligned(DataLen(hdr))
  {
    hide NReg, NLoop, Flg, Aligned;
    var k := NReg(hdr) * NLoop(hdr);
    TimesSixteen(k);
    TimesSixteen((k + 1) / 2);
    TimesSixteen(NLoop(hdr));
  }

  lemma TimesSixteen(k: nat)
    ensures Aligned(k * 16)
  {
  }

  lemma SpanFromAligned(t: Tag, data: seq<byte>)
    ensures SpanFrom(t, data).Some? ==> SpanFrom(t, data).value % 16 == 0
  {
    hide StepsLeft, Span;
    SpanAligned(data);
    var n := 16 * StepsLeft(t);
    if t.isValid && 0 <= n <= |data| {
      SpanAligned(data[n..]);
      if Span(data[n..]).Some? { SumAligned(n, Span(data[n..]).value); }
    }
  }

  /** A packet that was not complete ends inside the data that completes it. */
  lemma SpanFromPrefix(t: Tag, x: seq<byte>, y: seq<byte>)
    ensures SpanFrom(t, x) == None && SpanFrom(t, x + y).Some? ==> SpanFrom(t, x + y).value > |x|
  {
    hide StepsLeft, Span;
    SpanPrefix(x, y);
    var n := 16 * StepsLeft(t);
    if t.isValid && 0 <= n <= |x| {
      assert (x + y)[n..] == x[n..] + y;
      SpanPrefix(x[n..], y);
    }
  }

  lemma TurnSpan(p: Parser, gs: Gs, data: seq<byte>)
    requires Running(p)
    ensures match ParseTurn(p, gs, data)
            case Go(q, _, n) => SpanFrom(p.tag, data) == Plus(n, SpanFrom(q.tag, data[n..]))
            case Stop(o) =>
              match o.ending
              case Done => SpanFrom(p.tag, data) == Some(o.used)
              case Starved => SpanFrom(p.tag, data) == None == SpanFrom(o.p.tag, data)
              case Stalled => SpanFrom(p.tag, data) == Plus(o.used, SpanFrom(o.p.tag, data[o.used..]))
  {
    if !p.tag.isValid {
      if |data| >= 16 { FetchSpan(p, gs, data); }
    } else if p.tag.nLoop == 0 {
      assert data[0..] == data;
    } else {
      StepCountsDown(p.tag);
      if |data| >= 16 { StepSpan(p.tag, PackedStep(p.tag), data); }
    }
  }

  lemma StepSpan(t: Tag, s: Tag, data: seq<byte>)
    requires t.isValid && s.isValid && s.eop == t.eop && |data| >= 16
    requires StepsLeft(t) > 0 && StepsLeft(s) == StepsLeft(t) - 1
    ensures SpanFrom(t, data) == Plus(16, SpanFrom(s, data[16..]))
  {
    var n := 16 * StepsLeft(t);
    if n <= |data| {
      assert data[16..][n - 16..] == data[n..];
    }
  }

  lemma SetTagFields(prev: Tag, hdr: seq<byte>)
    requires |prev.regs| == 16 && |hdr| >= 16
    ensures var t := SetTag(prev, hdr);
            t.isValid && t.eop == Eop(hdr) && t.len == DataLen(hdr) && (t.hasAD ==> Flg(hdr) == Packed)
  {
    hide DataLen, RegList, NReg;
  }

  lemma HeaderSpan(t: Tag, data: seq<byte>)
    requires |data| >= 16 && t.isValid && t.eop == Eop(data[..16])
    requires t.len == DataLen(data[..16]) == 16 * StepsLeft(t)
    ensures Span(data) == Plus(16, SpanFrom(t, data[16..]))
  {
    hide StepsLeft, DataLen, Eop;
    var n := 16 + t.len;
    if n <= |data| {
      assert data[16..][t.len..] == data[n..];
      assert Span(data) == if t.eop then Some(n) else Plus(n, Span(data[n..]));
    }
  }

  lemma SpanStep(data: seq<byte>)
    requires |data| >= 16
    ensures var n := 16 + DataLen(data[..16]);
            Span(data) == if |data| < n then None else if Eop(data[..16]) then Some(n) else Plus(n, Span(data[n..]))
  {
    hide DataLen, Eop;
  }

  lemma FetchSpan(p: Parser, gs: Gs, data: seq<byte>)
    requires Running(p) && !p.tag.isValid && |data| >= 16
    ensures var t := SetTag(p.tag, data[..16]);
            && (t.hasAD ==> Span(data) == Plus(16, SpanFrom(t, data[16..])))
            && (!t.hasAD && 16 + t.len > |data| ==> Span(data) == None)
            && (!t.hasAD && 16 + t.len <= |data| ==>
                  Span(data) == if t.eop then Some(16 + t.len) else Plus(16 + t.len, Span(data[16 + t.len..])))
  {
    hide SetTag, DataLen, StepsLeft, Eop, SpanFrom, Span, Plus;
    var t := SetTag(p.tag, data[..16]);
    SetTagFields(p.tag, data[..16]);
    SpanStep(data);
    if t.hasAD {
      FreshPackedTag(t, data[..16], p.tag);
      HeaderSpan(t, data);
    }
  }

  /** The stepping parser and the headers agree on where a packet ends: a call completes a packet
      exactly at the length the headers announce, and when it does not complete one, what it left
      behind is the rest of the same packet. */
  lemma {:induction false} ExecSpan(p: Parser, gs: Gs, data: seq<byte>)
    requires Running(p)
    ensures var o := Exec(p, gs, data);
            if o.ending == Done then SpanFrom(p.tag, data) == Some(o.used)
            else
              && SpanFrom(p.tag, data) == Plus(o.used, SpanFrom(o.p.tag, data[o.used..]))
              && (o.ending == Starved ==> SpanFrom(p.tag, data) == None)
    decreases |data|, p.tag.isValid
  {
    hide ParseTurn, SpanFrom;
    TurnSpan(p, gs, data);
    match ParseTurn(p, gs, data) {
      case Stop(o) =>
        assert data[0..] == data;
      case Go(q, gs', n) =>
        ExecSpan(q, gs', data[n..]);
        var o := Exec(q, gs', data[n..]);
        assert data[n..][o.used..] == data[n + o.used..];
    }
  }

  // ---- Feeding a stream in pieces ----

  /** The sizes of the packets completed, and where the parser is left. */
  datatype Parsed = Parsed(p: Parser, gs: Gs, packets: seq<nat>, used: nat)

  /** Calls until no more packets come out. The unit makes no call while a SIGNAL is stalled. */
  function Run(p: Parser, gs: Gs, data: seq<byte>): (r: Parsed)
    requires p.Ok()
    ensures r.p.Ok() && r.used <= |data|
    decreases |data|
  {
    if gs.queued then Parsed(p, gs, [], 0)
    else
      var o := Exec(p, gs, data);
      if o.ending == Done then
        var rest := Run(Completed(o.p), o.gs, data[o.used..]);
        Parsed(rest.p, rest.gs, [o.p.size] + rest.packets, o.used + rest.used)
      else Parsed(o.p, o.gs, [], o.used)
  }

  /** The parser after its packet has been handed over. */
  function Completed(p: Parser): Parser {
    p.(state := Idle, size := 0)
  }

  /** Feeds the pieces one at a time, each behind what the last call left over. */
  function RunPieces(p: Parser, gs: Gs, left: seq<byte>, pieces: seq<seq<byte>>): (r: Parsed)
    requires p.Ok()
    decreases pieces
  {
    if pieces == [] then Parsed(p, gs, [], 0)
    else
      var r := Run(p, gs, left + pieces[0]);
      var rest := RunPieces(r.p, r.gs, (left + pieces[0])[r.used..], pieces[1..]);
      Parsed(rest.p, rest.gs, r.packets + rest.packets, r.used + rest.used)
  }

  function Join(pieces: seq<seq<byte>>): seq<byte> {
    if pieces == [] then [] else pieces[0] + Join(pieces[1..])
  }

  lemma {:induction false} RunExtends(p: Parser, gs: Gs, x: seq<byte>, y: seq<byte>)
    requires p.Ok()
    ensures Run(p, gs, x + y) == Resume(Run(p, gs, x), x, y)
    decreases |x|
  {
    hide Exec, Run, Resume, Prepend, Completed;
    ExecExtends(p, gs, x, y);
    var o := Exec(p, gs, x);
    if gs.queued || o.ending == Stalled {
      if !gs.queued { ExecSignals(p, gs, x); }
      RunStuck(p, gs, x, y);
    } else {
      ExecSignals(p, gs, x);
      if o.ending == Done {
        assert (x + y)[o.used..] == x[o.used..] + y;
        RunUnfolds(p, gs, x);
        RunUnfolds(p, gs, x + y);
        RunExtends(Completed(o.p), o.gs, x[o.used..], y);
        PrependResume(o, Run(Completed(o.p), o.gs, x[o.used..]), x, y);
      } else {
        RunStarved(p, gs, x, y);
      }
    }
  }

  /** A run that stops on a stalled SIGNAL does not look at what follows. */
  lemma RunStuck(p: Parser, gs: Gs, x: seq<byte>, y: seq<byte>)
    requires p.Ok() && (gs.queued || (Exec(p, gs, x).ending == Stalled && Exec(p, gs, x).gs.queued))
    requires Exec(p, gs, x).ending == Stalled ==> Exec(p, gs, x + y) == Exec(p, gs, x)
    ensures Run(p, gs, x + y) == Resume(Run(p, gs, x), x, y)
  {
    hide Exec;
  }

  /** Feeding y after `r` came of feeding x. */
  function Resume(r: Parsed, x: seq<byte>, y: seq<byte>): Parsed
    requires r.p.Ok() && r.used <= |x|
  {
    var s := Run(r.p, r.gs, x[r.used..] + y);
    Parsed(s.p, s.gs, r.packets + s.packets, r.used + s.used)
  }

  /** A completed packet in front of what a run brings. */
  function Prepend(o: Outcome, r: Parsed): Parsed {
    Parsed(r.p, r.gs, [o.p.size] + r.packets, o.used + r.used)
  }

  lemma RunUnfolds(p: Parser, gs: Gs, x: seq<byte>)
    requires p.Ok() && !gs.queued && Exec(p, gs, x).ending == Done
    ensures var o := Exec(p, gs, x);
            Completed(o.p).Ok() && Run(p, gs, x) == Prepend(o, Run(Completed(o.p), o.gs, x[o.used..]))
  {
    hide Exec;
  }

  lemma PrependResume(o: Outcome, r: Parsed, x: seq<byte>, y: seq<byte>)
    requires r.p.Ok() && o.used + r.used <= |x|
    ensures Prepend(o, Resume(r, x[o.used..], y)) == Resume(Prepend(o, r), x, y)
  {
    hide Run;
    assert x[o.used..][r.used..] == x[o.used + r.used..];
    var a, b: seq<nat>, c := [o.p.size], r.packets, Run(r.p, r.gs, x[o.used + r.used..] + y).packets;
    assert a + (b + c) == (a + b) + c;
  }

  lemma RunStarved(p: Parser, gs: Gs, x: seq<byte>, y: seq<byte>)
    requires p.Ok() && !gs.queued && Exec(p, gs, x).ending == Starved && !Exec(p, gs, x).gs.queued
    requires Exec(p, gs, x + y) == After(Exec(p, gs, x).used,
      Exec(Exec(p, gs, x).p, Exec(p, gs, x).gs, x[Exec(p, gs, x).used..] + y))
    ensures Run(p, gs, x + y) == Resume(Run(p, gs, x), x, y)
  {
    hide Exec;
    var o := Exec(p, gs, x);
    var s := Exec(o.p, o.gs, x[o.used..] + y);
    assert (x + y)[o.used + s.used..] == (x[o.used..] + y)[s.used..];
  }

  function SumOf(sizes: seq<nat>): nat {
    if sizes == [] then 0 else sizes[0] + SumOf(sizes[1..])
  }

  /** The packets completed and the one being built make up all the bytes used, and what the packet being
      built had before. */
  lemma {:induction false} RunSizes(p: Parser, gs: Gs, data: seq<byte>)
    requires p.Ok()
    ensures var r := Run(p, gs, data); SumOf(r.packets) + r.p.size == p.size + r.used
    decreases |data|
  {
    hide Exec;
    if !gs.queued && Exec(p, gs, data).ending == Done {
      var o := Exec(p, gs, data);
      RunSizes(Completed(o.p), o.gs, data[o.used..]);
      var rest := Run(Completed(o.p), o.gs, data[o.used..]);
      assert ([o.p.size] + rest.packets)[1..] == rest.packets;
    }
  }

  /** Chunk independence: however a stream is cut up, the same packets come out and the parser
      and the GS registers end in the same state as when it is fed whole. */
  lemma {:induction false} PiecesDoNotMatter(p: Parser, gs: Gs, left: seq<byte>, pieces: seq<seq<byte>>)
    requires p.Ok() && pieces != []
    ensures RunPieces(p, gs, left, pieces) == Run(p, gs, left + Join(pieces))
    decreases pieces
  {
    hide Run;
    var x, rest := left + pieces[0], pieces[1..];
    var r := Run(p, gs, x);
    RunExtends(p, gs, x, Join(rest));
    assert x + Join(rest) == left + Join(pieces);
    if rest == [] {
      assert x + Join(rest) == x;
    } else {
      PiecesDoNotMatter(r.p, r.gs, x[r.used..], rest);
    }
  }
}
