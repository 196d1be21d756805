/** Whole runs of the GIF unit and its FIFO: transfers, the GS thread reading, interrupts, mode changes and
    CSR writes in any order. */
module GifRuns {
  import opened Basics
  import opened GsSignals
  import opened GifParser
  import opened GifPaths
  import opened GifUnits
  import opened GifFifos

  datatype Op =
    | Transfer(kind: TransferType, data: seq<byte>)
    | FillFifo(data: seq<byte>)
    | DrainFifo
    | Interrupt
    | GsThreadReads(path: nat)
    | SetMode(imt: bool, m3r: bool, m3p: bool, pse: bool, dir: bool, dmaRunning: bool)
    | SetSignalMask(masked: bool)
    | WriteCsr(reset: bool, signal: bool, finish: bool)
    | Resume

  method SetSignalMaskOf(unit: GifUnit, masked: bool)
    requires unit.Valid()
    modifies unit`gs
    ensures unit.Valid() && unit.gs == old(unit.gs).(sigMasked := masked)
  {
    hide GifPath.Resting;
    unit.gs := unit.gs.(sigMasked := masked);
  }

  method SetModeOf(unit: GifUnit, op: Op)
    requires unit.Valid() && op.SetMode?
    modifies unit`imt, unit`m3r, unit`m3p, unit`pse, unit`dir, unit`dmaRunning
    ensures unit.Valid()
    ensures op == SetMode(unit.imt, unit.m3r, unit.m3p, unit.pse, unit.dir, unit.dmaRunning)
  {
    hide GifPath.Resting, Gs.NoSignalLost;
    unit.imt, unit.m3r, unit.m3p := op.imt, op.m3r, op.m3p;
    unit.pse, unit.dir, unit.dmaRunning := op.pse, op.dir, op.dmaRunning;
  }

  method Read(unit: GifUnit, i: nat)
    requires unit.Valid() && unit.Path(i).ring != []
    modifies unit.Path(i)
    ensures unit.Valid() && unit.Path(i).sent == old(unit.Path(i).sent)
    ensures unit.Path(i).ring == old(unit.Path(i).ring[1..])
  {
    hide Gs.NoSignalLost;
    hide GifPath.Valid;
    unit.Path(i).ConsumeOne();
  }

  /** What an operation feeds to path i, if its transfer takes `amount` bytes. */
  function Piece(op: Op, amount: int, i: nat): seq<byte> {
    if amount > 0 && op.Transfer? && op.kind.PathOf() == i then
      (if op.kind == Dma && amount <= |op.data| then op.data[..amount] else op.data)
    else []
  }

  function Fed(ops: seq<Op>, amounts: seq<int>, i: nat): seq<byte>
    requires |ops| == |amounts|
  {
    if ops == [] then []
    else
      var n := |ops| - 1;
      Fed(ops[..n], amounts[..n], i) + Piece(ops[n], amounts[n], i)
  }

  /** Path 3's stream and the FIFO in front of it, as a plain queue. */
  datatype Queue = Queue(sent: seq<byte>, fifo: seq<byte>)

  /** An operation on it: transfers go straight in; the FIFO takes and gives `amount` bytes. */
  function QueueAfter(q: Queue, op: Op, amount: int): Queue {
    match op
    case Transfer(kind, data) => q.(sent := q.sent + Piece(op, amount, 3))
    case FillFifo(data) => if 0 <= amount <= |data| then q.(fifo := q.fifo + data[..amount]) else q
    case DrainFifo => if 0 <= amount <= |q.fifo| then Queue(q.sent + q.fifo[..amount], q.fifo[amount..]) else q
    case _ => q
  }

  function Queued(q: Queue, ops: seq<Op>, amounts: seq<int>): Queue
    requires |ops| == |amounts|
  {
    if ops == [] then q
    else
      var n := |ops| - 1;
      QueueAfter(Queued(q, ops[..n], amounts[..n]), ops[n], amounts[n])
  }

  /** The bytes an operation has for path 3. */
  function Offered(q: Queue, op: Op): seq<byte> {
    match op
    case Transfer(kind, data) => if kind.PathOf() == 3 then data else []
    case DrainFifo => q.fifo
    case _ => []
  }

  /** An operation under any mask: `move` is by how much path 3's stream grows, out of what it has and what
      it is offered; a negative one takes bytes back off its end. */
  function Moved(q: Queue, op: Op, amount: int, move: int): Queue {
    var all := q.sent + Offered(q, op);
    Queue(if 0 <= |q.sent| + move <= |all| then all[..|q.sent| + move] else q.sent,
          match op
          case FillFifo(data) => if 0 <= amount <= |data| then q.fifo + data[..amount] else q.fifo
          case DrainFifo => if move <= |q.fifo| then GifFifo.LeftOver(q.fifo, move) else q.fifo
          case _ => q.fifo)
  }

  function Tracked(q: Queue, ops: seq<Op>, amounts: seq<int>, moves: seq<int>): Queue
    requires |ops| == |amounts| == |moves|
  {
    if ops == [] then q
    else
      var n := |ops| - 1;
      Moved(Tracked(q, ops[..n], amounts[..n], moves[..n]), ops[n], amounts[n], moves[n])
  }

  /** Path 3 holds no packet that is, by its headers, complete. */
  ghost predicate NothingWaits(fifo: GifFifo)
    reads fifo.unit.path3, fifo.unit.path3.buffer
  {
    SpanFrom(fifo.unit.path3.tag, fifo.unit.path3.Unparsed()) == None
  }

  /** An operation that does not mask path 3. */
  predicate Unmasked(op: Op) {
    op.SetMode? ==> !op.m3r && !op.m3p
  }

  ghost function Path3Of(fifo: GifFifo): Queue
    reads fifo, fifo.data, fifo.unit.path3
  {
    Queue(fifo.unit.path3.sent, fifo.Contents())
  }

  method Fill(fifo: GifFifo, data: seq<byte>) returns (amount: int)
    requires fifo.Valid() && fifo.unit.Valid()
    modifies fifo`fifoSize, fifo.data
    ensures fifo.Valid() && fifo.unit.Valid()
    ensures Path3Of(fifo) == QueueAfter(old(Path3Of(fifo)), FillFifo(data), amount)
  {
    hide GifUnit.Valid;
    var n := fifo.WriteFifo(data, |data| / 16);
    amount := 16 * n;
  }

  method Drain(fifo: GifFifo) returns (amount: int, ghost move: int)
    requires fifo.Valid() && fifo.unit.Valid()
    modifies fifo, fifo.data, fifo.unit, fifo.unit.path1, fifo.unit.path1.buffer, fifo.unit.path2,
             fifo.unit.path2.buffer, fifo.unit.path3, fifo.unit.path3.buffer
    ensures fifo.Valid() && fifo.unit.Valid()
    ensures fifo.unit.path1.sent == old(fifo.unit.path1.sent) && fifo.unit.path2.sent == old(fifo.unit.path2.sent)
    ensures fifo.unit.Masked() == old(fifo.unit.Masked())
    ensures !fifo.unit.Masked() ==> Path3Of(fifo) == QueueAfter(old(Path3Of(fifo)), DrainFifo, amount)
    ensures Path3Of(fifo) == Moved(old(Path3Of(fifo)), DrainFifo, amount, move)
    ensures old(NothingWaits(fifo)) ==> move >= 0
  {
    hide GifUnit.Valid, SpanFrom, GifFifo.LeftOver, QueueAfter;
    ghost var q := Path3Of(fifo);
    amount, move := 0, 0;
    NothingMoves(q);
    TakenWhole(q, 0);
    if fifo.unit.path3.curSize - fifo.unit.path3.packOffset + 16 * fifo.fifoSize <= fifo.unit.path3.buffer.Length {
      var n;
      ghost var taken;
      n, taken := fifo.ReadFifo();
      amount, move := 16 * n, taken;
      TakenWhole(q, taken);
      if !fifo.unit.Masked() {
        WholeQuadwords(taken);
      }
    }
  }

  lemma NothingMoves(q: Queue)
    ensures Moved(q, DrainFifo, 0, 0) == q
  {
    assert (q.sent + q.fifo)[..|q.sent|] == q.sent;
  }

  lemma WholeQuadwords(taken: int)
    ensures 0 <= taken <= 256 && taken % 16 == 0 ==> 16 * (taken % WRAP / 16) == taken
  {
  }

  /** Taking some whole quadwords off the FIFO. */
  lemma TakenWhole(q: Queue, taken: int)
    ensures 0 <= taken <= |q.fifo| <= 256 && taken % 16 == 0 ==>
      && QueueAfter(q, DrainFifo, taken)
         == Queue((q.sent + q.fifo)[..|q.sent| + taken], GifFifo.LeftOver(q.fifo, taken))
    ensures QueueAfter(q, DrainFifo, 0) == q
  {
    if 0 <= taken <= |q.fifo| {
      assert (q.sent + q.fifo)[..|q.sent| + taken] == q.sent + q.fifo[..taken];
    }
  }

  /** A transfer, which is not made if the path's buffer cannot hold it. */
  method Send(fifo: GifFifo, kind: TransferType, data: seq<byte>) returns (amount: int, ghost move: int)
    requires fifo.Valid() && fifo.unit.Valid()
    modifies fifo.unit, fifo.unit.path1, fifo.unit.path1.buffer, fifo.unit.path2,
             fifo.unit.path2.buffer, fifo.unit.path3, fifo.unit.path3.buffer
    ensures fifo.Valid() && fifo.unit.Valid() && fifo.Contents() == old(fifo.Contents())
    ensures fifo.unit.Masked() == old(fifo.unit.Masked())
    ensures fifo.unit.path1.sent == old(fifo.unit.path1.sent) + Piece(Transfer(kind, data), amount, 1)
    ensures fifo.unit.path2.sent == old(fifo.unit.path2.sent) + Piece(Transfer(kind, data), amount, 2)
    ensures !fifo.unit.Masked() ==> Path3Of(fifo) == QueueAfter(old(Path3Of(fifo)), Transfer(kind, data), amount)
    ensures Path3Of(fifo) == Moved(old(Path3Of(fifo)), Transfer(kind, data), amount, move)
    ensures old(NothingWaits(fifo)) && kind != Fifo ==> move >= 0
  {
    hide GifUnit.Valid, SpanFrom;
    amount, move := 0, 0;
    var path := fifo.unit.Path(kind.PathOf());
    if data != [] && path.curSize - path.packOffset + |data| <= path.buffer.Length {
      if kind == Dma {
        amount, move := SendDma(fifo, data);
      } else {
        amount, move := SendOther(fifo, kind, data);
      }
    } else {
      NothingSent(Path3Of(fifo), Transfer(kind, data));
    }
  }

  lemma NothingSent(q: Queue, op: Op)
    requires op.Transfer?
    ensures Moved(q, op, 0, 0) == q && QueueAfter(q, op, 0) == q && Piece(op, 0, 1) == Piece(op, 0, 2) == []
  {
    assert (q.sent + Offered(q, op))[..|q.sent|] == q.sent && q.sent + [] == q.sent;
  }

  method SendDma(fifo: GifFifo, data: seq<byte>) returns (amount: int, ghost move: int)
    requires fifo.Valid() && fifo.unit.Valid() && data != []
    requires fifo.unit.path3.curSize - fifo.unit.path3.packOffset + |data| <= fifo.unit.path3.buffer.Length
    modifies fifo.unit, fifo.unit.path1, fifo.unit.path1.buffer, fifo.unit.path2,
             fifo.unit.path2.buffer, fifo.unit.path3, fifo.unit.path3.buffer
    ensures fifo.Valid() && fifo.unit.Valid() && fifo.Contents() == old(fifo.Contents())
    ensures fifo.unit.Masked() == old(fifo.unit.Masked())
    ensures fifo.unit.path1.sent == old(fifo.unit.path1.sent) + Piece(Transfer(Dma, data), amount, 1)
    ensures fifo.unit.path2.sent == old(fifo.unit.path2.sent) + Piece(Transfer(Dma, data), amount, 2)
    ensures !fifo.unit.Masked() ==> Path3Of(fifo) == QueueAfter(old(Path3Of(fifo)), Transfer(Dma, data), amount)
    ensures Path3Of(fifo) == Moved(old(Path3Of(fifo)), Transfer(Dma, data), amount, move)
    ensures old(NothingWaits(fifo)) ==> move >= 0
  {
    hide GifUnit.Valid, GifUnit.Path3Track, Follows, SpanFrom, GifUnit.CallWith, GifUnit.Path3Waits, GifUnit.Path3Turn;
    ghost var sent := fifo.unit.path3.sent;
    assert (sent + data)[..|sent|] == sent && sent + [] == sent && (sent + data)[..|sent| + |data|] == sent + data;
    amount := fifo.unit.TransferGSPacketData(Dma, data);
    move := amount;
  }

  method SendOther(fifo: GifFifo, kind: TransferType, data: seq<byte>) returns (amount: int, ghost move: int)
    requires fifo.Valid() && fifo.unit.Valid() && data != [] && kind != Dma
    requires var path := fifo.unit.Path(kind.PathOf()); path.curSize - path.packOffset + |data| <= path.buffer.Length
    modifies fifo.unit, fifo.unit.path1, fifo.unit.path1.buffer, fifo.unit.path2,
             fifo.unit.path2.buffer, fifo.unit.path3, fifo.unit.path3.buffer
    ensures fifo.Valid() && fifo.unit.Valid() && fifo.Contents() == old(fifo.Contents())
    ensures fifo.unit.Masked() == old(fifo.unit.Masked())
    ensures fifo.unit.path1.sent == old(fifo.unit.path1.sent) + Piece(Transfer(kind, data), amount, 1)
    ensures fifo.unit.path2.sent == old(fifo.unit.path2.sent) + Piece(Transfer(kind, data), amount, 2)
    ensures !fifo.unit.Masked() ==> Path3Of(fifo) == QueueAfter(old(Path3Of(fifo)), Transfer(kind, data), amount)
    ensures Path3Of(fifo) == Moved(old(Path3Of(fifo)), Transfer(kind, data), amount, move)
    ensures old(NothingWaits(fifo)) && kind != Fifo ==> move >= 0
  {
    hide GifUnit.Valid, GifUnit.Path3Track, Follows, SpanFrom, GifUnit.CallWith, GifUnit.Path3Waits, GifUnit.Path3Turn;
    var unit := fifo.unit;
    ghost var t, u, sent := unit.path3.tag, unit.path3.Unparsed(), unit.path3.sent;
    assert u + [] == u && sent + [] == sent;
    ghost var runs := unit.Accepts(kind) && unit.CanDoGif();
    amount := unit.TransferGSPacketData(kind, data);
    if runs {
      unit.TrackPrefix(t, u + GifUnit.For3(kind, data), sent + GifUnit.For3(kind, data));
    }
    move := |unit.path3.sent| - |sent|;
  }

  /** The operations that only let the unit go on. */
  method GoOn(fifo: GifFifo, op: Op)
    requires fifo.Valid() && fifo.unit.Valid() && (op.Interrupt? || op.WriteCsr? || op.Resume?)
    modifies fifo.unit, fifo.unit.path1, fifo.unit.path1.buffer, fifo.unit.path2,
             fifo.unit.path2.buffer, fifo.unit.path3, fifo.unit.path3.buffer
    ensures fifo.Valid() && fifo.unit.Valid() && fifo.Contents() == old(fifo.Contents())
    ensures fifo.unit.Masked() == old(fifo.unit.Masked())
    ensures fifo.unit.path1.sent == old(fifo.unit.path1.sent) && fifo.unit.path2.sent == old(fifo.unit.path2.sent)
    ensures !fifo.unit.Masked() ==> fifo.unit.path3.sent == old(fifo.unit.path3.sent)
    ensures fifo.unit.path3.sent <= old(fifo.unit.path3.sent)
    ensures old(NothingWaits(fifo)) ==> fifo.unit.path3.sent == old(fifo.unit.path3.sent)
  {
    hide GifUnit.Valid, GifUnit.Path3Track, Follows, SignalAck, FinishAck, SpanFrom, GifUnit.Settled, GifUnit.Path3Call;
    var unit := fifo.unit;
    ghost var t, u, sent := unit.path3.tag, unit.path3.Unparsed(), unit.path3.sent;
    if op.Interrupt? {
      unit.InterruptCheck();
    } else if op.WriteCsr? {
      ghost var resumed := unit.CsrWrite(op.reset, op.signal, op.finish);
    } else {
      var rewound := unit.Execute(false);
    }
    if unit.path3.sent != sent {
      unit.TrackPrefix(t, u, sent);
    }
  }

  /** One operation. */
  method Step(fifo: GifFifo, op: Op) returns (amount: int, ghost move: int)
    requires fifo.Valid() && fifo.unit.Valid()
    modifies fifo, fifo.data, fifo.unit, fifo.unit.path1, fifo.unit.path1.buffer, fifo.unit.path2,
             fifo.unit.path2.buffer, fifo.unit.path3, fifo.unit.path3.buffer
    ensures fifo.Valid() && fifo.unit.Valid()
    ensures fifo.unit.path1.sent == old(fifo.unit.path1.sent) + Piece(op, amount, 1)
    ensures fifo.unit.path2.sent == old(fifo.unit.path2.sent) + Piece(op, amount, 2)
    ensures !old(fifo.unit.Masked()) && Unmasked(op) ==>
      !fifo.unit.Masked() && Path3Of(fifo) == QueueAfter(old(Path3Of(fifo)), op, amount)
    ensures Path3Of(fifo) == Moved(old(Path3Of(fifo)), op, amount, move)
    // without a complete packet in path 3, and no data poked into it, nothing is taken back
    ensures old(NothingWaits(fifo)) && !(op.Transfer? && op.kind == Fifo) ==> move >= 0
  {
    hide GifUnit.Valid, SpanFrom, GifFifo.LeftOver;
    amount, move := 0, 0;
    var unit := fifo.unit;
    ghost var sent := unit.path3.sent;
    assert sent + [] == sent && sent[..|sent|] == sent;
    match op {
      case Transfer(kind, data) => amount, move := Send(fifo, kind, data);
      case FillFifo(_) => amount := Fill(fifo, op.data);
      case DrainFifo => amount, move := Drain(fifo);
      case GsThreadReads(i) =>
        if unit.Path(i).ring != [] { Read(unit, i); }
      case SetMode(_, _, _, _, _, _) =>
        SetModeOf(unit, op);
      case SetSignalMask(masked) =>
        SetSignalMaskOf(unit, masked);
      case _ =>
        GoOn(fifo, op);
        move := |unit.path3.sent| - |sent|;
    }
  }

  /** Every run keeps every path's stream whole (that is Valid) and loses no SIGNAL. What went into paths 1
      and 2 is exactly the data of the transfers that were taken, in order. Path 3 with its FIFO is the plain
      queue if it is never masked; under masks it is the queue that the moves make, in which data only comes
      in at the end and is only taken back off the end. */
  method Run(fifo: GifFifo, ops: seq<Op>) returns (amounts: seq<int>, ghost moves: seq<int>)
    requires fifo.Valid() && fifo.unit.Valid()
    modifies fifo, fifo.data, fifo.unit, fifo.unit.path1, fifo.unit.path1.buffer, fifo.unit.path2,
             fifo.unit.path2.buffer, fifo.unit.path3, fifo.unit.path3.buffer
    ensures fifo.Valid() && fifo.unit.Valid() && |amounts| == |moves| == |ops|
    ensures !fifo.unit.gs.queued ==> fifo.unit.gs.sigId == Fold({}, fifo.unit.gs.signals)
    ensures fifo.unit.gs.queued ==>
      fifo.unit.gs.csrSignal && Apply(fifo.unit.gs.sigId, fifo.unit.gs.queue) == Fold({}, fifo.unit.gs.signals)
    ensures fifo.unit.path1.sent == old(fifo.unit.path1.sent) + Fed(ops, amounts, 1)
    ensures fifo.unit.path2.sent == old(fifo.unit.path2.sent) + Fed(ops, amounts, 2)
    ensures !old(fifo.unit.Masked()) && (forall i | 0 <= i < |ops| :: Unmasked(ops[i])) ==>
      Path3Of(fifo) == Queued(old(Path3Of(fifo)), ops, amounts)
    ensures Path3Of(fifo) == Tracked(old(Path3Of(fifo)), ops, amounts, moves)
    ensures (forall i | 0 <= i < |ops| :: PlainMove(ops[i], amounts[i], moves[i])) ==>
      Path3Of(fifo) == Queued(old(Path3Of(fifo)), ops, amounts)
  {
    hide GifUnit.Valid, GifFifo.Valid, Piece, Unmasked, QueueAfter, Moved, Fold, Apply, PlainMove, SpanFrom;
    amounts, moves := [], [];
    ghost var unit, q := fifo.unit, Path3Of(fifo);
    ghost var open := !unit.Masked() && forall i | 0 <= i < |ops| :: Unmasked(ops[i]);
    for i := 0 to |ops|
      invariant fifo.Valid() && unit.Valid() && |amounts| == |moves| == i
      invariant unit.path1.sent == old(unit.path1.sent) + Fed(ops[..i], amounts, 1)
      invariant unit.path2.sent == old(unit.path2.sent) + Fed(ops[..i], amounts, 2)
      invariant open ==> !unit.Masked() && Path3Of(fifo) == Queued(q, ops[..i], amounts)
      invariant Path3Of(fifo) == Tracked(q, ops[..i], amounts, moves)
    {
      var n;
      ghost var m;
      n, m := Step(fifo, ops[i]);
      FedAppend(ops, amounts, i, n, 1);
      FedAppend(ops, amounts, i, n, 2);
      QueuedAppend(q, ops, amounts, i, n);
      TrackedAppend(q, ops, amounts, moves, i, n, m);
      amounts, moves := amounts + [n], moves + [m];
    }
    assert ops[..|ops|] == ops;
    SignalsKept(unit);
    if forall i | 0 <= i < |ops| :: PlainMove(ops[i], amounts[i], moves[i]) {
      PlainTracked(q, ops, amounts, moves);
    }
  }

  /** The whole offer was taken, or what the DMA is told; nothing was taken back. */
  predicate PlainMove(op: Op, amount: int, move: int) {
    match op
    case Transfer(kind, data) =>
      if kind == Dma then 0 <= move == amount <= |data|
      else if kind == Fifo then (if amount > 0 then move == |data| else move == 0)
      else move == 0
    case DrainFifo => 0 <= move == amount && move % 16 == 0 && move <= 256
    case _ => move == 0
  }

  lemma {:induction false} PlainTracked(q: Queue, ops: seq<Op>, amounts: seq<int>, moves: seq<int>)
    requires |ops| == |amounts| == |moves| && forall i | 0 <= i < |ops| :: PlainMove(ops[i], amounts[i], moves[i])
    ensures Tracked(q, ops, amounts, moves) == Queued(q, ops, amounts)
  {
    hide Moved, QueueAfter, PlainMove;
    if ops != [] {
      var n := |ops| - 1;
      PlainTracked(q, ops[..n], amounts[..n], moves[..n]);
      PlainIsQueue(Queued(q, ops[..n], amounts[..n]), ops[n], amounts[n], moves[n]);
    }
  }

  lemma PlainIsQueue(q: Queue, op: Op, amount: int, move: int)
    requires PlainMove(op, amount, move)
    ensures Moved(q, op, amount, move) == QueueAfter(q, op, amount)
  {
    var offered := Offered(q, op);
    assert q.sent + [] == q.sent && q.sent[..|q.sent|] == q.sent;
    assert (q.sent + offered)[..|q.sent|] == q.sent && (q.sent + offered)[..|q.sent + offered|] == q.sent + offered;
    if 0 <= move <= |offered| {
      assert (q.sent + offered)[..|q.sent| + move] == q.sent + offered[..move];
    }
    if op.DrainFifo? { WholeQuadwords(move); }
  }

  lemma TrackedAppend(q: Queue, ops: seq<Op>, amounts: seq<int>, moves: seq<int>, n: nat, amount: int, move: int)
    requires n < |ops| && |amounts| == |moves| == n
    ensures Tracked(q, ops[..n + 1], amounts + [amount], moves + [move])
            == Moved(Tracked(q, ops[..n], amounts, moves), ops[n], amount, move)
  {
    assert ops[..n + 1][..n] == ops[..n] && (amounts + [amount])[..n] == amounts && (moves + [move])[..n] == moves;
  }

  lemma SignalsKept(unit: GifUnit)
    requires unit.Valid()
    ensures Fold({}, unit.gs.signals) == if unit.gs.queued then Apply(unit.gs.sigId, unit.gs.queue) else unit.gs.sigId
    ensures unit.gs.queued ==> unit.gs.csrSignal
  {
    hide GifPath.Resting;
  }

  lemma FedAppend(ops: seq<Op>, amounts: seq<int>, n: nat, amount: int, i: nat)
    requires n < |ops| && |amounts| == n
    ensures Fed(ops[..n + 1], amounts + [amount], i) == Fed(ops[..n], amounts, i) + Piece(ops[n], amount, i)
  {
    assert ops[..n + 1][..n] == ops[..n] && (amounts + [amount])[..n] == amounts;
  }

  lemma QueuedAppend(q: Queue, ops: seq<Op>, amounts: seq<int>, n: nat, amount: int)
    requires n < |ops| && |amounts| == n
    ensures Queued(q, ops[..n + 1], amounts + [amount]) == QueueAfter(Queued(q, ops[..n], amounts), ops[n], amount)
  {
    assert ops[..n + 1][..n] == ops[..n] && (amounts + [amount])[..n] == amounts;
  }
}
