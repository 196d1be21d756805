/** LABEL writes handed from the VU thread to the EE thread through one atomic word that coalesces
    them, one atomic step at a time. */
module LabelMerge {
  import opened GsSignals

  const NO_LABEL := MaskedWrite({}, {})

  /** The writer's progress. In Trying it is about to compare-exchange `existing` for `wanted`. */
  datatype Writer =
    | Idle
    | Trying(write: MaskedWrite, existing: MaskedWrite, wanted: MaskedWrite)
    | Stored

  /** The reader's progress: it clears the interrupt flag, then takes the word. */
  datatype Reader = Waiting | FlagCleared

  /** `writes` is history: the writes whose compare-exchange has succeeded. */
  datatype State = State(
    writer: Writer, reader: Reader, word: MaskedWrite, flag: bool, lblId: Bits, writes: seq<MaskedWrite>)

  /** What the writer stores to add w to an existing word. */
  function Merged(existing: MaskedWrite, w: MaskedWrite): MaskedWrite {
    MaskedWrite((existing.data - w.mask) + (w.data * w.mask), existing.mask + w.mask)
  }

  ghost predicate Init(s: State, lblId: Bits) {
    s == State(Idle, Waiting, NO_LABEL, false, lblId, [])
  }

  datatype Step = Begin(w: MaskedWrite) | CasSucceeds | CasFails | SetFlag | ClearFlag | Take

  /** A compare-exchange may also fail although the word is as expected; failing, it reads the word. */
  ghost predicate Next(s: State, step: Step, s': State) {
    match step
    case Begin(w) => s.writer.Idle? && s' == s.(writer := Trying(w, NO_LABEL, w))
    case CasSucceeds =>
      && s.writer.Trying? && s.word == s.writer.existing
      && s' == s.(writer := Stored, word := s.writer.wanted, writes := s.writes + [s.writer.write])
    case CasFails =>
      && s.writer.Trying?
      && s' == s.(writer := Trying(s.writer.write, s.word, Merged(s.word, s.writer.write)))
    case SetFlag => s.writer.Stored? && s' == s.(writer := Idle, flag := true)
    case ClearFlag => s.reader.Waiting? && s.flag && s' == s.(reader := FlagCleared, flag := false)
    case Take =>
      s.reader.FlagCleared? && s' == s.(reader := Waiting, word := NO_LABEL, lblId := Apply(s.lblId, s.word))
  }

  ghost predicate Inv(s: State, lblId: Bits) {
    && Apply(s.lblId, s.word) == Fold(lblId, s.writes)
    && (s.writer.Trying? ==>
          forall v :: Apply(v, s.writer.wanted) == Apply(Apply(v, s.writer.existing), s.writer.write))
    && (s.word != NO_LABEL ==> s.flag || s.writer.Stored? || s.reader.FlagCleared?)
  }

  lemma MergedApplies(v: Bits, e: MaskedWrite, w: MaskedWrite)
    ensures Apply(v, Merged(e, w)) == Apply(Apply(v, e), w)
  {
  }

  lemma StepKeepsInv(s: State, step: Step, s': State, lblId: Bits)
    requires Inv(s, lblId) && Next(s, step, s')
    ensures Inv(s', lblId)
  {
    match step {
      case Begin(w) =>
        forall v ensures Apply(v, w) == Apply(Apply(v, NO_LABEL), w) {
          assert Apply(v, NO_LABEL) == v;
        }
      case CasSucceeds =>
        FoldAppend(lblId, s.writes, s.writer.write);
        assert Apply(s.lblId, s.writer.wanted) == Apply(Apply(s.lblId, s.writer.existing), s.writer.write);
      case CasFails =>
        forall v ensures Apply(v, s'.writer.wanted) == Apply(Apply(v, s.word), s.writer.write) {
          MergedApplies(v, s.word, s.writer.write);
        }
      case Take =>
        assert Apply(s'.lblId, NO_LABEL) == s'.lblId;
      case _ =>
    }
  }

  /** States linked by steps. */
  ghost predicate Trace(states: seq<State>, steps: seq<Step>) {
    && |states| == |steps| + 1
    && forall i | 0 <= i < |steps| :: Next(states[i], steps[i], states[i + 1])
  }

  lemma {:induction false} TraceKeepsInv(states: seq<State>, steps: seq<Step>, lblId: Bits, k: nat)
    requires Trace(states, steps) && Init(states[0], lblId) && k <= |steps|
    ensures Inv(states[k], lblId)
  {
    if k == 0 {
      assert Apply(lblId, NO_LABEL) == lblId;
    } else {
      TraceKeepsInv(states, steps, lblId, k - 1);
      StepKeepsInv(states[k - 1], steps[k - 1], states[k], lblId);
    }
  }

  /** However writer and reader interleave, and however often a compare-exchange fails, whenever
      both are at rest and no interrupt is pending, LBLID is what the single-threaded handler would
      have made of the same writes in order: none lost, none twice. */
  lemma NoLabelLost(states: seq<State>, steps: seq<Step>, gs: Gs)
    requires Trace(states, steps) && Init(states[0], gs.lblId)
    ensures var s := states[|steps|];
            s.writer.Idle? && s.reader.Waiting? && !s.flag ==> s.lblId == Handled(gs, s.writes).lblId
  {
    TraceKeepsInv(states, steps, gs.lblId, |steps|);
    var s := states[|steps|];
    HandledIsFold(gs, s.writes);
    assert Apply(s.lblId, NO_LABEL) == s.lblId;
  }

  /** The single-threaded handler, over a list of LABEL writes. */
  function Handled(gs: Gs, ws: seq<MaskedWrite>): Gs {
    if ws == [] then gs else HandleWrite(Handled(gs, ws[..|ws| - 1]), A_D_LABEL, ws[|ws| - 1]).0
  }

  lemma {:induction false} HandledIsFold(gs: Gs, ws: seq<MaskedWrite>)
    ensures Handled(gs, ws).lblId == Fold(gs.lblId, ws)
  {
    if ws != [] { HandledIsFold(gs, ws[..|ws| - 1]); }
  }
}
