/**
 The ring buffer of a pipe (lib/pipe.c), with the reader and the writer interleaved at every access
 to the shared page.
 */
module PipeRing {

  const PIPEBUFSIZ: nat := 32

  /** The reader: reads p_rpos, then p_wpos, then takes the byte, then increments p_rpos. */
  datatype Reader = R0 | R1(rpos: nat) | R2 | R3(v: nat)

  /** The writer: reads p_wpos, then p_rpos, then stores the byte, then increments p_wpos. */
  datatype Writer = W0 | W1(wpos: nat) | W2 | W3

  /** The shared page, the two programs, and what they have written and read so far. */
  datatype Pipe = Pipe(rpos: nat, wpos: nat, buf: seq<nat>, r: Reader, w: Writer, sent: seq<nat>, got: seq<nat>)

  datatype Action = ReaderStep | WriterStep(b: nat)

  function Step(s: Pipe, a: Action): Pipe
    requires |s.buf| == PIPEBUFSIZ
  {
    match a
    case ReaderStep => (
      match s.r
      case R0 => s.(r := R1(s.rpos))
      case R1(rpos) => if rpos == s.wpos then s.(r := R0) else s.(r := R2)
      case R2 => s.(r := R3(s.buf[s.rpos % PIPEBUFSIZ]))
      case R3(v) => s.(r := R0, rpos := s.rpos + 1, got := s.got + [v]))
    case WriterStep(b) => (
      match s.w
      case W0 => s.(w := W1(s.wpos))
      case W1(wpos) => if wpos >= s.rpos + PIPEBUFSIZ then s.(w := W0) else s.(w := W2)
      case W2 => s.(w := W3, buf := s.buf[s.wpos % PIPEBUFSIZ := b], sent := s.sent + [b])
      case W3 => s.(w := W0, wpos := s.wpos + 1))
  }

  ghost predicate Inv(s: Pipe) {
    && |s.buf| == PIPEBUFSIZ
    && s.rpos <= s.wpos <= s.rpos + PIPEBUFSIZ
    && |s.sent| == s.wpos + (if s.w.W3? then 1 else 0)
    && |s.got| == s.rpos && s.got == s.sent[..s.rpos]
    && (forall i :: s.rpos <= i < |s.sent| ==> s.buf[i % PIPEBUFSIZ] == s.sent[i])
    && (s.r.R1? ==> s.r.rpos == s.rpos)
    && (s.r.R2? || s.r.R3? ==> s.rpos < s.wpos)
    && (s.r.R3? ==> s.r.v == s.sent[s.rpos])
    && (s.w.W1? ==> s.w.wpos == s.wpos)
    && (s.w.W2? || s.w.W3? ==> s.wpos < s.rpos + PIPEBUFSIZ)
  }

  /** Positions less than one buffer apart occupy different places. */
  lemma Apart(i: nat, j: nat)
    requires i < j < i + PIPEBUFSIZ
    ensures i % PIPEBUFSIZ != j % PIPEBUFSIZ
  {
  }

  lemma StepInv(s: Pipe, a: Action)
    requires Inv(s)
    ensures Inv(Step(s, a))
  {
    var s' := Step(s, a);
    if a.WriterStep? && s.w.W2? {
      forall i | s'.rpos <= i < |s'.sent| ensures s'.buf[i % PIPEBUFSIZ] == s'.sent[i] {
        if i < s.wpos { Apart(i, s.wpos); }
      }
    } else if a.ReaderStep? && s.r.R3? {
      assert s.sent[..s.rpos + 1] == s.sent[..s.rpos] + [s.sent[s.rpos]];
    }
  }

  /** An empty pipe, as pipe() leaves it. */
  predicate Init(s: Pipe) {
    s.rpos == s.wpos == 0 && |s.buf| == PIPEBUFSIZ && s.r.R0? && s.w.W0? && s.sent == s.got == []
  }

  ghost predicate IsRun(states: seq<Pipe>, run: seq<Action>) {
    && |states| == |run| + 1 && Init(states[0])
    && forall i :: 0 <= i < |run| ==> |states[i].buf| == PIPEBUFSIZ && states[i + 1] == Step(states[i], run[i])
  }

  /** In every state of every interleaving the positions stay within one buffer, and the bytes read are
      a prefix of the bytes written: none lost, none twice, none out of order. */
  lemma {:induction false} RunIsFifo(states: seq<Pipe>, run: seq<Action>, k: nat)
    requires IsRun(states, run) && k < |states|
    ensures Inv(states[k])
    ensures states[k].rpos <= states[k].wpos <= states[k].rpos + PIPEBUFSIZ
    ensures states[k].got <= states[k].sent && |states[k].sent| <= |states[k].got| + PIPEBUFSIZ
  {
    if k > 0 {
      RunIsFifo(states, run, k - 1);
      StepInv(states[k - 1], run[k - 1]);
    }
  }

  // ----- Neither side gets stuck

  /** How far the writer and the reader are in handling one byte. */
  function WriterAt(s: Pipe): nat { match s.w case W0 => 0 case W1(_) => 1 case W2 => 2 case W3 => 3 }
  function ReaderAt(s: Pipe): nat { match s.r case R0 => 0 case R1(_) => 1 case R2 => 2 case R3(_) => 3 }

  function Writes(run: seq<Action>): nat { if run == [] then 0 else Writes(run[..|run| - 1]) + if run[|run| - 1].WriterStep? then 1 else 0 }
  function Reads(run: seq<Action>): nat { if run == [] then 0 else Reads(run[..|run| - 1]) + if run[|run| - 1].ReaderStep? then 1 else 0 }

  /** After k steps of a writer that had room at state i, whatever the reader has done meanwhile. */
  predicate Writing(s: Pipe, s': Pipe, k: nat) {
    && WriterAt(s') == (if k == 4 then 0 else k)
    && s'.wpos == s.wpos + (if k == 4 then 1 else 0) && s'.rpos >= s.rpos
    && |s'.sent| == |s.sent| + (if k >= 3 then 1 else 0) && s.sent <= s'.sent
  }

  lemma WritingStep(s: Pipe, t: Pipe, a: Action, k: nat)
    requires Inv(s) && Inv(t) && s.w.W0? && s.wpos < s.rpos + PIPEBUFSIZ
    requires Writing(s, t, k) && k <= (if a.WriterStep? then 3 else 4)
    ensures Writing(s, Step(t, a), if a.WriterStep? then k + 1 else k)
  {
  }

  lemma {:induction false} WritesOn(states: seq<Pipe>, run: seq<Action>, i: nat, j: nat)
    requires IsRun(states, run) && i <= j < |states| && states[i].w.W0? && states[i].wpos < states[i].rpos + PIPEBUFSIZ
    requires Writes(run[i..j]) <= 4
    ensures Writing(states[i], states[j], Writes(run[i..j]))
    decreases j - i
  {
    RunIsFifo(states, run, i);
    if i == j {
      assert run[i..j] == [];
    } else {
      assert run[i..j][..j - 1 - i] == run[i..j - 1];
      WritesOn(states, run, i, j - 1);
      RunIsFifo(states, run, j - 1);
      WritingStep(states[i], states[j - 1], run[j - 1], Writes(run[i..j - 1]));
    }
  }

  /** A writer that finds room has stored its byte and moved on after four steps of its own. */
  lemma WriterDelivers(states: seq<Pipe>, run: seq<Action>, i: nat, j: nat)
    requires IsRun(states, run) && i <= j < |states| && states[i].w.W0? && states[i].wpos < states[i].rpos + PIPEBUFSIZ
    requires Writes(run[i..j]) == 4
    ensures states[j].w.W0? && states[j].wpos == states[i].wpos + 1
    ensures |states[j].sent| == |states[i].sent| + 1 && states[i].sent <= states[j].sent
  {
    WritesOn(states, run, i, j);
  }

  predicate Reading(s: Pipe, s': Pipe, k: nat) {
    && ReaderAt(s') == (if k == 4 then 0 else k)
    && s'.rpos == s.rpos + (if k == 4 then 1 else 0) && s'.wpos >= s.wpos
    && s.sent <= s'.sent && s.rpos < |s.sent|
    && (k == 3 ==> s'.r == R3(s.sent[s.rpos]))
    && s'.got == (if k == 4 then s.got + [s.sent[s.rpos]] else s.got)
  }

  lemma ReadingStep(s: Pipe, t: Pipe, a: Action, k: nat)
    requires Inv(s) && Inv(t) && s.r.R0? && s.rpos < s.wpos
    requires Reading(s, t, k) && k <= (if a.ReaderStep? then 3 else 4)
    ensures Reading(s, Step(t, a), if a.ReaderStep? then k + 1 else k)
  {
  }

  lemma {:induction false} ReadsOn(states: seq<Pipe>, run: seq<Action>, i: nat, j: nat)
    requires IsRun(states, run) && i <= j < |states| && states[i].r.R0? && states[i].rpos < states[i].wpos
    requires Reads(run[i..j]) <= 4
    ensures Reading(states[i], states[j], Reads(run[i..j]))
    decreases j - i
  {
    RunIsFifo(states, run, i);
    if i == j {
      assert run[i..j] == [];
    } else {
      assert run[i..j][..j - 1 - i] == run[i..j - 1];
      ReadsOn(states, run, i, j - 1);
      RunIsFifo(states, run, j - 1);
      ReadingStep(states[i], states[j - 1], run[j - 1], Reads(run[i..j - 1]));
    }
  }

  /** A reader of a pipe that is not empty has taken the next byte after four steps of its own. */
  lemma ReaderTakes(states: seq<Pipe>, run: seq<Action>, i: nat, j: nat)
    requires IsRun(states, run) && i <= j < |states| && states[i].r.R0? && states[i].rpos < states[i].wpos
    requires Reads(run[i..j]) == 4
    ensures states[i].rpos < |states[i].sent| && states[j].r.R0? && states[j].got == states[i].got + [states[i].sent[states[i].rpos]]
  {
    ReadsOn(states, run, i, j);
  }
}
