/**
 Draining uploads before shutdown: a flag, a count of uploads in progress, and calls that look at the
 flag, count themselves, look again, and uncount themselves, all interleaved.
 */
module Drains {

  /** Where one call of Begin, and the upload it admits, has got to. */
  datatype Phase =
    | Probed
    | Counted
    | Undoing
    | Active
    | Ending
    | Ended
    | Refused

  datatype Drain = Drain(draining: bool, counter: int, uploads: map<nat, Phase>)

  datatype DrainStep =
    | Probe(u: nat)
    | Add(u: nat)
    | Recheck(u: nat)
    | Undo(u: nat)
    | CallDone(u: nat)
    | Release(u: nat)
    | Start

  predicate At(s: Drain, u: nat, phase: Phase) { u in s.uploads && s.uploads[u] == phase }

  predicate DrainEnabled(s: Drain, step: DrainStep) {
    match step
    case Probe(u) => u !in s.uploads
    case Add(u) => At(s, u, Probed)
    case Recheck(u) => At(s, u, Counted)
    case Undo(u) => At(s, u, Undoing)
    case CallDone(u) => At(s, u, Active) || At(s, u, Ending) || At(s, u, Ended)
    case Release(u) => At(s, u, Ending)
    case Start => true
  }

  function Move(s: Drain, u: nat, phase: Phase, change: int): Drain {
    s.(uploads := s.uploads[u := phase], counter := s.counter + change)
  }

  /** Only the first call of done gets past its swap; the later ones do nothing. */
  function DrainNext(s: Drain, step: DrainStep): Drain
    requires DrainEnabled(s, step)
  {
    match step
    case Probe(u) => Move(s, u, if s.draining then Refused else Probed, 0)
    case Add(u) => Move(s, u, Counted, 1)
    case Recheck(u) => Move(s, u, if s.draining then Undoing else Active, 0)
    case Undo(u) => Move(s, u, Refused, -1)
    case CallDone(u) => if s.uploads[u] == Active then Move(s, u, Ending, 0) else s
    case Release(u) => Move(s, u, Ended, -1)
    case Start => s.(draining := true)
  }

  predicate InGroup(phase: Phase) { phase in {Counted, Undoing, Active, Ending} }

  predicate Admitted(phase: Phase) { phase in {Active, Ending, Ended} }

  ghost function Group(uploads: map<nat, Phase>): set<nat> {
    set u | u in uploads && InGroup(uploads[u])
  }

  ghost function EverAdmitted(uploads: map<nat, Phase>): set<nat> {
    set u | u in uploads && Admitted(uploads[u])
  }

  lemma StepKeepsCount(s: Drain, step: DrainStep)
    requires DrainEnabled(s, step) && s.counter == |Group(s.uploads)|
    ensures var s1 := DrainNext(s, step); s1.counter == |Group(s1.uploads)|
  {
    var s1 := DrainNext(s, step);
    if !step.Start? {
      if step.u in Group(s.uploads) && step.u !in Group(s1.uploads) {
        assert Group(s.uploads) == Group(s1.uploads) + {step.u};
      } else if step.u !in Group(s.uploads) && step.u in Group(s1.uploads) {
        assert Group(s1.uploads) == Group(s.uploads) + {step.u};
      } else {
        assert Group(s.uploads) == Group(s1.uploads);
      }
    }
  }

  ghost predicate DrainRun(states: seq<Drain>, steps: seq<DrainStep>) {
    && |states| == |steps| + 1
    && states[0] == Drain(false, 0, map[])
    && forall i :: 0 <= i < |steps| ==>
         DrainEnabled(states[i], steps[i]) && states[i + 1] == DrainNext(states[i], steps[i])
  }

  /**
   The counter is the number of calls that have counted themselves and not yet uncounted themselves; it never
   goes negative.
   */
  lemma {:induction false} CounterExact(states: seq<Drain>, steps: seq<DrainStep>, i: nat)
    requires DrainRun(states, steps) && i < |states|
    ensures states[i].counter == |Group(states[i].uploads)|
    decreases i
  {
    if i == 0 {
      assert Group(states[0].uploads) == {};
    } else {
      CounterExact(states, steps, i - 1);
      assert DrainEnabled(states[i - 1], steps[i - 1]);
      StepKeepsCount(states[i - 1], steps[i - 1]);
    }
  }

  /** Draining, and nothing admitted is still going on. */
  ghost predicate Drained(s: Drain) {
    s.draining && forall u :: u in s.uploads ==> s.uploads[u] != Active && s.uploads[u] != Ending
  }

  /**
   From any moment at which the flag is set and the counter is zero, no admitted upload is in progress,
   and none is ever admitted again.
   */
  lemma {:induction false} DrainedForGood(states: seq<Drain>, steps: seq<DrainStep>, i: nat, j: nat)
    requires DrainRun(states, steps) && i <= j < |states|
    requires states[i].draining && states[i].counter == 0
    ensures Drained(states[j]) && EverAdmitted(states[j].uploads) == EverAdmitted(states[i].uploads)
    decreases j
  {
    if j == i {
      CounterExact(states, steps, i);
      assert Group(states[i].uploads) == {};
      forall u | u in states[i].uploads ensures states[i].uploads[u] != Active && states[i].uploads[u] != Ending {
        assert u !in Group(states[i].uploads);
      }
    } else {
      DrainedForGood(states, steps, i, j - 1);
      assert DrainEnabled(states[j - 1], steps[j - 1]);
      var s, s1 := states[j - 1], states[j];
      forall u ensures u in EverAdmitted(s1.uploads) <==> u in EverAdmitted(s.uploads) {
      }
    }
  }

  /** A call not admitted when draining began is never admitted, however it interleaves with the flag. */
  lemma {:induction false} LateProbesAreUndone(states: seq<Drain>, steps: seq<DrainStep>, i: nat, j: nat, u: nat)
    requires DrainRun(states, steps) && i <= j < |states|
    requires states[i].draining && (u !in states[i].uploads || !Admitted(states[i].uploads[u]))
    ensures states[j].draining && (u in states[j].uploads ==> !Admitted(states[j].uploads[u]))
    decreases j
  {
    if j > i {
      LateProbesAreUndone(states, steps, i, j - 1, u);
      assert DrainEnabled(states[j - 1], steps[j - 1]);
    }
  }

  /** Two more steps of its own bring such a call, and the counter, back. */
  lemma LateProbeReturns(s: Drain, u: nat)
    requires s.draining && At(s, u, Counted)
    ensures DrainEnabled(s, Recheck(u)) && DrainEnabled(DrainNext(s, Recheck(u)), Undo(u))
    ensures var s1 := DrainNext(DrainNext(s, Recheck(u)), Undo(u));
            && At(s1, u, Refused) && s1.counter == s.counter - 1
            && forall v :: v != u && v in s.uploads ==> At(s1, v, s.uploads[v])
  {
    assert At(DrainNext(s, Recheck(u)), u, Undoing);
  }

  // ---------------------------------------------------------------- a server that is not draining admits

  /** The flag is set by Start alone, and stays. */
  lemma {:induction false} DrainingSince(states: seq<Drain>, steps: seq<DrainStep>, j: nat)
    requires DrainRun(states, steps) && j < |states|
    ensures states[j].draining <==> exists i :: 0 <= i < j && steps[i] == Start
    decreases j
  {
    if j > 0 {
      DrainingSince(states, steps, j - 1);
      assert DrainEnabled(states[j - 1], steps[j - 1]);
    }
  }

  /** Only draining turns a call away: before it begins no call is undone or refused. */
  lemma {:induction false} RefusedOnlyWhenDraining(states: seq<Drain>, steps: seq<DrainStep>, j: nat, u: nat)
    requires DrainRun(states, steps) && j < |states|
    requires At(states[j], u, Undoing) || At(states[j], u, Refused)
    ensures states[j].draining && exists i :: 0 <= i < j && steps[i] == Start
    decreases j
  {
    assert DrainEnabled(states[j - 1], steps[j - 1]);
    if At(states[j - 1], u, Undoing) || At(states[j - 1], u, Refused) {
      RefusedOnlyWhenDraining(states, steps, j - 1, u);
    } else {
      DrainingSince(states, steps, j);
    }
  }

  /** A call that has counted itself is admitted by its second look exactly when draining has not begun by then. */
  lemma BeginAdmitsIff(states: seq<Drain>, steps: seq<DrainStep>, c: nat, u: nat)
    requires DrainRun(states, steps) && c < |steps| && steps[c] == Recheck(u)
    ensures At(states[c + 1], u, Active) <==> forall i :: 0 <= i < c ==> steps[i] != Start
    ensures At(states[c + 1], u, Undoing) <==> exists i :: 0 <= i < c && steps[i] == Start
  {
    DrainingSince(states, steps, c);
    assert DrainEnabled(states[c], steps[c]) && states[c + 1] == DrainNext(states[c], steps[c]);
  }

  /** Until draining begins a call can always take its next step towards admission, and gets there. */
  lemma BeginGoesThrough(s: Drain, u: nat)
    requires !s.draining && u !in s.uploads
    ensures DrainEnabled(s, Probe(u)) && DrainEnabled(DrainNext(s, Probe(u)), Add(u))
    ensures DrainEnabled(DrainNext(DrainNext(s, Probe(u)), Add(u)), Recheck(u))
    ensures DrainNext(DrainNext(DrainNext(s, Probe(u)), Add(u)), Recheck(u)) ==
            s.(counter := s.counter + 1, uploads := s.uploads[u := Active])
  {
    var s1 := DrainNext(s, Probe(u));
    var s2 := DrainNext(s1, Add(u));
    assert s2.uploads[u := Active] == s.uploads[u := Active];
  }

  /** An admitted upload that ends lowers the counter by one, however often its done is called. */
  lemma DoneCountsOnce(s: Drain, u: nat)
    requires At(s, u, Active)
    ensures DrainEnabled(s, CallDone(u)) && DrainEnabled(DrainNext(s, CallDone(u)), Release(u))
    ensures var ending := DrainNext(s, CallDone(u));
            var ended := DrainNext(ending, Release(u));
            && ending.counter == s.counter && DrainNext(ending, CallDone(u)) == ending
            && ended == s.(counter := s.counter - 1, uploads := s.uploads[u := Ended])
            && DrainNext(ended, CallDone(u)) == ended && !DrainEnabled(ended, Release(u))
  {
    var ended := DrainNext(DrainNext(s, CallDone(u)), Release(u));
    assert ended.uploads == s.uploads[u := Ended];
  }
}
