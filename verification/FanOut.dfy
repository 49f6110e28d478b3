/** The fan-out of runBootStage: n workers sending their outcome on a channel
    of capacity n, and one collector storing each at its own index. */
module FanOut {
  import opened Wrappers
  import opened Counting
  import opened Outcomes

  /** `received` is what the collector has received, in order. */
  datatype State = State(
    running: set<nat>, chan: seq<VmOutcome>, received: seq<VmOutcome>, outcomes: seq<Option<VmOutcome>>)

  /** A worker finishes and sends, or the collector receives. */
  datatype Step = Finish(i: nat) | Collect

  /** Worker `i` returns `results[i]`, which carries its index. */
  predicate Indexed(results: seq<VmOutcome>) {
    forall i :: 0 <= i < |results| ==> results[i].index == i
  }

  /** A send blocks while the channel is full, a receive while it is empty. */
  predicate CanStep(results: seq<VmOutcome>, s: State, l: Step) {
    match l
    case Finish(i) => i in s.running && i < |results| && |s.chan| < |results|
    case Collect => s.chan != [] && |s.received| < |results| && s.chan[0].index < |s.outcomes|
  }

  function After(results: seq<VmOutcome>, s: State, l: Step): State
    requires CanStep(results, s, l)
  {
    match l
    case Finish(i) => s.(running := s.running - {i}, chan := s.chan + [results[i]])
    case Collect =>
      var o := s.chan[0];
      s.(chan := s.chan[1..], received := s.received + [o], outcomes := s.outcomes[o.index := Some(o)])
  }

  function UpTo(n: nat): (s: set<nat>)
    ensures |s| == n && forall i :: i in s <==> 0 <= i < n
  {
    if n == 0 then {} else UpTo(n - 1) + {n - 1}
  }

  function Init(n: nat): State {
    State(UpTo(n), [], [], seq(n, _ => None))
  }

  function Exec(results: seq<VmOutcome>, s: State, steps: seq<Step>): Option<State>
    decreases |steps|
  {
    if steps == [] then Some(s)
    else if CanStep(results, s, steps[0]) then Exec(results, After(results, s, steps[0]), steps[1..])
    else None
  }

  // ----- the invariant -----

  predicate InChannel(s: State, i: nat) {
    exists k | 0 <= k < |s.chan| :: s.chan[k].index == i
  }

  predicate Stored(s: State, i: nat) {
    i < |s.outcomes| && s.outcomes[i].Some?
  }

  /** Outcomes of different workers, each its worker's own. */
  predicate Distinct(os: seq<VmOutcome>, results: seq<VmOutcome>) {
    && (forall k :: 0 <= k < |os| ==> os[k].index < |results| && os[k] == results[os[k].index])
    && (forall j, k :: 0 <= j < k < |os| ==> os[j].index != os[k].index)
  }

  /** Running, in the channel and stored partition the indices, every value is
      its worker's own, and the three groups add up to n. */
  ghost predicate Inv(results: seq<VmOutcome>, s: State) {
    && Indexed(results) && |s.outcomes| == |results|
    && (forall i :: i in s.running ==> i < |results|)
    && Distinct(s.chan, results) && Distinct(s.received, results)
    && (forall k :: 0 <= k < |s.received| ==> Stored(s, s.received[k].index))
    && (forall i :: 0 <= i < |results| && s.outcomes[i].Some? ==> s.outcomes[i].value == results[i])
    && (forall i :: 0 <= i < |results| ==> i in s.running || InChannel(s, i) || Stored(s, i))
    && (forall i :: i in s.running ==> !InChannel(s, i) && !Stored(s, i))
    && (forall i :: 0 <= i < |results| && InChannel(s, i) ==> !Stored(s, i))
    && |s.running| + |s.chan| + |s.received| == |results|
  }

  lemma {:induction false} InitInv(results: seq<VmOutcome>)
    requires Indexed(results)
    ensures Inv(results, Init(|results|))
  {
  }

  lemma {:induction false} FinishChannel(results: seq<VmOutcome>, s: State, i: nat)
    requires CanStep(results, s, Finish(i)) && results[i].index == i
    ensures forall j :: InChannel(After(results, s, Finish(i)), j) <==> InChannel(s, j) || j == i
  {
    var t := After(results, s, Finish(i));
    forall j
      ensures InChannel(t, j) <==> InChannel(s, j) || j == i
    {
      if k :| 0 <= k < |s.chan| && s.chan[k].index == j {
        assert t.chan[k].index == j;
      }
      assert t.chan[|s.chan|].index == i;
    }
  }

  lemma {:induction false} DistinctSnoc(os: seq<VmOutcome>, o: VmOutcome, results: seq<VmOutcome>)
    requires Distinct(os, results) && o.index < |results| && o == results[o.index]
    requires forall k :: 0 <= k < |os| ==> os[k].index != o.index
    ensures Distinct(os + [o], results)
  {
  }

  lemma {:induction false} FinishKeepsInv(results: seq<VmOutcome>, s: State, i: nat)
    requires Inv(results, s) && CanStep(results, s, Finish(i))
    ensures Inv(results, After(results, s, Finish(i)))
  {
    FinishChannel(results, s, i);
    assert forall k :: 0 <= k < |s.chan| ==> InChannel(s, s.chan[k].index);
    DistinctSnoc(s.chan, results[i], results);
    hide InChannel, Distinct;
  }

  lemma {:induction false} CollectChannel(results: seq<VmOutcome>, s: State)
    requires CanStep(results, s, Collect) && Distinct(s.chan, results)
    ensures InChannel(s, s.chan[0].index)
    ensures var t := After(results, s, Collect);
      forall j :: InChannel(t, j) <==> InChannel(s, j) && j != s.chan[0].index
  {
    var t, o := After(results, s, Collect), s.chan[0];
    forall j
      ensures InChannel(t, j) <==> InChannel(s, j) && j != o.index
    {
      if k :| 0 <= k < |t.chan| && t.chan[k].index == j {
        assert s.chan[k + 1].index == j;
      }
      if k :| 0 <= k < |s.chan| && s.chan[k].index == j && k > 0 {
        assert t.chan[k - 1].index == j;
      }
    }
  }

  lemma {:induction false} CollectKeepsInv(results: seq<VmOutcome>, s: State)
    requires Inv(results, s) && CanStep(results, s, Collect)
    ensures Inv(results, After(results, s, Collect))
  {
    var t, o := After(results, s, Collect), s.chan[0];
    CollectChannel(results, s);
    DistinctSnoc(s.received, o, results);
    assert Distinct(t.chan, results);
    hide InChannel, Distinct;
    assert forall j :: 0 <= j < |results| ==> (Stored(t, j) <==> Stored(s, j) || j == o.index);
  }

  lemma {:induction false} ExecKeepsInv(results: seq<VmOutcome>, s: State, steps: seq<Step>)
    requires Inv(results, s) && Exec(results, s, steps).Some?
    ensures Inv(results, Exec(results, s, steps).value)
    decreases |steps|
  {
    hide Inv, CanStep, After;
    if steps != [] {
      match steps[0] {
        case Finish(i) => FinishKeepsInv(results, s, i);
        case Collect => CollectKeepsInv(results, s);
      }
      ExecKeepsInv(results, After(results, s, steps[0]), steps[1..]);
    }
  }

  // ----- no blocking, termination, and the result -----

  /** Sending never blocks: the channel has room whenever a worker runs. */
  lemma {:induction false} SendNeverBlocks(results: seq<VmOutcome>, s: State, i: nat)
    requires Inv(results, s) && i in s.running
    ensures CanStep(results, s, Finish(i))
  {
    assert {i} <= s.running;
    assert |s.running - {i}| == |s.running| - 1;
  }

  function Work(s: State): nat {
    2 * |s.running| + |s.chan|
  }

  lemma {:induction false} ScheduleLength(results: seq<VmOutcome>, s: State, steps: seq<Step>)
    requires Exec(results, s, steps).Some?
    ensures |steps| + Work(Exec(results, s, steps).value) == Work(s)
    decreases |steps|
  {
    if steps != [] {
      ScheduleLength(results, After(results, s, steps[0]), steps[1..]);
    }
  }

  ghost predicate Halted(results: seq<VmOutcome>, s: State) {
    forall l :: !CanStep(results, s, l)
  }

  /** What running the workers one after another would store. */
  function InOrder(results: seq<VmOutcome>): seq<Option<VmOutcome>> {
    seq(|results|, k requires 0 <= k < |results| => Some(results[k]))
  }

  /** The outcomes in the order they arrived: each worker's, once. */
  predicate Arrival(arrived: seq<VmOutcome>, results: seq<VmOutcome>) {
    |arrived| == |results| && Distinct(arrived, results)
  }

  /** Every schedule takes at most 2n steps, and one that cannot continue has
      received every worker's outcome once and stored them as a sequential run
      would. */
  lemma {:induction false} ScheduleIndependent(results: seq<VmOutcome>, steps: seq<Step>)
    requires Indexed(results) && Exec(results, Init(|results|), steps).Some?
    ensures |steps| <= 2 * |results|
    ensures var t := Exec(results, Init(|results|), steps).value;
      && (Halted(results, t) <==> |t.received| == |results|)
      && (Halted(results, t) ==> t == State({}, [], t.received, InOrder(results)) && Arrival(t.received, results))
  {
    InitInv(results);
    ExecKeepsInv(results, Init(|results|), steps);
    ScheduleLength(results, Init(|results|), steps);
    var t := Exec(results, Init(|results|), steps).value;
    hide Exec;
    if t.running != {} {
      var i :| i in t.running;
      SendNeverBlocks(results, t, i);
    } else if t.chan != [] {
      assert CanStep(results, t, Collect);
    } else {
      forall i | 0 <= i < |results|
        ensures t.outcomes[i] == Some(results[i])
      {
        assert !InChannel(t, i);
      }
      assert t.outcomes == InOrder(results);
    }
  }

  lemma {:induction false} ExecSnoc(results: seq<VmOutcome>, s: State, steps: seq<Step>, l: Step)
    requires Exec(results, s, steps).Some? && CanStep(results, Exec(results, s, steps).value, l)
    ensures Exec(results, s, steps + [l]) == Some(After(results, Exec(results, s, steps).value, l))
    decreases |steps|
  {
    if steps == [] {
      assert Exec(results, After(results, s, l), [l][1..]) == Some(After(results, s, l));
    } else {
      assert (steps + [l])[1..] == steps[1..] + [l];
      ExecSnoc(results, After(results, s, steps[0]), steps[1..], l);
    }
  }

  /** Letting the workers finish one after another in a given order. */
  lemma {:induction false} FinishInOrder(results: seq<VmOutcome>, arrived: seq<VmOutcome>, k: nat)
    returns (steps: seq<Step>)
    requires Indexed(results) && Arrival(arrived, results) && k <= |arrived|
    ensures Exec(results, Init(|results|), steps).Some?
    ensures var t := Exec(results, Init(|results|), steps).value;
      && t.chan == [] && t.received == arrived[..k] && |t.outcomes| == |results|
      && forall j :: k <= j < |arrived| ==> arrived[j].index in t.running
    decreases k
  {
    if k == 0 {
      steps := [];
    } else {
      var before := FinishInOrder(results, arrived, k - 1);
      var s, i := Exec(results, Init(|results|), before).value, arrived[k - 1].index;
      ExecSnoc(results, Init(|results|), before, Finish(i));
      ExecSnoc(results, Init(|results|), before + [Finish(i)], Collect);
      hide Exec, Init;
      steps := before + [Finish(i)] + [Collect];
      assert arrived[..k] == arrived[..k - 1] + [arrived[k - 1]];
    }
  }

  /** The schedule runs as far as it can and receives these outcomes. */
  ghost predicate Receives(results: seq<VmOutcome>, steps: seq<Step>, arrived: seq<VmOutcome>) {
    var t := Exec(results, Init(|results|), steps);
    t.Some? && Halted(results, t.value) && t.value.received == arrived
  }

  /** The orders in which outcomes can arrive are exactly the arrangements of
      the workers' outcomes. */
  lemma {:induction false} ArrivalIff(results: seq<VmOutcome>, arrived: seq<VmOutcome>)
    requires Indexed(results)
    ensures Arrival(arrived, results) <==> exists steps :: Receives(results, steps, arrived)
  {
    hide Exec, Init, Halted;
    if steps :| Receives(results, steps, arrived) {
      ScheduleIndependent(results, steps);
    }
    if Arrival(arrived, results) {
      var steps := FinishInOrder(results, arrived, |arrived|);
      ScheduleIndependent(results, steps);
      assert arrived[..|arrived|] == arrived;
      assert Receives(results, steps, arrived);
    }
  }

  // ----- the collector's loop -----

  lemma {:induction false} EveryIndexArrives(arrived: seq<VmOutcome>, results: seq<VmOutcome>, i: nat)
    requires Arrival(arrived, results) && i < |results|
    ensures exists k :: 0 <= k < |arrived| && arrived[k].index == i
  {
    var indices := seq(|arrived|, k requires 0 <= k < |arrived| => arrived[k].index);
    if i !in indices {
      DistinctBelow(indices + [i], |results|);
    }
    assert i in indices;
  }

  /** Whatever the order of arrival, the array ends up in worker order. */
  method CollectOutcomes(arrived: seq<VmOutcome>, ghost results: seq<VmOutcome>, outcomes: array<VmOutcome>)
    requires Arrival(arrived, results) && outcomes.Length == |results|
    modifies outcomes
    ensures outcomes[..] == results
  {
    for i := 0 to |arrived|
      invariant forall k :: 0 <= k < i ==> outcomes[arrived[k].index] == arrived[k]
    {
      var o := arrived[i];
      outcomes[o.index] := o;
    }
    forall i | 0 <= i < |results|
      ensures outcomes[i] == results[i]
    {
      EveryIndexArrives(arrived, results, i);
    }
  }
}
