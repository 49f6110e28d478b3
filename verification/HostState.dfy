/** The host resources that concurrent bootOne workers create and remove:
    taps, listeners and files, named per VM in shared tables. */
module HostState {
  import opened Wrappers
  import opened Words
  import opened Numerals
  import opened GuestNet

  /** A tap device: its address, once assigned, and whether it is up. */
  datatype Tap = Tap(addr: Option<string>, up: bool)

  datatype Host = Host(taps: map<string, Tap>, listeners: set<string>, files: set<string>)

  /** The next action of a worker, in the order of the source; the last four
      are its deferred calls. */
  datatype Pc =
    | DelStale | AddTap | AddAddr | LinkUp | Listen | CreateScratch | Truncate | WriteConfig | Start | Running
    | RemoveScratch | StopEcho | DelTap | Done

  /** An action that was taken, and whether it succeeded. */
  datatype Event = Event(pc: Pc, ok: bool)

  /** Where a worker is, whether its echo server was told to stop, and what it
      has done so far. */
  datatype Worker = Worker(pc: Pc, echoStopped: bool, log: seq<Event>)

  const FRESH := Worker(DelStale, false, [])

  /** The resources of one worker. */
  datatype View = View(tap: Option<Tap>, listening: bool, scratch: bool, config: bool)

  // ----- one worker alone -----

  /** An action can always fail; these are the conditions under which it can
      succeed. A VM, once running, just ends. */
  predicate CanSucceed(addr: string, pc: Pc, v: View) {
    match pc
    case AddTap => v.tap.None?
    case AddAddr => v.tap.Some?
    case LinkUp => v.tap.Some?
    case Listen => v.tap.Some? && v.tap.value.addr == Some(addr) && !v.listening
    case RemoveScratch => v.scratch
    case DelStale => v.tap.Some?
    case DelTap => v.tap.Some?
    case Done => false
    case _ => true
  }

  predicate CanFail(pc: Pc) {
    !pc.Running? && !pc.Done? && !pc.StopEcho?
  }

  /** Control flow: which action follows a success or a failure. */
  function NextPc(pc: Pc, ok: bool): Pc {
    match pc
    case DelStale => AddTap
    case AddTap => if ok then AddAddr else Done
    case AddAddr => if ok then LinkUp else Done
    case LinkUp => if ok then Listen else Done
    case Listen => if ok then CreateScratch else StopEcho
    case CreateScratch => if ok then Truncate else StopEcho
    case Truncate => if ok then WriteConfig else StopEcho
    case WriteConfig => if ok then Start else RemoveScratch
    case Start => if ok then Running else RemoveScratch
    case Running => RemoveScratch
    case RemoveScratch => StopEcho
    case StopEcho => DelTap
    case DelTap => Done
    case Done => Done
  }

  function NextWorker(w: Worker, ok: bool): Worker {
    Worker(NextPc(w.pc, ok), w.echoStopped || w.pc == StopEcho, w.log + [Event(w.pc, ok)])
  }

  /** The effect of a successful action on the worker's own resources. */
  function NextView(addr: string, pc: Pc, v: View): View
    requires CanSucceed(addr, pc, v)
  {
    match pc
    case DelStale => v.(tap := None)
    case AddTap => v.(tap := Some(Tap(None, false)))
    case AddAddr => v.(tap := Some(v.tap.value.(addr := Some(addr))))
    case LinkUp => v.(tap := Some(v.tap.value.(up := true)))
    case Listen => v.(listening := true)
    case CreateScratch => v.(scratch := true)
    case WriteConfig => v.(config := true)
    case RemoveScratch => v.(scratch := false)
    case DelTap => v.(tap := None)
    case _ => v
  }

  /** What a worker can do: act with a given outcome, or have its listener
      closed by the goroutine waiting on its context. A signal to the process
      cancels every context. */
  datatype Act = Go(ok: bool) | CloseListener | Cancel

  datatype Local = Local(w: Worker, v: View, cancelled: bool)

  predicate LocalCan(addr: string, s: Local, a: Act) {
    match a
    case Go(true) => CanSucceed(addr, s.w.pc, s.v)
    case Go(false) => CanFail(s.w.pc)
    case CloseListener => s.v.listening && (s.w.echoStopped || s.cancelled)
    case Cancel => true
  }

  function LocalAfter(addr: string, s: Local, a: Act): Local
    requires LocalCan(addr, s, a)
  {
    match a
    case Go(true) => s.(w := NextWorker(s.w, true), v := NextView(addr, s.w.pc, s.v))
    case Go(false) => s.(w := NextWorker(s.w, false))
    case CloseListener => s.(v := s.v.(listening := false))
    case Cancel => s.(cancelled := true)
  }

  function LocalExec(addr: string, s: Local, acts: seq<Act>): Option<Local>
    decreases |acts|
  {
    if acts == [] then Some(s)
    else if LocalCan(addr, s, acts[0]) then LocalExec(addr, LocalAfter(addr, s, acts[0]), acts[1..])
    else None
  }

  /** Actions left until a worker is done. */
  function Remaining(pc: Pc): nat {
    match pc
    case DelStale => 13
    case AddTap => 12
    case AddAddr => 11
    case LinkUp => 10
    case Listen => 9
    case CreateScratch => 8
    case Truncate => 7
    case WriteConfig => 6
    case Start => 5
    case Running => 4
    case RemoveScratch => 3
    case StopEcho => 2
    case DelTap => 1
    case Done => 0
  }

  lemma {:induction false} EveryActionAdvances(pc: Pc, ok: bool)
    requires pc != Done
    ensures Remaining(NextPc(pc, ok)) < Remaining(pc)
  {
  }

  lemma {:induction false} SomeOutcomePossible(addr: string, pc: Pc, v: View)
    ensures pc != Done <==> CanSucceed(addr, pc, v) || CanFail(pc)
  {
  }

  lemma {:induction false} GoAdvances(addr: string, s: Local, ok: bool)
    requires LocalCan(addr, s, Go(ok))
    ensures Remaining(LocalAfter(addr, s, Go(ok)).w.pc) < Remaining(s.w.pc)
  {
    SomeOutcomePossible(addr, s.w.pc, s.v);
    EveryActionAdvances(s.w.pc, ok);
    hide CanSucceed, CanFail, NextPc, NextView, Remaining;
  }

  /** A worker never waits for another and takes at most 13 actions: until it is
      done it can act, and every action brings it closer. */
  lemma {:induction false} WorkersFinish(addr: string, s: Local)
    ensures s.w.pc != Done <==> exists ok :: LocalCan(addr, s, Go(ok))
    ensures forall ok :: LocalCan(addr, s, Go(ok)) ==> Remaining(LocalAfter(addr, s, Go(ok)).w.pc) < Remaining(s.w.pc)
  {
    hide CanSucceed, CanFail, Remaining, LocalAfter;
    SomeOutcomePossible(addr, s.w.pc, s.v);
    assert LocalCan(addr, s, Go(true)) <==> CanSucceed(addr, s.w.pc, s.v);
    assert LocalCan(addr, s, Go(false)) <==> CanFail(s.w.pc);
    forall ok | LocalCan(addr, s, Go(ok))
      ensures Remaining(LocalAfter(addr, s, Go(ok)).w.pc) < Remaining(s.w.pc)
    {
      GoAdvances(addr, s, ok);
    }
  }

  // ----- all workers on one host -----

  function ScratchName(i: nat): string {
    "scratch" + Decimal(i) + ".img"
  }

  function ConfigName(i: nat): string {
    "config" + Decimal(i) + ".json"
  }

  function TapAt(h: Host, i: nat): Option<Tap> {
    if VmTap(i) in h.taps then Some(h.taps[VmTap(i)]) else None
  }

  function ViewOf(base: uint32, h: Host, i: nat): View {
    View(TapAt(h, i), VmHostIP(base, i) in h.listeners, ScratchName(i) in h.files, ConfigName(i) in h.files)
  }

  /** The commands and calls of the source, on the shared tables. */
  function Effect(base: uint32, h: Host, i: nat, pc: Pc): Host
    requires CanSucceed(VmHostIP(base, i), pc, ViewOf(base, h, i))
  {
    var tap := VmTap(i);
    match pc
    case DelStale => h.(taps := h.taps - {tap})
    case AddTap => h.(taps := h.taps[tap := Tap(None, false)])
    case AddAddr => h.(taps := h.taps[tap := h.taps[tap].(addr := Some(VmHostIP(base, i)))])
    case LinkUp => h.(taps := h.taps[tap := h.taps[tap].(up := true)])
    case Listen => h.(listeners := h.listeners + {VmHostIP(base, i)})
    case CreateScratch => h.(files := h.files + {ScratchName(i)})
    case WriteConfig => h.(files := h.files + {ConfigName(i)})
    case RemoveScratch => h.(files := h.files - {ScratchName(i)})
    case DelTap => h.(taps := h.taps - {tap})
    case _ => h
  }

  datatype Global = Global(workers: seq<Worker>, host: Host, cancelled: bool)

  /** One step of the whole run: an act of worker `i`. Cancelling is nobody's
      in particular. */
  datatype Step = Step(i: nat, act: Act)

  predicate GlobalCan(base: uint32, g: Global, l: Step) {
    l.i < |g.workers| &&
    LocalCan(VmHostIP(base, l.i), Local(g.workers[l.i], ViewOf(base, g.host, l.i), g.cancelled), l.act)
  }

  function GlobalAfter(base: uint32, g: Global, l: Step): Global
    requires GlobalCan(base, g, l)
  {
    var w := g.workers[l.i];
    match l.act
    case Go(ok) =>
      g.(workers := g.workers[l.i := NextWorker(w, ok)],
         host := if ok then Effect(base, g.host, l.i, w.pc) else g.host)
    case CloseListener => g.(host := g.host.(listeners := g.host.listeners - {VmHostIP(base, l.i)}))
    case Cancel => g.(cancelled := true)
  }

  function Exec(base: uint32, g: Global, steps: seq<Step>): Option<Global>
    decreases |steps|
  {
    if steps == [] then Some(g)
    else if GlobalCan(base, g, steps[0]) then Exec(base, GlobalAfter(base, g, steps[0]), steps[1..])
    else None
  }

  /** All workers before their first action, on a host in any state. */
  function Init(n: nat, host: Host): Global {
    Global(seq(n, _ => FRESH), host, false)
  }

  // ----- workers do not interfere -----

  lemma {:induction false} FileNumbers(i: nat)
    ensures ScratchName(i)[7..|ScratchName(i)| - 4] == Decimal(i)
    ensures ConfigName(i)[6..|ConfigName(i)| - 5] == Decimal(i)
  {
    hide Decimal;
  }

  lemma {:induction false} NamesDistinct(base: uint32, n: nat, i: nat, j: nat)
    requires Accepted(base, n) && i < n && j < n && i != j
    ensures VmTap(i) != VmTap(j) && VmHostIP(base, i) != VmHostIP(base, j)
    ensures ScratchName(i) != ScratchName(j) && ConfigName(i) != ConfigName(j)
  {
    hide Decimal, VmTap, VmHostIP, ScratchName, ConfigName;
    IdentifiersDistinct(base, n, i, j);
    FileNumbers(i);
    FileNumbers(j);
    if Decimal(i) == Decimal(j) {
      DecimalInjective(i, j);
    }
  }

  lemma {:induction false} FileKindsDistinct(i: nat, j: nat)
    ensures ScratchName(i) != ConfigName(j)
  {
    hide Decimal;
    assert ScratchName(i)[0] == 's' && ConfigName(j)[0] == 'c';
  }

  lemma {:induction false} EffectOnSelf(base: uint32, h: Host, i: nat, pc: Pc)
    requires CanSucceed(VmHostIP(base, i), pc, ViewOf(base, h, i))
    ensures ViewOf(base, Effect(base, h, i, pc), i) == NextView(VmHostIP(base, i), pc, ViewOf(base, h, i))
  {
    FileKindsDistinct(i, i);
    hide VmTap, VmHostIP, ScratchName, ConfigName;
  }

  lemma {:induction false} EffectOnOther(base: uint32, n: nat, h: Host, i: nat, pc: Pc, j: nat)
    requires Accepted(base, n) && i < n && j < n && i != j
    requires CanSucceed(VmHostIP(base, i), pc, ViewOf(base, h, i))
    ensures ViewOf(base, Effect(base, h, i, pc), j) == ViewOf(base, h, j)
  {
    NamesDistinct(base, n, i, j);
    FileKindsDistinct(i, j);
    FileKindsDistinct(j, i);
    hide VmTap, VmHostIP, ScratchName, ConfigName;
  }

  /** A step changes its own worker's resources as the worker alone would, and
      no other worker's. */
  lemma {:induction false} EffectIsLocal(base: uint32, n: nat, h: Host, i: nat, pc: Pc, j: nat)
    requires Accepted(base, n) && i < n && j < n
    requires CanSucceed(VmHostIP(base, i), pc, ViewOf(base, h, i))
    ensures ViewOf(base, Effect(base, h, i, pc), j)
         == if i == j then NextView(VmHostIP(base, i), pc, ViewOf(base, h, i)) else ViewOf(base, h, j)
  {
    hide Effect, ViewOf, NextView;
    if i == j {
      EffectOnSelf(base, h, i, pc);
    } else {
      EffectOnOther(base, n, h, i, pc, j);
    }
  }

  function LocalOf(base: uint32, g: Global, i: nat): Local
    requires i < |g.workers|
  {
    Local(g.workers[i], ViewOf(base, g.host, i), g.cancelled)
  }

  /** The acts that concern worker `i`: its own, and every cancellation. */
  function Project(steps: seq<Step>, i: nat): seq<Act> {
    if steps == [] then []
    else (if steps[0].i == i || steps[0].act.Cancel? then [steps[0].act] else []) + Project(steps[1..], i)
  }

  lemma {:induction false} StepProjects(base: uint32, g: Global, l: Step, i: nat)
    requires Accepted(base, |g.workers|) && i < |g.workers| && GlobalCan(base, g, l)
    ensures |GlobalAfter(base, g, l).workers| == |g.workers|
    ensures if l.i == i || l.act.Cancel? then
              LocalCan(VmHostIP(base, i), LocalOf(base, g, i), l.act) &&
              LocalOf(base, GlobalAfter(base, g, l), i) == LocalAfter(VmHostIP(base, i), LocalOf(base, g, i), l.act)
            else LocalOf(base, GlobalAfter(base, g, l), i) == LocalOf(base, g, i)
  {
    match l.act
    case Go(ok) =>
      if ok {
        EffectIsLocal(base, |g.workers|, g.host, l.i, g.workers[l.i].pc, i);
      }
      hide ViewOf, VmHostIP, Effect, NextView, NextWorker;
    case CloseListener =>
      if l.i != i {
        NamesDistinct(base, |g.workers|, l.i, i);
      }
      hide VmTap, VmHostIP, ScratchName, ConfigName;
    case Cancel =>
  }

  /** In every interleaving, each worker and its resources evolve exactly as if
      it ran alone: no worker ever touches another's tap, listener or files. */
  lemma {:induction false} NonInterference(base: uint32, g: Global, steps: seq<Step>, i: nat)
    requires Accepted(base, |g.workers|) && i < |g.workers| && Exec(base, g, steps).Some?
    ensures |Exec(base, g, steps).value.workers| == |g.workers|
    ensures LocalExec(VmHostIP(base, i), LocalOf(base, g, i), Project(steps, i))
         == Some(LocalOf(base, Exec(base, g, steps).value, i))
    decreases |steps|
  {
    hide VmHostIP, LocalOf, GlobalCan, GlobalAfter, LocalCan, LocalAfter;
    if steps != [] {
      var l, g' := steps[0], GlobalAfter(base, g, steps[0]);
      StepProjects(base, g, l, i);
      NonInterference(base, g', steps[1..], i);
      var rest := Project(steps[1..], i);
      if l.i == i || l.act.Cancel? {
        assert Project(steps, i) == [l.act] + rest;
        assert ([l.act] + rest)[1..] == rest;
      } else {
        assert Project(steps, i) == rest;
      }
    }
  }

  /** Names that belong to no worker are left alone. */
  predicate Foreign(name: string, n: nat) {
    forall i :: 0 <= i < n ==> name != VmTap(i)
  }

  lemma {:induction false} ForeignStep(base: uint32, g: Global, l: Step, name: string)
    requires Foreign(name, |g.workers|) && GlobalCan(base, g, l)
    ensures var h := GlobalAfter(base, g, l).host;
      (name in h.taps <==> name in g.host.taps) && (name in h.taps ==> h.taps[name] == g.host.taps[name])
    ensures |GlobalAfter(base, g, l).workers| == |g.workers|
  {
    assert name != VmTap(l.i);
    hide VmTap, VmHostIP, ViewOf, ScratchName, ConfigName, NextWorker;
  }

  lemma {:induction false} ForeignTapsUntouched(base: uint32, g: Global, steps: seq<Step>, name: string)
    requires Foreign(name, |g.workers|) && Exec(base, g, steps).Some?
    ensures var h := Exec(base, g, steps).value.host;
      (name in h.taps <==> name in g.host.taps) && (name in h.taps ==> h.taps[name] == g.host.taps[name])
    decreases |steps|
  {
    if steps != [] {
      ForeignStep(base, g, steps[0], name);
      hide GlobalCan, GlobalAfter, VmTap;
      ForeignTapsUntouched(base, GlobalAfter(base, g, steps[0]), steps[1..], name);
    }
  }

  // ----- what one worker has done -----

  /** The outcomes of a worker's own acts, in order. */
  function Outcomes(acts: seq<Act>): seq<bool> {
    if acts == [] then []
    else (if acts[0].Go? then [acts[0].ok] else []) + Outcomes(acts[1..])
  }

  function Oks(log: seq<Event>): (os: seq<bool>)
    ensures |os| == |log| && forall k :: 0 <= k < |log| ==> os[k] == log[k].ok
  {
    seq(|log|, k requires 0 <= k < |log| => log[k].ok)
  }

  lemma {:induction false} LogIsOutcomes(addr: string, s: Local, acts: seq<Act>)
    requires LocalExec(addr, s, acts).Some?
    ensures Oks(LocalExec(addr, s, acts).value.w.log) == Oks(s.w.log) + Outcomes(acts)
    decreases |acts|
  {
    if acts != [] {
      var t := LocalAfter(addr, s, acts[0]);
      LogIsOutcomes(addr, t, acts[1..]);
      assert Oks(t.w.log) == Oks(s.w.log) + (if acts[0].Go? then [acts[0].ok] else []);
      hide LocalCan, LocalAfter;
    }
  }

  /** The actions up to the end of the VM's run, in order. */
  const FORWARD: seq<Pc> := [
    DelStale, AddTap, AddAddr, LinkUp, Listen, CreateScratch, Truncate, WriteConfig, Start, Running]

  /** The first `n` actions were taken, and all but the first had to succeed. */
  predicate Forward(log: seq<Event>, n: nat) {
    n <= |log| && n <= |FORWARD| && forall k :: 0 <= k < n ==> log[k].pc == FORWARD[k] && (k > 0 ==> log[k].ok)
  }

  /** The `n`-th action failed, and nothing was done since. */
  predicate FailedAt(log: seq<Event>, n: nat) {
    0 < n <= |FORWARD| && |log| == n && Forward(log, n - 1) && log[n - 1] == Event(FORWARD[n - 1], false)
  }

  /** What the last event was, and what had been done when it was next. */
  predicate Ends(log: seq<Event>, pc: Pc) {
    log != [] && log[|log| - 1].pc == pc
  }

  /** How a worker can have come to its next action: forward until an action
      fails, then back through what was deferred by then. */
  predicate Path(pc: Pc, log: seq<Event>)
    decreases |log|
  {
    match pc
    case RemoveScratch => FailedAt(log, 8) || FailedAt(log, 9) || (|log| == 10 && Forward(log, 10))
    case StopEcho =>
      FailedAt(log, 5) || FailedAt(log, 6) || FailedAt(log, 7)
      || (Ends(log, RemoveScratch) && Path(RemoveScratch, log[..|log| - 1]))
    case DelTap => Ends(log, StopEcho) && log[|log| - 1].ok && Path(StopEcho, log[..|log| - 1])
    case Done =>
      FailedAt(log, 2) || FailedAt(log, 3) || FailedAt(log, 4)
      || (Ends(log, DelTap) && Path(DelTap, log[..|log| - 1]))
    case _ => |log| < |FORWARD| && FORWARD[|log|] == pc && Forward(log, |log|)
  }

  lemma {:induction false} StepKeepsPath(pc: Pc, log: seq<Event>, ok: bool)
    requires Path(pc, log) && pc != Done && (ok || CanFail(pc))
    ensures Path(NextPc(pc, ok), log + [Event(pc, ok)])
  {
    var next := log + [Event(pc, ok)];
    assert next[..|log|] == log;
  }

  /** The first `n` outcomes but the very first one, which is ignored, are
      successes. */
  predicate AllOk(os: seq<bool>, n: nat) {
    n <= |os| && forall k :: 1 <= k < n ==> os[k]
  }

  /** Reading a finished worker's log: once setup is complete the last action is
      the deletion of the tap, and once the scratch file is prepared the one
      before the last two is its removal. */
  predicate Finished(log: seq<Event>) {
    var os, n := Oks(log), |log|;
    && n >= 2 && n != 10
    && (forall k :: 0 <= k < n && k < 4 ==> log[k].pc == FORWARD[k])
    && (AllOk(os, 4) <==> n >= 7)
    && (AllOk(os, 6) <==> n >= 9)
    && (AllOk(os, 7) <==> n >= 11)
    && (AllOk(os, 8) <==> n >= 12)
    && (n < 7 ==> n <= 4 && (os[1] <==> n > 2))
    && (n >= 7 ==> log[n - 1].pc == DelTap && log[n - 2].pc == StopEcho)
    && (n >= 11 ==> log[n - 3].pc == RemoveScratch)
  }

  lemma {:induction false} FailedOutcomes(core: seq<Event>, log: seq<Event>, n: nat)
    requires FailedAt(core, n) && core <= log && n >= 2
    ensures forall k: nat :: AllOk(Oks(log), k) <==> k < n
  {
    assert forall k :: 0 <= k < n ==> log[k] == core[k];
    assert !Oks(log)[n - 1];
    hide FORWARD;
  }

  lemma {:induction false} PathLength(pc: Pc, log: seq<Event>)
    requires Path(pc, log)
    ensures pc == RemoveScratch ==> 8 <= |log| <= 10
    ensures pc == StopEcho ==> |log| in {5, 6, 7, 9, 10, 11} && (|log| >= 9 ==> Ends(log, RemoveScratch))
    ensures pc == DelTap ==> |log| in {6, 7, 8, 10, 11, 12}
    ensures pc == Done ==> |log| in {2, 3, 4, 7, 8, 9, 11, 12, 13}
    ensures pc !in {RemoveScratch, StopEcho, DelTap, Done} ==> |log| == 13 - Remaining(pc)
    decreases |log|
  {
    if pc in {StopEcho, DelTap, Done} && Path(Before(pc), log[..|log| - 1]) {
      PathLength(Before(pc), log[..|log| - 1]);
    }
  }

  /** What was deferred later, and so is called earlier. */
  function Before(pc: Pc): Pc {
    match pc
    case Done => DelTap
    case DelTap => StopEcho
    case _ => RemoveScratch
  }

  lemma {:induction false} DoneIsFinished(log: seq<Event>)
    requires Path(Done, log)
    ensures Finished(log)
  {
    PathLength(Done, log);
    if FailedAt(log, 2) || FailedAt(log, 3) || FailedAt(log, 4) {
      FailedOutcomes(log, log, |log|);
    } else {
      var back := log[..|log| - 1];
      PathLength(DelTap, back);
      var core := back[..|back| - 1];
      PathLength(StopEcho, core);
      assert forall k :: 0 <= k < |core| ==> log[k] == core[k];
      if FailedAt(core, 5) || FailedAt(core, 6) || FailedAt(core, 7) {
        FailedOutcomes(core, log, |core|);
      } else {
        var run := core[..|core| - 1];
        PathLength(RemoveScratch, run);
        if FailedAt(run, 8) || FailedAt(run, 9) {
          FailedOutcomes(run, log, |run|);
        } else {
          assert forall k :: 0 <= k < 10 ==> log[k] == run[k];
          assert forall k: nat :: k <= 10 ==> AllOk(Oks(log), k);
        }
      }
    }
    hide Path;
  }

  // ----- what one worker keeps -----

  predicate HasTap(v: View, addr: string) {
    v.tap == Some(Tap(Some(addr), true))
  }

  /** The listener is open; nothing is being undone yet. */
  predicate Serving(pc: Pc) {
    pc == CreateScratch || pc == Truncate || pc == WriteConfig || pc == Start || pc == Running
  }

  /** `was` is the worker's share of the host before it started. */
  predicate LocalInv(addr: string, was: View, s: Local) {
    && Path(s.w.pc, s.w.log)
    && TapInv(addr, was.tap, s.w, s.v) && ScratchInv(was.scratch, s.w, s.v) && ConfigInv(was.config, s.w, s.v)
    && ServiceInv(s.w, s.v, s.cancelled)
  }

  /** The tap that an earlier run left behind stays as it was until it is
      deleted. */
  function Stale(was: Option<Tap>, log: seq<Event>): Option<Tap> {
    if log != [] && log[0].ok then None else was
  }

  /** From the end of setup to its removal the tap is there, addressed and up. */
  predicate TapInv(addr: string, was: Option<Tap>, w: Worker, v: View) {
    match w.pc
    case DelStale => v.tap == was
    case AddTap => v.tap == Stale(was, w.log)
    case AddAddr => v.tap == Some(Tap(None, false))
    case LinkUp => v.tap == Some(Tap(Some(addr), false))
    case Done =>
      if |w.log| <= 2 then v.tap == Stale(was, w.log)
      else if |w.log| <= 4 then v.tap.Some?
      else if w.log[|w.log| - 1].ok then v.tap == None
      else HasTap(v, addr)
    case _ => HasTap(v, addr)
  }

  /** Whether the scratch file is there after the first `n` actions, with
      nothing but the last two deferred calls left. */
  predicate ScratchAt(was: bool, log: seq<Event>, n: int) {
    if n <= 6 then was else if n == 7 || n > |log| then true else !log[n - 1].ok
  }

  predicate ScratchInv(was: bool, w: Worker, v: View) {
    match w.pc
    case Truncate | WriteConfig | Start | Running | RemoveScratch => v.scratch
    case StopEcho => v.scratch == ScratchAt(was, w.log, |w.log|)
    case DelTap => v.scratch == ScratchAt(was, w.log, |w.log| - 1)
    case Done => v.scratch == ScratchAt(was, w.log, |w.log| - 2)
    case _ => v.scratch == was
  }

  predicate ConfigInv(was: bool, w: Worker, v: View) {
    match w.pc
    case Start | Running => v.config
    case RemoveScratch => v.config == (was || |w.log| >= 9)
    case StopEcho => v.config == (was || |w.log| >= 10)
    case DelTap => v.config == (was || |w.log| >= 11)
    case Done => v.config == (was || |w.log| >= 12)
    case _ => v.config == was
  }

  /** While a VM runs its listener is open, unless the process was told to
      stop. */
  predicate ServiceInv(w: Worker, v: View, cancelled: bool) {
    && (Serving(w.pc) ==> v.listening || cancelled)
    && (w.echoStopped <==> w.pc == DelTap || (w.pc == Done && |w.log| > 4))
  }

  lemma {:induction false} FailureKeepsTap(addr: string, was: Option<Tap>, w: Worker, v: View)
    requires Path(w.pc, w.log) && TapInv(addr, was, w, v) && CanFail(w.pc)
    ensures TapInv(addr, was, NextWorker(w, false), v)
  {
    PathLength(w.pc, w.log);
    hide Path, FORWARD;
  }

  lemma {:induction false} SuccessKeepsTap(addr: string, was: Option<Tap>, w: Worker, v: View)
    requires Path(w.pc, w.log) && TapInv(addr, was, w, v) && CanSucceed(addr, w.pc, v)
    ensures TapInv(addr, was, NextWorker(w, true), NextView(addr, w.pc, v))
  {
    PathLength(w.pc, w.log);
    hide Path, FORWARD;
  }

  lemma {:induction false} StepKeepsScratch(addr: string, was: bool, w: Worker, v: View, ok: bool)
    requires Path(w.pc, w.log) && ScratchInv(was, w, v)
    requires if ok then CanSucceed(addr, w.pc, v) else CanFail(w.pc)
    ensures ScratchInv(was, NextWorker(w, ok), if ok then NextView(addr, w.pc, v) else v)
  {
    PathLength(w.pc, w.log);
    hide Path, FORWARD;
  }

  lemma {:induction false} StepKeepsConfig(addr: string, was: bool, w: Worker, v: View, ok: bool)
    requires Path(w.pc, w.log) && ConfigInv(was, w, v)
    requires if ok then CanSucceed(addr, w.pc, v) else CanFail(w.pc)
    ensures ConfigInv(was, NextWorker(w, ok), if ok then NextView(addr, w.pc, v) else v)
  {
    PathLength(w.pc, w.log);
    hide Path, FORWARD;
  }

  lemma {:induction false} StepKeepsService(addr: string, w: Worker, v: View, cancelled: bool, ok: bool)
    requires Path(w.pc, w.log) && ServiceInv(w, v, cancelled)
    requires if ok then CanSucceed(addr, w.pc, v) else CanFail(w.pc)
    ensures ServiceInv(NextWorker(w, ok), if ok then NextView(addr, w.pc, v) else v, cancelled)
  {
    PathLength(w.pc, w.log);
    hide Path, FORWARD;
  }

  lemma {:induction false} ActKeepsInv(addr: string, was: View, s: Local, a: Act)
    requires LocalInv(addr, was, s) && LocalCan(addr, s, a)
    ensures LocalInv(addr, was, LocalAfter(addr, s, a))
  {
    match a
    case Go(ok) =>
      assert s.w.pc != Done && (ok || CanFail(s.w.pc));
      StepKeepsPath(s.w.pc, s.w.log, ok);
      if ok {
        SuccessKeepsTap(addr, was.tap, s.w, s.v);
      } else {
        FailureKeepsTap(addr, was.tap, s.w, s.v);
      }
      StepKeepsScratch(addr, was.scratch, s.w, s.v, ok);
      StepKeepsConfig(addr, was.config, s.w, s.v, ok);
      StepKeepsService(addr, s.w, s.v, s.cancelled, ok);
      hide Path, TapInv, ScratchInv, ConfigInv, ServiceInv, CanSucceed, CanFail, NextView, NextPc;
    case CloseListener =>
    case Cancel =>
  }

  lemma {:induction false} LocalExecKeepsInv(addr: string, was: View, s: Local, acts: seq<Act>)
    requires LocalInv(addr, was, s) && LocalExec(addr, s, acts).Some?
    ensures LocalInv(addr, was, LocalExec(addr, s, acts).value)
    decreases |acts|
  {
    hide LocalInv, LocalCan, LocalAfter;
    if acts != [] {
      ActKeepsInv(addr, was, s, acts[0]);
      LocalExecKeepsInv(addr, was, LocalAfter(addr, s, acts[0]), acts[1..]);
    }
  }

  /** What is left of a tap, by the outcomes of a worker's acts. If the three
      setup commands succeeded, the tap remains exactly if the last act failed.
      If not, it remains exactly if it was added, or if an earlier run's tap was
      there and was not deleted - and that one is as it was. */
  predicate TapLeft(was: Option<Tap>, left: Option<Tap>, os: seq<bool>) {
    && |os| >= 2
    && (AllOk(os, 4) ==> (left.Some? <==> !os[|os| - 1]))
    && (!AllOk(os, 4) ==> (left.Some? <==> os[1] || (was.Some? && !os[0])))
    && (!AllOk(os, 4) && !os[1] && !os[0] ==> left == was)
  }

  /** What is left of the files: a scratch file that was created and sized,
      exactly if the act before the last two failed; one that was created and
      could not be sized, always; a configuration that was written, always. */
  predicate FilesLeft(was: View, left: View, os: seq<bool>) {
    && |os| >= 2 && (AllOk(os, 7) ==> |os| >= 3)
    && (left.scratch <==> if AllOk(os, 7) then !os[|os| - 3] else AllOk(os, 6) || was.scratch)
    && (left.config <==> AllOk(os, 8) || was.config)
  }

  /** The last action was the deletion of the tap, and - where there was a
      scratch file to remove - the one before the last two its removal. */
  predicate CleanedUp(log: seq<Event>) {
    && (AllOk(Oks(log), 4) ==> |log| >= 2 && log[|log| - 1].pc == DelTap && log[|log| - 2].pc == StopEcho)
    && (AllOk(Oks(log), 7) ==> |log| >= 3 && log[|log| - 3].pc == RemoveScratch)
  }

  lemma {:induction false} DoneTap(addr: string, was: Option<Tap>, w: Worker, v: View)
    requires Finished(w.log) && w.pc == Done && TapInv(addr, was, w, v)
    ensures TapLeft(was, v.tap, Oks(w.log))
  {
    hide AllOk, FORWARD;
  }

  lemma {:induction false} DoneFiles(was: View, w: Worker, v: View)
    requires Finished(w.log) && w.pc == Done && ScratchInv(was.scratch, w, v) && ConfigInv(was.config, w, v)
    ensures FilesLeft(was, v, Oks(w.log))
  {
    hide AllOk, FORWARD;
  }

  lemma {:induction false} DoneService(w: Worker, v: View, cancelled: bool)
    requires Finished(w.log) && w.pc == Done && ServiceInv(w, v, cancelled)
    ensures CleanedUp(w.log)
    ensures AllOk(Oks(w.log), 4) ==> w.echoStopped
  {
    hide AllOk, FORWARD;
  }

  /** What a finished worker leaves of its resources. */
  lemma {:induction false} DoneState(addr: string, was: View, s: Local)
    requires LocalInv(addr, was, s) && s.w.pc == Done
    ensures var os := Oks(s.w.log);
      TapLeft(was.tap, s.v.tap, os) && FilesLeft(was, s.v, os) && CleanedUp(s.w.log)
      && (AllOk(os, 4) ==> s.w.echoStopped)
  {
    DoneIsFinished(s.w.log);
    DoneTap(addr, was.tap, s.w, s.v);
    DoneFiles(was, s.w, s.v);
    DoneService(s.w, s.v, s.cancelled);
    hide *;
  }

  /** Over every interleaving, from any initial host. */
  lemma {:induction false} WorkersKeepInv(base: uint32, n: nat, host: Host, steps: seq<Step>, i: nat)
    requires Accepted(base, n) && i < n && Exec(base, Init(n, host), steps).Some?
    ensures |Exec(base, Init(n, host), steps).value.workers| == n
    ensures var s := LocalOf(base, Exec(base, Init(n, host), steps).value, i);
      LocalInv(VmHostIP(base, i), ViewOf(base, host, i), s) && Oks(s.w.log) == Outcomes(Project(steps, i))
  {
    hide VmHostIP, Exec, LocalExec, ViewOf;
    var addr, start, acts := VmHostIP(base, i), LocalOf(base, Init(n, host), i), Project(steps, i);
    NonInterference(base, Init(n, host), steps, i);
    LocalExecKeepsInv(addr, ViewOf(base, host, i), start, acts);
    LogIsOutcomes(addr, start, acts);
    assert Oks([]) + Outcomes(acts) == Outcomes(acts);
  }

  /** A running VM's resources are in place, whatever the other workers do. */
  lemma {:induction false} RunningIsEquipped(base: uint32, n: nat, host: Host, steps: seq<Step>, i: nat)
    requires Accepted(base, n) && i < n && Exec(base, Init(n, host), steps).Some?
    ensures var g := Exec(base, Init(n, host), steps).value;
      |g.workers| == n && (g.workers[i].pc == Running ==>
        && VmTap(i) in g.host.taps && g.host.taps[VmTap(i)] == Tap(Some(VmHostIP(base, i)), true)
        && ScratchName(i) in g.host.files && ConfigName(i) in g.host.files
        && (VmHostIP(base, i) in g.host.listeners || g.cancelled))
  {
    WorkersKeepInv(base, n, host, steps, i);
    hide VmTap, VmHostIP, ScratchName, ConfigName, Exec;
  }

  /** What becomes of every finished worker's tap and files, told by the
      outcomes of its acts in the schedule, and that the acts these depend on
      are the ones that delete. (The directory that holds the files goes away
      with the whole stage.) */
  lemma {:induction false} LeftBehindIff(base: uint32, n: nat, host: Host, steps: seq<Step>, i: nat)
    requires Accepted(base, n) && i < n && Exec(base, Init(n, host), steps).Some?
    ensures var g, os := Exec(base, Init(n, host), steps).value, Outcomes(Project(steps, i));
      |g.workers| == n && (g.workers[i].pc == Done ==>
        && TapLeft(TapAt(host, i), TapAt(g.host, i), os)
        && FilesLeft(ViewOf(base, host, i), ViewOf(base, g.host, i), os)
        && Oks(g.workers[i].log) == os && CleanedUp(g.workers[i].log))
  {
    WorkersKeepInv(base, n, host, steps, i);
    var g := Exec(base, Init(n, host), steps).value;
    hide Exec, LocalInv, TapLeft, FilesLeft, CleanedUp, AllOk, Oks;
    if g.workers[i].pc == Done {
      DoneState(VmHostIP(base, i), ViewOf(base, host, i), LocalOf(base, g, i));
    }
    hide VmTap, VmHostIP, ScratchName, ConfigName, Project, Outcomes;
  }

  /** A listener that outlives its worker is always about to close: the context
      its goroutine waits on has been cancelled. */
  lemma {:induction false} ListenerClosesAfterDone(base: uint32, n: nat, host: Host, steps: seq<Step>, i: nat)
    requires Accepted(base, n) && i < n && Exec(base, Init(n, host), steps).Some?
    ensures var g := Exec(base, Init(n, host), steps).value;
      |g.workers| == n && (g.workers[i].pc == Done && AllOk(Outcomes(Project(steps, i)), 4) ==>
        VmHostIP(base, i) in g.host.listeners ==>
        GlobalCan(base, g, Step(i, CloseListener)) &&
        VmHostIP(base, i) !in GlobalAfter(base, g, Step(i, CloseListener)).host.listeners)
  {
    WorkersKeepInv(base, n, host, steps, i);
    var g := Exec(base, Init(n, host), steps).value;
    hide Exec, LocalInv, TapLeft, FilesLeft, CleanedUp, AllOk, Oks;
    if g.workers[i].pc == Done {
      DoneState(VmHostIP(base, i), ViewOf(base, host, i), LocalOf(base, g, i));
    }
    hide VmTap, VmHostIP, ScratchName, ConfigName, Project, Outcomes;
  }

  /** The leak is real: a worker whose tap was added but could not be given an
      address finishes and leaves the tap behind. */
  lemma {:induction false} FailedSetupLeaksTap(base: uint32, n: nat, host: Host, i: nat)
    requires Accepted(base, n) && i < n && VmTap(i) !in host.taps
    ensures var steps := [Step(i, Go(false)), Step(i, Go(true)), Step(i, Go(false))];
      var r := Exec(base, Init(n, host), steps);
      r.Some? && |r.value.workers| == n && r.value.workers[i].pc == Done && VmTap(i) in r.value.host.taps
  {
    hide VmTap, VmHostIP, ScratchName, ConfigName;
    var steps := [Step(i, Go(false)), Step(i, Go(true)), Step(i, Go(false))];
    var g0 := Init(n, host);
    var g1 := GlobalAfter(base, g0, steps[0]);
    var g2 := GlobalAfter(base, g1, steps[1]);
    var g3 := GlobalAfter(base, g2, steps[2]);
    assert steps[1..][1..] == steps[2..] && steps[2..][1..] == [];
    assert Exec(base, g3, []) == Some(g3);
    assert Exec(base, g2, steps[2..]) == Some(g3);
    assert Exec(base, g1, steps[1..]) == Some(g3);
  }

  /** So is the second: an earlier run's tap that cannot be deleted keeps the
      worker from adding its own, and stays. */
  lemma {:induction false} StaleTapStays(base: uint32, n: nat, host: Host, i: nat)
    requires Accepted(base, n) && i < n && VmTap(i) in host.taps
    ensures var r := Exec(base, Init(n, host), [Step(i, Go(false)), Step(i, Go(false))]);
      && r.Some? && |r.value.workers| == n
      && r.value.workers[i].pc == Done && r.value.host == host
  {
    hide VmTap, VmHostIP, ScratchName, ConfigName;
    var steps := [Step(i, Go(false)), Step(i, Go(false))];
    var g0 := Init(n, host);
    var g1 := GlobalAfter(base, g0, steps[0]);
    var g2 := GlobalAfter(base, g1, steps[1]);
    assert steps[1..][1..] == [];
    assert Exec(base, g2, []) == Some(g2);
    assert Exec(base, g1, steps[1..]) == Some(g2);
  }
}
