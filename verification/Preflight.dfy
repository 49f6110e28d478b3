/** The boot stage and main: from the checks to the exit code. */
module Preflight {
  import opened Wrappers
  import opened Console
  import opened Reports
  import opened Outcomes
  import opened FanOut
  import opened Kvm

  // ----- the boot stage -----

  /** Where a binary comes from: given by a flag, fetched, or not to be had. */
  datatype Source = Supplied | Fetched | Unavailable(why: string)

  datatype Linkage = Static | Dynamic | Unparsed

  /** Everything the boot stage learns from the world, besides the architecture
      and the user, which the KVM checks ask for too. `arrival` is the order in
      which the concurrent runs finish. */
  datatype StageEnv = StageEnv(
    firecracker: Source, kernel: Source, selfOk: bool, linkage: Linkage, selfReadOk: bool,
    workDirOk: bool, initramfsOk: bool, vms: seq<BootEnv>, arrival: seq<nat>)

  predicate IsOrder(order: seq<nat>, n: nat) {
    && |order| == n
    && (forall k :: 0 <= k < n ==> order[k] < n)
    && (forall j, k :: 0 <= j < k < n ==> order[j] != order[k])
  }

  /** What is found before any VM starts; the flag says whether to go on. */
  function Preparations(env: StageEnv, arch: Arch, root: bool): (seq<Finding>, bool) {
    if !root then ([Plain("boot.privileges", Blocked)], false)
    else if arch == OtherArch then ([Plain("boot.arch", Skip)], false)
    else Artifacts(env)
  }

  function Artifacts(env: StageEnv): (seq<Finding>, bool) {
    match env.firecracker
    case Unavailable(why) => ([Noted("boot.firecracker", Fail, [why])], false)
    case source =>
      var fc := Plain("boot.firecracker", if source == Fetched then Pass else Info);
      match env.kernel
      case Unavailable(why) => ([fc, Noted("boot.kernel", Fail, [why])], false)
      case k =>
        var (rest, go) := Packing(env);
        ([fc, Plain("boot.kernel", if k == Fetched then Warn else Pass)] + rest, go)
  }

  function Packing(env: StageEnv): (seq<Finding>, bool) {
    if !env.selfOk then ([Plain("boot.initramfs", Fail)], false)
    else if env.linkage == Dynamic then ([Plain("boot.initramfs.linkage", Fail)], false)
    else
      var link := Plain("boot.initramfs.linkage", if env.linkage == Static then Pass else Warn);
      if !env.selfReadOk then ([link, Plain("boot.initramfs", Fail)], false)
      else if !env.workDirOk then ([link, Plain("boot.workdir", Fail)], false)
      else if !env.initramfsOk then ([link, Plain("boot.initramfs", Fail)], false)
      else ([link, Plain("boot.initramfs", Pass)], true)
  }

  /** The first thing that keeps the stage from booting, by the result that
      reports it. */
  function Obstacle(env: StageEnv, arch: Arch, root: bool): Option<string> {
    if !root then Some("boot.privileges")
    else if arch == OtherArch then Some("boot.arch")
    else if env.firecracker.Unavailable? then Some("boot.firecracker")
    else if env.kernel.Unavailable? then Some("boot.kernel")
    else if !env.selfOk then Some("boot.initramfs")
    else if env.linkage == Dynamic then Some("boot.initramfs.linkage")
    else if !env.selfReadOk then Some("boot.initramfs")
    else if !env.workDirOk then Some("boot.workdir")
    else if !env.initramfsOk then Some("boot.initramfs")
    else None
  }

  /** VMs are booted exactly if nothing is in the way; otherwise the last result
      names the obstacle, and nothing before it is amiss. */
  lemma {:induction false} PreparedIff(env: StageEnv, arch: Arch, root: bool)
    ensures var (fs, go) := Preparations(env, arch, root);
      && fs != [] && (go <==> Obstacle(env, arch, root).None?)
      && (!go ==> fs[|fs| - 1].id == Obstacle(env, arch, root).value)
      && (forall k :: 0 <= k < |fs| - 1 ==> fs[k].status != Fail && fs[k].status != Blocked)
  {
  }

  /** A downloaded kernel and a binary that cannot be examined are warnings, and
      nothing else is. */
  lemma {:induction false} PreparedWarns(env: StageEnv, arch: Arch, root: bool)
    requires Preparations(env, arch, root).1
    ensures forall f :: f in Preparations(env, arch, root).0 && f.status == Warn ==>
      (f.id == "boot.kernel" && env.kernel.Fetched?) || (f.id == "boot.initramfs.linkage" && env.linkage == Unparsed)
    ensures env.kernel.Fetched? ==> Plain("boot.kernel", Warn) in Preparations(env, arch, root).0
    ensures env.linkage == Unparsed ==> Plain("boot.initramfs.linkage", Warn) in Preparations(env, arch, root).0
  {
  }

  method Pack(r: Report, env: StageEnv) returns (go: bool)
    modifies r
    ensures r.results == old(r.results) + Packing(env).0 && go == Packing(env).1
  {
    if !env.selfOk {
      r.Add(Plain("boot.initramfs", Fail));
      return false;
    }
    match env.linkage {
      case Unparsed => r.Add(Plain("boot.initramfs.linkage", Warn));
      case Dynamic =>
        r.Add(Plain("boot.initramfs.linkage", Fail));
        return false;
      case Static => r.Add(Plain("boot.initramfs.linkage", Pass));
    }
    if !env.selfReadOk {
      r.Add(Plain("boot.initramfs", Fail));
      return false;
    }
    if !env.workDirOk {
      r.Add(Plain("boot.workdir", Fail));
      return false;
    }
    if !env.initramfsOk {
      r.Add(Plain("boot.initramfs", Fail));
      return false;
    }
    r.Add(Plain("boot.initramfs", Pass));
    return true;
  }

  method FindArtifacts(r: Report, env: StageEnv) returns (go: bool)
    modifies r
    ensures r.results == old(r.results) + Artifacts(env).0 && go == Artifacts(env).1
  {
    hide Packing;
    match env.firecracker {
      case Unavailable(why) =>
        r.Add(Noted("boot.firecracker", Fail, [why]));
        return false;
      case Fetched => r.Add(Plain("boot.firecracker", Pass));
      case Supplied => r.Add(Plain("boot.firecracker", Info));
    }
    match env.kernel {
      case Unavailable(why) =>
        r.Add(Noted("boot.kernel", Fail, [why]));
        return false;
      case Fetched => r.Add(Plain("boot.kernel", Warn));
      case Supplied => r.Add(Plain("boot.kernel", Pass));
    }
    go := Pack(r, env);
  }

  method Prepare(r: Report, env: StageEnv, arch: Arch, root: bool) returns (go: bool)
    modifies r
    ensures r.results == old(r.results) + Preparations(env, arch, root).0 && go == Preparations(env, arch, root).1
  {
    hide Artifacts;
    if !root {
      r.Add(Plain("boot.privileges", Blocked));
      return false;
    }
    if arch == OtherArch {
      r.Add(Plain("boot.arch", Skip));
      return false;
    }
    go := FindArtifacts(r, env);
  }

  /** `os[i]` is what VM `i`'s run returned. */
  ghost predicate Ran(os: seq<VmOutcome>, vms: seq<BootEnv>, decode: Decoder) {
    |os| == |vms| && forall i :: 0 <= i < |os| ==> OutcomeOf(i, vms[i], decode, os[i])
  }

  lemma {:induction false} IndexOf(i: nat, env: BootEnv, decode: Decoder, o: VmOutcome)
    requires OutcomeOf(i, env, decode, o)
    ensures o.index == i
  {
  }

  /** Runs every VM and gathers the outcomes, whatever order they finish in. */
  method BootAll(vms: seq<BootEnv>, arrival: seq<nat>, decode: Decoder) returns (os: seq<VmOutcome>)
    requires vms != [] && IsOrder(arrival, |vms|)
    ensures Ran(os, vms, decode)
  {
    hide OutcomeOf;
    if |vms| == 1 {
      var only := BootOne(0, vms[0], decode);
      return [only];
    }
    var returned: seq<VmOutcome> := [];
    for i := 0 to |vms|
      invariant |returned| == i
      invariant forall j :: 0 <= j < i ==> OutcomeOf(j, vms[j], decode, returned[j])
    {
      var o := BootOne(i, vms[i], decode);
      returned := returned + [o];
    }
    forall i | 0 <= i < |returned|
      ensures returned[i].index == i
    {
      IndexOf(i, vms[i], decode, returned[i]);
    }
    var arrived := seq(|vms|, k requires 0 <= k < |vms| => returned[arrival[k]]);
    var outcomes := new VmOutcome[|vms|](k requires 0 <= k < |vms| => returned[0]);
    CollectOutcomes(arrived, returned, outcomes);
    os := outcomes[..];
  }

  /** What the boot stage has done to the results. */
  ghost predicate StageRan(
    env: StageEnv, arch: Arch, root: bool, decode: Decoder, os: seq<VmOutcome>,
    prior: seq<Finding>, results: seq<Finding>)
    requires env.vms != []
  {
    var (prepared, go) := Preparations(env, arch, root);
    if go then Ran(os, env.vms, decode) && os != [] && results == prior + prepared + Judged(os)
    else os == [] && results == prior + prepared
  }

  /** The boot stage: its preparations, then - if they allow it - the judgement
      of every VM's run. */
  method RunBootStage(r: Report, env: StageEnv, arch: Arch, root: bool, decode: Decoder)
    returns (os: seq<VmOutcome>)
    requires env.vms != [] && IsOrder(env.arrival, |env.vms|)
    modifies r
    ensures StageRan(env, arch, root, decode, os, old(r.results), r.results)
  {
    hide Preparations, Judged, OutcomeOf;
    var go := Prepare(r, env, arch, root);
    if !go {
      return [];
    }
    os := BootAll(env.vms, env.arrival, decode);
    JudgeOutcomes(r, os);
  }

  // ----- what a clean boot stage means -----

  /** Every VM was launched and only reported cleanly; the first one bound its
      drivers; none had a network error. */
  ghost predicate AllVmsHealthy(env: StageEnv, decode: Decoder, os: seq<VmOutcome>) {
    && os != [] && Ran(os, env.vms, decode)
    && (forall i :: 0 <= i < |env.vms| ==> CleanRun(env.vms[i], decode))
    && Healthy(os)
  }

  lemma {:induction false} HealthyMeansClean(env: StageEnv, decode: Decoder, os: seq<VmOutcome>)
    requires os != [] && Ran(os, env.vms, decode)
    ensures Healthy(os) ==> AllVmsHealthy(env, decode, os)
  {
    hide OutcomeOf, CleanRun, DevicesBound;
    if Healthy(os) {
      forall i | 0 <= i < |env.vms|
        ensures CleanRun(env.vms[i], decode)
      {
        CleanRunIff(i, env.vms[i], decode, os[i]);
      }
    }
  }

  lemma {:induction false} PreparationsVerdict(env: StageEnv, arch: Arch, root: bool)
    ensures var (fs, go) := Preparations(env, arch, root);
      && (go ==> root && arch != OtherArch)
      && Verdict(fs) == if go then Pass else if !root then Blocked else if arch == OtherArch then Pass else Fail
  {
    var (fs, go) := Preparations(env, arch, root);
    assert !go ==> fs[|fs| - 1].status == if !root then Blocked else if arch == OtherArch then Skip else Fail;
    assert forall k :: 0 <= k < |fs| - 1 ==> fs[k].status != Fail && fs[k].status != Blocked;
  }

  /** The verdict of the boot stage alone. */
  ghost predicate StageFails(env: StageEnv, arch: Arch, root: bool, decode: Decoder, os: seq<VmOutcome>) {
    root && arch != OtherArch && !AllVmsHealthy(env, decode, os)
  }

  /** The stage joins its own verdict to what was found before: it is blocked
      without root; it fails exactly if, with root and on a known architecture,
      some VM was not healthy or none was run; otherwise it passes. */
  lemma {:induction false} StageVerdict(
    env: StageEnv, arch: Arch, root: bool, decode: Decoder, os: seq<VmOutcome>,
    prior: seq<Finding>, results: seq<Finding>)
    requires env.vms != [] && StageRan(env, arch, root, decode, os, prior, results)
    ensures Verdict(results) == Join(Verdict(prior), Worst(StageFails(env, arch, root, decode, os), !root))
    ensures os != [] ==> arch != OtherArch && root
  {
    hide Judged, Ran, Preparations, Verdict, DevicesBound, CleanRun;
    PreparationsVerdict(env, arch, root);
    var (prepared, go) := Preparations(env, arch, root);
    VerdictJoins(prior, prepared);
    if go {
      VerdictJoins(prior + prepared, Judged(os));
      JudgedVerdict(os);
      HealthyMeansClean(env, decode, os);
    }
  }

  // ----- main -----

  datatype Stage = PreflightOnly | BootOnly | All | UnknownStage

  /** Where the JSON report goes, if anywhere, and whether writing it works. */
  datatype Json = NoJson | Written | Unwritable

  /** One invocation. `before` and `after` are the results of the preflight
      checks around the KVM one. */
  datatype Invocation = Invocation(
    linux: bool, netOk: bool, stage: Stage, before: seq<Finding>, kvm: KvmEnv, after: seq<Finding>,
    boot: StageEnv, json: Json)

  function PreflightFindings(inv: Invocation): seq<Finding> {
    inv.before + KvmFindings(inv.kvm) + inv.after
  }

  method RunPreflight(r: Report, inv: Invocation)
    modifies r
    ensures r.results == old(r.results) + PreflightFindings(inv)
  {
    hide KvmFindings;
    for i := 0 to |inv.before|
      invariant r.results == old(r.results) + inv.before[..i]
    {
      r.Add(inv.before[i]);
    }
    var d := new Descriptors();
    CheckKVM(r, d, inv.kvm);
    ghost var mid := r.results;
    for i := 0 to |inv.after|
      invariant r.results == mid + inv.after[..i]
    {
      r.Add(inv.after[i]);
    }
    assert inv.before[..|inv.before|] == inv.before && inv.after[..|inv.after|] == inv.after;
  }

  lemma {:induction false} BlockingJoins(a: seq<Finding>, b: seq<Finding>)
    ensures HasBlockingKVMFailure(a + b) <==> HasBlockingKVMFailure(a) || HasBlockingKVMFailure(b)
  {
    hide GatingId, Adverse;
    if k :| 0 <= k < |a| && Adverse(a[k]) && GatingId(a[k].id) {
      assert (a + b)[k] == a[k];
    }
    if k :| 0 <= k < |b| && Adverse(b[k]) && GatingId(b[k].id) {
      assert (a + b)[|a| + k] == b[k];
    }
  }

  lemma {:induction false} BlockingIsAdverse(fs: seq<Finding>)
    requires HasBlockingKVMFailure(fs)
    ensures Severity(Verdict(fs)) > 0
  {
    hide GatingId;
  }

  /** Something the preflight found speaks against the host. */
  predicate HostFails(inv: Invocation) {
    Has(inv.before, Fail) || Has(inv.after, Fail) || (!Usable(inv.kvm) && !Refused(inv.kvm))
  }

  /** Something could not be checked. */
  predicate HostBlocks(inv: Invocation) {
    Has(inv.before, Blocked) || Has(inv.after, Blocked) || Refused(inv.kvm)
  }

  /** The verdict of the preflight, from what the other checks found and what
      kind of host it is. */
  lemma {:induction false} PreflightVerdict(inv: Invocation)
    ensures Verdict(PreflightFindings(inv)) == Worst(HostFails(inv), HostBlocks(inv))
  {
    KvmVerdict(inv.kvm);
    VerdictIsWorst(inv.before);
    VerdictIsWorst(inv.after);
    assert Usable(inv.kvm) ==> !Refused(inv.kvm);
    hide KvmFindings, Verdict, Has, Usable, Refused;
    VerdictJoins(inv.before, KvmFindings(inv.kvm));
    VerdictJoins(inv.before + KvmFindings(inv.kvm), inv.after);
  }

  /** The gate is not fooled by the other checks, and what it stops is never
      reported as a pass. */
  lemma {:induction false} GateDecides(inv: Invocation)
    ensures inv.kvm.arch != OtherArch && !HasBlockingKVMFailure(PreflightFindings(inv)) ==> Usable(inv.kvm)
    ensures HasBlockingKVMFailure(PreflightFindings(inv)) ==> Severity(Verdict(PreflightFindings(inv))) > 0
    ensures Severity(Verdict(PreflightFindings(inv))) == 0 ==> Usable(inv.kvm)
    ensures HasBlockingKVMFailure(PreflightFindings(inv)) <==>
      || (inv.kvm.arch != OtherArch && !Usable(inv.kvm))
      || HasBlockingKVMFailure(inv.before) || HasBlockingKVMFailure(inv.after)
  {
    PreflightVerdict(inv);
    hide KvmFindings, GatingId, Usable;
    var ks, fs := KvmFindings(inv.kvm), PreflightFindings(inv);
    if inv.kvm.arch == OtherArch {
      UnsupportedArchPassesGate(inv.kvm);
    } else {
      GateComplete(inv.kvm);
    }
    BlockingJoins(inv.before, ks);
    BlockingJoins(inv.before + ks, inv.after);
    if HasBlockingKVMFailure(fs) {
      BlockingIsAdverse(fs);
    }
    hide HasBlockingKVMFailure;
  }

  predicate Usage(inv: Invocation) {
    inv.linux && inv.netOk && inv.stage != UnknownStage
  }

  /** What is in the report at the end. In the combined run the gate decides
      whether VMs are booted. */
  ghost predicate Reported(inv: Invocation, decode: Decoder, booted: bool, os: seq<VmOutcome>, results: seq<Finding>)
    requires inv.boot.vms != []
  {
    var pre := PreflightFindings(inv);
    match inv.stage
    case PreflightOnly => !booted && os == [] && results == pre
    case BootOnly => booted && StageRan(inv.boot, inv.kvm.arch, inv.kvm.root, decode, os, [], results)
    case All =>
      if HasBlockingKVMFailure(pre) then !booted && os == [] && results == pre + [Plain("boot.skipped", Skip)]
      else booted && StageRan(inv.boot, inv.kvm.arch, inv.kvm.root, decode, os, pre, results)
    case UnknownStage => false
  }

  /** main, as far as the exit code: 2 for bad usage, 1 if the JSON report could
      not be written, and otherwise the code of the verdict on the results. */
  method RunMain(inv: Invocation, decode: Decoder)
    returns (code: nat, booted: bool, os: seq<VmOutcome>, results: seq<Finding>)
    requires inv.boot.vms != [] && IsOrder(inv.boot.arrival, |inv.boot.vms|)
    ensures !Usage(inv) ==> code == 2 && !booted
    ensures Usage(inv) ==> Reported(inv, decode, booted, os, results)
    ensures Usage(inv) && inv.json == Unwritable ==> code == 1
    ensures Usage(inv) && inv.json != Unwritable ==> CodeFits(code, results)
  {
    hide PreflightFindings, StageRan, HasBlockingKVMFailure, Verdict, CodeFits;
    booted, os := false, [];
    if !inv.linux || !inv.netOk {
      return 2, false, [], [];
    }
    var r := new Report();
    match inv.stage {
      case PreflightOnly =>
        RunPreflight(r, inv);
      case BootOnly =>
        booted := true;
        os := RunBootStage(r, inv.boot, inv.kvm.arch, inv.kvm.root, decode);
      case All =>
        RunPreflight(r, inv);
        assert r.results == PreflightFindings(inv);
        if HasBlockingKVMFailure(r.results) {
          r.Add(Plain("boot.skipped", Skip));
        } else {
          booted := true;
          os := RunBootStage(r, inv.boot, inv.kvm.arch, inv.kvm.root, decode);
        }
      case UnknownStage =>
        return 2, false, [], [];
    }
    r.Finish();
    results := r.results;
    ExitCodeFits(results);
    code := if inv.json == Unwritable then 1 else ExitCode(r.verdict);
  }

  lemma {:induction false} NothingFound()
    ensures Verdict([]) == Pass
  {
  }

  lemma {:induction false} SkippedVerdict()
    ensures Verdict([Plain("boot.skipped", Skip)]) == Pass
  {
  }

  lemma {:induction false} CodeOfVerdict(code: nat, rs: seq<Finding>)
    requires CodeFits(code, rs)
    ensures code == match Verdict(rs) { case Fail => 1 case Blocked => 3 case _ => 0 }
  {
    HasMember(rs, Fail);
    HasMember(rs, Blocked);
    hide Has;
  }

  /** The exit code of every valid run whose report could be written, from the
      host and the VMs: 1 if the host or some VM failed, 3 if nothing did but
      something could not be checked, 0 otherwise. */
  lemma {:induction false} ExitCodeIs(
    inv: Invocation, decode: Decoder, booted: bool, os: seq<VmOutcome>, results: seq<Finding>, code: nat)
    requires inv.boot.vms != [] && Usage(inv) && Reported(inv, decode, booted, os, results) && CodeFits(code, results)
    ensures var asked := inv.stage != BootOnly;
      var fails := (asked && HostFails(inv))
        || (booted && StageFails(inv.boot, inv.kvm.arch, inv.kvm.root, decode, os));
      var blocked := (asked && HostBlocks(inv)) || (booted && !inv.kvm.root);
      code == if fails then 1 else if blocked then 3 else 0
  {
    hide PreflightFindings, StageRan, HasBlockingKVMFailure, Verdict, HostFails, HostBlocks, StageFails, CodeFits;
    var pre, arch, root := PreflightFindings(inv), inv.kvm.arch, inv.kvm.root;
    PreflightVerdict(inv);
    CodeOfVerdict(code, results);
    if inv.stage == BootOnly {
      NothingFound();
      StageVerdict(inv.boot, arch, root, decode, os, [], results);
    } else if booted {
      StageVerdict(inv.boot, arch, root, decode, os, pre, results);
    } else if inv.stage == All {
      SkippedVerdict();
      VerdictJoins(pre, [Plain("boot.skipped", Skip)]);
    }
  }

  /** A user who may not open the device learns that nothing could be decided: on
      a known architecture, with the other checks neither failed nor blocked,
      the run exits with 3 and boots nothing. */
  lemma {:induction false} RefusedExitsThree(
    inv: Invocation, decode: Decoder, booted: bool, os: seq<VmOutcome>, results: seq<Finding>, code: nat)
    requires inv.boot.vms != [] && Usage(inv) && Reported(inv, decode, booted, os, results) && CodeFits(code, results)
    requires inv.stage != BootOnly && inv.kvm.arch != OtherArch
    requires inv.kvm.stat == CharDevice && inv.kvm.open == Denied && !inv.kvm.root
    requires forall f :: f in inv.before + inv.after ==> f.status != Fail && f.status != Blocked
    ensures code == 3 && !booted && os == []
  {
    ExitCodeIs(inv, decode, booted, os, results, code);
    GateDecides(inv);
    assert !Has(inv.before, Fail) && !Has(inv.before, Blocked) && !Has(inv.after, Fail) && !Has(inv.after, Blocked);
    hide PreflightFindings, StageRan, HasBlockingKVMFailure, CodeFits, StageFails, Has;
  }

  /** The gate also heeds the check of the processor: where virtualization is
      missing, nothing is booted. */
  lemma {:induction false} CpuVirtStops(
    inv: Invocation, decode: Decoder, booted: bool, os: seq<VmOutcome>, results: seq<Finding>, f: Finding)
    requires inv.boot.vms != [] && Reported(inv, decode, booted, os, results) && inv.stage == All
    requires f in inv.before + inv.after && f.id == "host.cpu_virt" && (f.status == Fail || f.status == Blocked)
    ensures !booted && os == []
  {
    GateDecides(inv);
    assert GatingId(f.id) && Adverse(f);
    hide PreflightFindings, StageRan, GatingId;
  }

  /** The stage that only boots was asked for on an architecture without pinned
      artifacts: it runs no VM and reports no problem. */
  predicate NothingToBoot(inv: Invocation) {
    inv.stage == BootOnly && inv.kvm.arch == OtherArch && inv.kvm.root
  }

  /** What the exit code says about the host, on every architecture. After the
      preflight, VMs are run only where Firecracker can run, and a run that stops
      before the boot stage exits with 1 or 3. A zero exit means that Firecracker
      can run, if the preflight was asked, and that every VM was healthy, if
      booting was - with exactly one exception, where no VM was run. */
  lemma {:induction false} ExitMeaning(
    inv: Invocation, decode: Decoder, booted: bool, os: seq<VmOutcome>, results: seq<Finding>, code: nat)
    requires inv.boot.vms != [] && Usage(inv) && Reported(inv, decode, booted, os, results) && CodeFits(code, results)
    ensures inv.stage == All && os != [] ==> Usable(inv.kvm)
    ensures inv.stage == All && !booted ==> code == 1 || code == 3
    ensures code == 0 && inv.stage != BootOnly ==> Usable(inv.kvm)
    ensures inv.stage != PreflightOnly ==>
      (code == 0 && !AllVmsHealthy(inv.boot, decode, os) <==> NothingToBoot(inv))
    ensures NothingToBoot(inv) ==> os == []
  {
    assert Usable(inv.kvm) ==> inv.kvm.arch != OtherArch;
    ExitCodeIs(inv, decode, booted, os, results, code);
    GateDecides(inv);
    hide PreflightFindings, StageRan, HasBlockingKVMFailure, CodeFits, Usable, AllVmsHealthy, Has;
    if booted {
      var prior := if inv.stage == BootOnly then [] else PreflightFindings(inv);
      StageVerdict(inv.boot, inv.kvm.arch, inv.kvm.root, decode, os, prior, results);
    } else if inv.stage == All {
      PreflightVerdict(inv);
    }
  }
}
