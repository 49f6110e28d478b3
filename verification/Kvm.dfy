/** The KVM checks of kvm_linux.go, against an arbitrary host. */
module Kvm {
  import opened Numerals
  import opened Reports

  const STABLE_API_VERSION := 12

  /** One capability; `required` if Firecracker refuses to start without it. */
  datatype Cap = Cap(num: nat, name: string, required: bool)

  const AMD64_CAPS: seq<Cap> := [
    Cap(0, "KVM_CAP_IRQCHIP", true), Cap(3, "KVM_CAP_USER_MEMORY", true), Cap(4, "KVM_CAP_SET_TSS_ADDR", true),
    Cap(7, "KVM_CAP_EXT_CPUID", true), Cap(14, "KVM_CAP_MP_STATE", true), Cap(32, "KVM_CAP_IRQFD", true),
    Cap(33, "KVM_CAP_PIT2", true), Cap(35, "KVM_CAP_PIT_STATE2", true), Cap(36, "KVM_CAP_IOEVENTFD", true),
    Cap(39, "KVM_CAP_ADJUST_CLOCK", true), Cap(41, "KVM_CAP_VCPU_EVENTS", true), Cap(50, "KVM_CAP_DEBUGREGS", true),
    Cap(55, "KVM_CAP_XSAVE", true), Cap(56, "KVM_CAP_XCRS", true),
    Cap(136, "KVM_CAP_IMMEDIATE_EXIT", false), Cap(143, "KVM_CAP_X86_DISABLE_EXITS", false),
    Cap(105, "KVM_CAP_CHECK_EXTENSION_VM", false)]

  const ARM64_CAPS: seq<Cap> := [
    Cap(3, "KVM_CAP_USER_MEMORY", true), Cap(14, "KVM_CAP_MP_STATE", true), Cap(32, "KVM_CAP_IRQFD", true),
    Cap(36, "KVM_CAP_IOEVENTFD", true), Cap(70, "KVM_CAP_ONE_REG", true), Cap(89, "KVM_CAP_DEVICE_CTRL", true),
    Cap(102, "KVM_CAP_ARM_PSCI_0_2", true),
    Cap(136, "KVM_CAP_IMMEDIATE_EXIT", false), Cap(165, "KVM_CAP_ARM_VM_IPA_SIZE", false)]

  const SIZING_CAPS: seq<Cap> := [
    Cap(9, "KVM_CAP_NR_VCPUS", false), Cap(66, "KVM_CAP_MAX_VCPUS", false), Cap(10, "KVM_CAP_NR_MEMSLOTS", false)]

  datatype Arch = Amd64 | Arm64 | OtherArch

  datatype Stat = Missing | NotCharDevice | CharDevice

  datatype Open = Opened | Denied | OtherFailure

  /** The reply to an ioctl. */
  datatype Reply = Value(v: nat) | Errno

  /** A host: how it answers everything the check asks. */
  datatype KvmEnv = KvmEnv(
    arch: Arch, stat: Stat, open: Open, root: bool, apiVersion: Reply, extension: nat -> Reply,
    mmapSize: Reply, createVM: bool, createVCPU: bool)

  function CapsOf(arch: Arch): seq<Cap> {
    match arch
    case Amd64 => AMD64_CAPS
    case Arm64 => ARM64_CAPS
    case OtherArch => []
  }

  // ----- what the check decides -----

  predicate Present(env: KvmEnv, c: Cap) {
    env.extension(c.num).Value? && env.extension(c.num).v != 0
  }

  /** Firecracker can run: the device opens, speaks API version 12, offers every
      required capability, and hands out a VM and a vCPU. */
  predicate Usable(env: KvmEnv) {
    && env.arch != OtherArch && env.stat == CharDevice && env.open == Opened
    && env.apiVersion == Value(STABLE_API_VERSION)
    && (forall c :: c in CapsOf(env.arch) && c.required ==> Present(env, c))
    && env.createVM && env.createVCPU
  }

  /** The device is there, but this user may not open it: the check cannot be
      carried out, which says nothing about the host. */
  predicate Refused(env: KvmEnv) {
    env.arch != OtherArch && env.stat == CharDevice && env.open == Denied && !env.root
  }

  // ----- what the check reports -----

  /** Names of the required capabilities that are missing, in table order. */
  function MissingCaps(env: KvmEnv, caps: seq<Cap>): seq<string> {
    if caps == [] then []
    else
      var last := caps[|caps| - 1];
      MissingCaps(env, caps[..|caps| - 1]) + (if last.required && !Present(env, last) then [last.name] else [])
  }

  /** A warning for each optional capability that is missing. */
  function CapWarnings(env: KvmEnv, caps: seq<Cap>): seq<Finding> {
    if caps == [] then []
    else
      var last := caps[|caps| - 1];
      CapWarnings(env, caps[..|caps| - 1])
      + (if !last.required && !Present(env, last) then [Plain("kvm.cap." + last.name, Warn)] else [])
  }

  function CountRequired(caps: seq<Cap>): nat {
    if caps == [] then 0
    else CountRequired(caps[..|caps| - 1]) + (if caps[|caps| - 1].required then 1 else 0)
  }

  function CapVerdict(env: KvmEnv): Finding {
    var missing := MissingCaps(env, CapsOf(env.arch));
    if missing != [] then Noted("kvm.caps.required", Fail, missing)
    else Noted("kvm.caps.required", Pass, [Decimal(CountRequired(CapsOf(env.arch)))])
  }

  function Sizing(env: KvmEnv, caps: seq<Cap>): seq<Finding> {
    if caps == [] then []
    else
      var last := caps[|caps| - 1];
      Sizing(env, caps[..|caps| - 1])
      + (if env.extension(last.num).Value? then [Plain("kvm.sizing." + last.name, Info)] else [])
  }

  function Creation(env: KvmEnv): seq<Finding> {
    if !env.createVM then [Plain("kvm.create_vm", Fail)]
    else [Plain("kvm.create_vm", Pass), Plain("kvm.create_vcpu", if env.createVCPU then Pass else Fail)]
  }

  function AfterVersion(env: KvmEnv): seq<Finding> {
    CapWarnings(env, CapsOf(env.arch)) + [CapVerdict(env)] + Sizing(env, SIZING_CAPS)
    + (if env.mmapSize.Value? then [Plain("kvm.vcpu_mmap_size", Info)] else [])
    + Creation(env)
  }

  function AfterOpen(env: KvmEnv): seq<Finding> {
    if env.apiVersion != Value(STABLE_API_VERSION) then [Plain("kvm.api_version", Fail)]
    else [Plain("kvm.api_version", Pass)] + AfterVersion(env)
  }

  function KvmFindings(env: KvmEnv): seq<Finding> {
    if env.arch == OtherArch then [Plain("kvm.arch", Fail)]
    else if env.stat != CharDevice then [Plain("kvm.device", Fail)]
    else if env.open == Denied && !env.root then [Plain("kvm.device", Pass), Plain("kvm.open", Blocked)]
    else if env.open != Opened then [Plain("kvm.device", Pass), Plain("kvm.open", Fail)]
    else [Plain("kvm.device", Pass), Plain("kvm.open", Pass)] + AfterOpen(env)
  }

  // ----- the check -----

  /** File descriptors held by the process. An ioctl needs an open one, and an
      open one can be closed once. */
  class Descriptors {
    var open: set<nat>
    var next: nat

    ghost predicate Valid()
      reads this
    {
      forall fd :: fd in open ==> fd < next
    }

    constructor ()
      ensures Valid() && open == {}
    {
      open, next := {}, 0;
    }

    method Open() returns (fd: nat)
      requires Valid()
      modifies this
      ensures Valid() && fd !in old(open) && open == old(open) + {fd}
    {
      fd := next;
      open, next := open + {fd}, next + 1;
    }

    method Close(fd: nat)
      requires Valid() && fd in open
      modifies this
      ensures Valid() && open == old(open) - {fd}
    {
      open := open - {fd};
    }

    method Ioctl(fd: nat, answer: Reply) returns (r: Reply)
      requires fd in open
      ensures r == answer
    {
      r := answer;
    }
  }

  method CountRequiredCaps(caps: seq<Cap>) returns (n: nat)
    ensures n == CountRequired(caps)
  {
    n := 0;
    for i := 0 to |caps|
      invariant n == CountRequired(caps[..i])
    {
      assert caps[..i + 1][..i] == caps[..i];
      if caps[i].required {
        n := n + 1;
      }
    }
    assert caps[..|caps|] == caps;
  }

  method QueryCaps(r: Report, d: Descriptors, kvm: nat, env: KvmEnv)
    requires d.Valid() && kvm in d.open
    modifies r
    ensures r.results == old(r.results) + CapWarnings(env, CapsOf(env.arch)) + [CapVerdict(env)]
  {
    var caps := CapsOf(env.arch);
    hide CapsOf;
    var missing := [];
    for i := 0 to |caps|
      invariant missing == MissingCaps(env, caps[..i])
      invariant r.results == old(r.results) + CapWarnings(env, caps[..i])
    {
      var c := caps[i];
      assert caps[..i + 1][..i] == caps[..i];
      var reply := d.Ioctl(kvm, env.extension(c.num));
      var v := if reply.Value? then reply.v else 0;
      if v != 0 {
      } else if c.required {
        missing := missing + [c.name];
      } else {
        r.Add(Plain("kvm.cap." + c.name, Warn));
      }
    }
    assert caps[..|caps|] == caps;
    if |missing| > 0 {
      r.Add(Noted("kvm.caps.required", Fail, missing));
    } else {
      var n := CountRequiredCaps(caps);
      r.Add(Noted("kvm.caps.required", Pass, [Decimal(n)]));
    }
  }

  method QuerySizes(r: Report, d: Descriptors, kvm: nat, env: KvmEnv)
    requires d.Valid() && kvm in d.open
    modifies r
    ensures r.results == old(r.results) + Sizing(env, SIZING_CAPS)
      + (if env.mmapSize.Value? then [Plain("kvm.vcpu_mmap_size", Info)] else [])
  {
    var caps := SIZING_CAPS;
    hide SIZING_CAPS;
    for i := 0 to |caps|
      invariant r.results == old(r.results) + Sizing(env, caps[..i])
    {
      assert caps[..i + 1][..i] == caps[..i];
      var reply := d.Ioctl(kvm, env.extension(caps[i].num));
      if reply.Errno? {
        continue;
      }
      r.Add(Plain("kvm.sizing." + caps[i].name, Info));
    }
    assert caps[..|caps|] == caps;
    var size := d.Ioctl(kvm, env.mmapSize);
    if size.Value? {
      r.Add(Plain("kvm.vcpu_mmap_size", Info));
    }
  }

  /** Creates a VM and a vCPU; what it opens it closes. */
  method TryCreate(r: Report, d: Descriptors, kvm: nat, env: KvmEnv)
    requires d.Valid() && kvm in d.open
    modifies r, d
    ensures d.Valid() && d.open == old(d.open)
    ensures r.results == old(r.results) + Creation(env)
  {
    var created := d.Ioctl(kvm, if env.createVM then Value(0) else Errno);
    if created.Errno? {
      r.Add(Plain("kvm.create_vm", Fail));
      return;
    }
    var vm := d.Open();
    r.Add(Plain("kvm.create_vm", Pass));
    var reply := d.Ioctl(vm, if env.createVCPU then Value(0) else Errno);
    if reply.Errno? {
      r.Add(Plain("kvm.create_vcpu", Fail));
      d.Close(vm);
      return;
    }
    var vcpu := d.Open();
    d.Close(vcpu);
    r.Add(Plain("kvm.create_vcpu", Pass));
    d.Close(vm);
  }

  /** Everything the check asks of the open device. */
  method CheckOpened(r: Report, d: Descriptors, kvm: nat, env: KvmEnv)
    requires d.Valid() && kvm in d.open
    modifies r, d
    ensures d.Valid() && d.open == old(d.open)
    ensures r.results == old(r.results) + AfterOpen(env)
  {
    hide CapsOf, CapWarnings, CapVerdict, Sizing, Creation;
    var version := d.Ioctl(kvm, env.apiVersion);
    if version.Errno? || version.v != STABLE_API_VERSION {
      r.Add(Plain("kvm.api_version", Fail));
      return;
    }
    r.Add(Plain("kvm.api_version", Pass));
    QueryCaps(r, d, kvm, env);
    QuerySizes(r, d, kvm, env);
    TryCreate(r, d, kvm, env);
  }

  /** The whole check: appends its findings and leaves no descriptor open, on
      every path. */
  method CheckKVM(r: Report, d: Descriptors, env: KvmEnv)
    requires d.Valid()
    modifies r, d
    ensures d.Valid() && d.open == old(d.open)
    ensures r.results == old(r.results) + KvmFindings(env)
  {
    hide AfterOpen;
    if env.arch == OtherArch {
      r.Add(Plain("kvm.arch", Fail));
      return;
    }
    if env.stat == Missing {
      r.Add(Plain("kvm.device", Fail));
      return;
    }
    if env.stat == NotCharDevice {
      r.Add(Plain("kvm.device", Fail));
      return;
    }
    r.Add(Plain("kvm.device", Pass));
    if env.open != Opened {
      if env.open == Denied && !env.root {
        r.Add(Plain("kvm.open", Blocked));
      } else {
        r.Add(Plain("kvm.open", Fail));
      }
      return;
    }
    var kvm := d.Open();
    r.Add(Plain("kvm.open", Pass));
    CheckOpened(r, d, kvm, env);
    d.Close(kvm);
  }

  // ----- the gate -----

  predicate GatingId(id: string) {
    || id == "kvm.device" || id == "kvm.open" || id == "kvm.api_version" || id == "kvm.caps.required"
    || id == "kvm.create_vm" || id == "kvm.create_vcpu" || id == "host.cpu_virt"
  }

  predicate Adverse(f: Finding) {
    f.status == Fail || f.status == Blocked
  }

  /** hasBlockingKVMFailure. */
  predicate HasBlockingKVMFailure(rs: seq<Finding>) {
    exists k | 0 <= k < |rs| :: Adverse(rs[k]) && GatingId(rs[k].id)
  }

  /** Every adverse finding is one the gate recognises. */
  predicate Gated(rs: seq<Finding>) {
    forall k :: 0 <= k < |rs| && Adverse(rs[k]) ==> GatingId(rs[k].id)
  }

  predicate Unblocked(rs: seq<Finding>) {
    forall k :: 0 <= k < |rs| ==> rs[k].status != Blocked
  }

  predicate Harmless(rs: seq<Finding>) {
    forall k :: 0 <= k < |rs| ==> !Adverse(rs[k])
  }

  lemma {:induction false} SideFindingsHarmless(env: KvmEnv, caps: seq<Cap>)
    ensures Harmless(CapWarnings(env, caps)) && Harmless(Sizing(env, caps))
  {
    if caps != [] {
      SideFindingsHarmless(env, caps[..|caps| - 1]);
    }
  }

  /** The names reported missing are exactly those of the required capabilities
      that the host does not have, and there is exactly a warning for each
      optional one. */
  lemma {:induction false} CapsReported(env: KvmEnv, caps: seq<Cap>)
    ensures forall name :: name in MissingCaps(env, caps) <==>
      exists c :: c in caps && c.required && !Present(env, c) && c.name == name
    ensures forall f :: f in CapWarnings(env, caps) <==>
      exists c :: c in caps && !c.required && !Present(env, c) && f == Plain("kvm.cap." + c.name, Warn)
  {
    hide Present;
    if caps != [] {
      var front, last := caps[..|caps| - 1], caps[|caps| - 1];
      assert caps == front + [last];
      CapsReported(env, front);
      assert forall c :: c in caps <==> c in front || c == last;
    }
  }

  lemma {:induction false} NoneMissingIff(env: KvmEnv, caps: seq<Cap>)
    ensures MissingCaps(env, caps) == [] <==> forall c :: c in caps && c.required ==> Present(env, c)
  {
    if caps != [] {
      var front, last := caps[..|caps| - 1], caps[|caps| - 1];
      assert caps == front + [last];
      NoneMissingIff(env, front);
    }
  }

  lemma {:induction false} HarmlessJoin(a: seq<Finding>, b: seq<Finding>)
    ensures Harmless(a + b) <==> Harmless(a) && Harmless(b)
    ensures Gated(a + b) <==> Gated(a) && Gated(b)
    ensures Unblocked(a + b) <==> Unblocked(a) && Unblocked(b)
  {
    assert forall k :: 0 <= k < |a| ==> (a + b)[k] == a[k];
    assert forall k :: 0 <= k < |b| ==> (a + b)[|a| + k] == b[k];
  }

  lemma {:induction false} One(f: Finding)
    ensures Harmless([f]) <==> !Adverse(f)
    ensures Gated([f]) <==> (Adverse(f) ==> GatingId(f.id))
    ensures Unblocked([f]) <==> f.status != Blocked
  {
    assert [f][0] == f;
  }

  lemma {:induction false} CreationGated(env: KvmEnv)
    ensures Gated(Creation(env)) && Unblocked(Creation(env))
    ensures Harmless(Creation(env)) <==> env.createVM && env.createVCPU
  {
    var vcpu := Plain("kvm.create_vcpu", if env.createVCPU then Pass else Fail);
    One(Plain("kvm.create_vm", Fail));
    One(Plain("kvm.create_vm", Pass));
    One(vcpu);
    HarmlessJoin([Plain("kvm.create_vm", Pass)], [vcpu]);
    hide Harmless, Gated, Unblocked;
    assert env.createVM ==> Creation(env) == [Plain("kvm.create_vm", Pass)] + [vcpu];
  }

  lemma {:induction false} AfterVersionGated(env: KvmEnv)
    ensures Gated(AfterVersion(env)) && Unblocked(AfterVersion(env))
    ensures Harmless(AfterVersion(env)) <==>
      (forall c :: c in CapsOf(env.arch) && c.required ==> Present(env, c)) && env.createVM && env.createVCPU
  {
    var caps := CapsOf(env.arch);
    hide CapsOf;
    var a, b, c := CapWarnings(env, caps), [CapVerdict(env)], Sizing(env, SIZING_CAPS);
    var d := if env.mmapSize.Value? then [Plain("kvm.vcpu_mmap_size", Info)] else [];
    SideFindingsHarmless(env, caps);
    SideFindingsHarmless(env, SIZING_CAPS);
    NoneMissingIff(env, caps);
    CreationGated(env);
    One(CapVerdict(env));
    One(Plain("kvm.vcpu_mmap_size", Info));
    assert Harmless(d) && Gated(a) && Gated(c) && Gated(d) && Unblocked(a) && Unblocked(c) && Unblocked(d);
    hide Creation, CapWarnings, Sizing, MissingCaps, Present, SIZING_CAPS;
    HarmlessJoin(a, b);
    HarmlessJoin(a + b, c);
    HarmlessJoin(a + b + c, d);
    HarmlessJoin(a + b + c + d, Creation(env));
    hide Harmless, Gated, Unblocked;
  }

  lemma {:induction false} KvmFindingsGated(env: KvmEnv)
    ensures Gated(KvmFindings(env)) <==> env.arch != OtherArch
    ensures Unblocked(KvmFindings(env)) <==> !Refused(env)
    ensures Harmless(KvmFindings(env)) <==> Usable(env)
  {
    AfterVersionGated(env);
    One(Plain("kvm.arch", Fail));
    One(Plain("kvm.device", Fail));
    One(Plain("kvm.device", Pass));
    One(Plain("kvm.open", Blocked));
    One(Plain("kvm.open", Fail));
    One(Plain("kvm.open", Pass));
    One(Plain("kvm.api_version", Fail));
    One(Plain("kvm.api_version", Pass));
    var device := [Plain("kvm.device", Pass)];
    HarmlessJoin(device, [Plain("kvm.open", Blocked)]);
    HarmlessJoin(device, [Plain("kvm.open", Fail)]);
    HarmlessJoin(device, [Plain("kvm.open", Pass)]);
    HarmlessJoin(device + [Plain("kvm.open", Pass)], AfterOpen(env));
    HarmlessJoin([Plain("kvm.api_version", Pass)], AfterVersion(env));
    hide Harmless, Gated, Unblocked, AfterVersion, CapsOf, Present;
    assert [Plain("kvm.device", Pass), Plain("kvm.open", Blocked)] == device + [Plain("kvm.open", Blocked)];
    assert [Plain("kvm.device", Pass), Plain("kvm.open", Fail)] == device + [Plain("kvm.open", Fail)];
    assert [Plain("kvm.device", Pass), Plain("kvm.open", Pass)] == device + [Plain("kvm.open", Pass)];
  }

  lemma {:induction false} RefusedFindings(env: KvmEnv)
    requires Refused(env)
    ensures Verdict(KvmFindings(env)) == Blocked
  {
    var fs := KvmFindings(env);
    assert fs == [Plain("kvm.device", Pass), Plain("kvm.open", Blocked)];
    assert fs[1].status == Blocked;
    hide KvmFindings;
  }

  lemma {:induction false} UnblockedVerdict(fs: seq<Finding>)
    requires Unblocked(fs)
    ensures Verdict(fs) == if Harmless(fs) then Pass else Fail
  {
    if !Harmless(fs) {
      var k :| 0 <= k < |fs| && Adverse(fs[k]);
      assert fs[k].status == Fail;
    }
  }

  /** The verdict on every host: it passes where Firecracker can run, is blocked
      exactly where the user was refused, and fails everywhere else. */
  lemma {:induction false} KvmVerdict(env: KvmEnv)
    ensures Verdict(KvmFindings(env)) == if Usable(env) then Pass else if Refused(env) then Blocked else Fail
  {
    KvmFindingsGated(env);
    if Refused(env) {
      RefusedFindings(env);
    } else {
      UnblockedVerdict(KvmFindings(env));
    }
    hide Usable, KvmFindings, Gated, Unblocked, Harmless, Verdict;
  }

  /** Completeness of the gate: on the supported architectures, on every host,
      it stops the boot stage exactly when Firecracker cannot run, and each
      adverse finding is one it recognises. */
  lemma {:induction false} GateComplete(env: KvmEnv)
    requires env.arch != OtherArch
    ensures HasBlockingKVMFailure(KvmFindings(env)) <==> !Usable(env)
    ensures Gated(KvmFindings(env))
    ensures Verdict(KvmFindings(env)) == Pass <==> Usable(env)
  {
    hide Usable, KvmFindings, GatingId;
    KvmFindingsGated(env);
  }

  /** On any other architecture the failure is not one the gate looks for. */
  lemma {:induction false} UnsupportedArchPassesGate(env: KvmEnv)
    requires env.arch == OtherArch
    ensures Verdict(KvmFindings(env)) == Fail && !HasBlockingKVMFailure(KvmFindings(env))
  {
    assert KvmFindings(env)[0].status == Fail && KvmFindings(env)[0].id == "kvm.arch";
  }

  lemma {:induction false} CountSplit(caps: seq<Cap>, n: nat)
    requires n <= |caps|
    requires forall k :: 0 <= k < |caps| ==> (caps[k].required <==> k < n)
    ensures CountRequired(caps) == n
  {
    if caps != [] {
      CountSplit(caps[..|caps| - 1], if n == |caps| then n - 1 else n);
    }
  }

  /** Firecracker's lists: fourteen required on x86_64, seven on aarch64. */
  lemma {:induction false} RequiredCounts()
    ensures CountRequired(AMD64_CAPS) == 14 && CountRequired(ARM64_CAPS) == 7
  {
    CountSplit(AMD64_CAPS, 14);
    CountSplit(ARM64_CAPS, 7);
  }
}
