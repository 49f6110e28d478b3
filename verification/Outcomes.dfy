/** What one VM's run leaves behind, and how judgeOutcomes turns the runs into
    results. */
module Outcomes {
  import opened Wrappers
  import opened Numerals
  import opened Console
  import opened Reports

  datatype VmOutcome = VmOutcome(
    index: nat, bootMS: real, totalMS: real, guest: Option<GuestReport>, err: string,
    console: seq<string>, exitCode: int)

  // ----- one VM -----

  /** Everything bootOne learns from the world: for each step, the error it may
      return, and what the VM printed if it was started. */
  datatype BootEnv = BootEnv(
    tap: Option<string>, echo: Option<string>, scratch: Option<string>, truncate: Option<string>,
    config: Option<string>, pipe: Option<string>, start: Option<string>,
    lines: seq<string>, deadlineExceeded: bool, bootTimeout: nat, totalMS: real, exitCode: int)

  /** The steps before launch, in order, with the prefix of their messages. */
  function Preparation(env: BootEnv): seq<(string, Option<string>)> {
    [("tap setup: ", env.tap), ("echo server: ", env.echo), ("scratch disk: ", env.scratch),
     ("scratch disk truncate: ", env.truncate), ("write config: ", env.config),
     ("stdout pipe: ", env.pipe), ("start firecracker: ", env.start)]
  }

  predicate Launched(env: BootEnv) {
    forall k :: 0 <= k < |Preparation(env)| ==> Preparation(env)[k].1 == None
  }

  function NoReport(env: BootEnv): string {
    if env.deadlineExceeded then "timed out after " + Decimal(env.bootTimeout) + "s with no report from the guest"
    else "guest produced no report"
  }

  /** A run is accounted for: it has a report or says why not. */
  predicate Accounted(o: VmOutcome) {
    o.guest.Some? || o.err != ""
  }

  predicate Failed(o: VmOutcome) {
    o.err != "" || o.guest.None?
  }

  /** The first preparation step that failed, and its message. */
  predicate FirstError(env: BootEnv, k: nat, err: string) {
    var steps := Preparation(env);
    && k < |steps| && steps[k].1.Some? && err == steps[k].0 + steps[k].1.value
    && forall j :: 0 <= j < k ==> steps[j].1 == None
  }

  /** What a run may return: its own index, and a report or a reason. A run that
      was not launched carries the first error; a launched one has no error
      exactly if some line decoded as a report and every line that carried one
      did. */
  ghost predicate OutcomeOf(i: nat, env: BootEnv, decode: Decoder, out: VmOutcome) {
    && out.index == i
    && Accounted(out)
    && (!Launched(env) ==> out.guest == None && out.console == [] && exists k :: FirstError(env, k, out.err))
    && (Launched(env) ==>
          && out.console == Last(env.lines, TAIL_LINES)
          && out.guest == LastReport(env.lines, decode)
          && out.exitCode == env.exitCode && out.totalMS == env.totalMS
          && (out.guest.Some? ==> out.bootMS == out.guest.value.uptimeAtStart * 1000.0)
          && (out.err == if out.guest == None && LastComplaint(env.lines, decode) == "" then NoReport(env)
                         else LastComplaint(env.lines, decode))
          && (out.err == "" <==> CleanConsole(env.lines, decode)))
  }

  ghost predicate CleanConsole(lines: seq<string>, decode: Decoder) {
    && (exists k :: 0 <= k < |lines| && Decodes(lines[k], decode))
    && (forall k :: 0 <= k < |lines| ==> !Garbles(lines[k], decode))
  }

  /** A VM that was launched and only ever reported cleanly. */
  ghost predicate CleanRun(env: BootEnv, decode: Decoder) {
    Launched(env) && CleanConsole(env.lines, decode)
  }

  /** An accounted outcome is free of failure exactly for a clean run. */
  lemma {:induction false} CleanRunIff(i: nat, env: BootEnv, decode: Decoder, out: VmOutcome)
    requires OutcomeOf(i, env, decode, out)
    ensures !Failed(out) <==> CleanRun(env, decode)
  {
    hide Decodes, Garbles;
    ReportIff(env.lines, decode);
    if !Launched(env) {
      assert Preparation(env)[0].0 != "";
    }
  }

  lemma {:induction false} FirstErrorAt(env: BootEnv, k: nat, err: string)
    requires FirstError(env, k, err)
    ensures k == if env.tap.Some? then 0 else if env.echo.Some? then 1 else if env.scratch.Some? then 2
                 else if env.truncate.Some? then 3 else if env.config.Some? then 4 else if env.pipe.Some? then 5 else 6
    ensures k == 6 ==> env.start.Some?
  {
    var steps := Preparation(env);
    assert steps[0].1 == env.tap && steps[1].1 == env.echo && steps[2].1 == env.scratch;
    assert steps[3].1 == env.truncate && steps[4].1 == env.config && steps[5].1 == env.pipe;
  }

  lemma {:induction false} LaunchedIff(env: BootEnv)
    ensures Launched(env) <==>
      && env.tap.None? && env.echo.None? && env.scratch.None? && env.truncate.None?
      && env.config.None? && env.pipe.None? && env.start.None?
  {
    var steps := Preparation(env);
    assert steps[0].1 == env.tap && steps[1].1 == env.echo && steps[2].1 == env.scratch;
    assert steps[3].1 == env.truncate && steps[4].1 == env.config && steps[5].1 == env.pipe;
    assert steps[6].1 == env.start;
  }

  /** Nothing in the console carries a report. */
  predicate Silent(lines: seq<string>, decode: Decoder) {
    forall k :: 0 <= k < |lines| ==> !Decodes(lines[k], decode) && !Garbles(lines[k], decode)
  }

  /** The first step that fails names the error, and a guest that says nothing is
      reported as timed out exactly if the deadline had passed. */
  lemma {:induction false} ErrorNamed(i: nat, env: BootEnv, decode: Decoder, out: VmOutcome)
    requires OutcomeOf(i, env, decode, out)
    ensures
      if env.tap.Some? then out.err == "tap setup: " + env.tap.value
      else if env.echo.Some? then out.err == "echo server: " + env.echo.value
      else if env.scratch.Some? then out.err == "scratch disk: " + env.scratch.value
      else if env.truncate.Some? then out.err == "scratch disk truncate: " + env.truncate.value
      else if env.config.Some? then out.err == "write config: " + env.config.value
      else if env.pipe.Some? then out.err == "stdout pipe: " + env.pipe.value
      else if env.start.Some? then out.err == "start firecracker: " + env.start.value
      else Silent(env.lines, decode) ==>
        out.err == (if env.deadlineExceeded
                    then "timed out after " + Decimal(env.bootTimeout) + "s with no report from the guest"
                    else "guest produced no report")
  {
    hide Decodes, Garbles, LastReport, LastComplaint, Decimal;
    ReportIff(env.lines, decode);
    LaunchedIff(env);
    hide Launched;
    if !Launched(env) {
      var k :| FirstError(env, k, out.err);
      FirstErrorAt(env, k, out.err);
    }
  }

  method BootOne(i: nat, env: BootEnv, decode: Decoder) returns (out: VmOutcome)
    ensures OutcomeOf(i, env, decode, out)
  {
    hide Decodes, Garbles, LastReport, LastComplaint;
    out := VmOutcome(i, 0.0, 0.0, None, "", [], 0);
    if env.tap.Some? {
      out := out.(err := "tap setup: " + env.tap.value);
      assert FirstError(env, 0, out.err);
      return;
    }
    if env.echo.Some? {
      out := out.(err := "echo server: " + env.echo.value);
      assert FirstError(env, 1, out.err);
      return;
    }
    if env.scratch.Some? {
      out := out.(err := "scratch disk: " + env.scratch.value);
      assert FirstError(env, 2, out.err);
      return;
    }
    if env.truncate.Some? {
      out := out.(err := "scratch disk truncate: " + env.truncate.value);
      assert FirstError(env, 3, out.err);
      return;
    }
    if env.config.Some? {
      out := out.(err := "write config: " + env.config.value);
      assert FirstError(env, 4, out.err);
      return;
    }
    if env.pipe.Some? {
      out := out.(err := "stdout pipe: " + env.pipe.value);
      assert FirstError(env, 5, out.err);
      return;
    }
    if env.start.Some? {
      out := out.(err := "start firecracker: " + env.start.value);
      assert FirstError(env, 6, out.err);
      return;
    }
    assert Launched(env);
    ReportIff(env.lines, decode);
    var tail, guest, bootMS, err := ReadConsole(env.lines, decode, NoReport(env));
    return VmOutcome(i, bootMS, env.totalMS, guest, err, tail, env.exitCode);
  }

  // ----- statistics -----

  /** Floating point with its infinities, over exact numbers. */
  datatype Extended = NegInf | Finite(value: real) | PosInf

  predicate Leq(a: Extended, b: Extended) {
    a == NegInf || b == PosInf || (a.Finite? && b.Finite? && a.value <= b.value)
  }

  function MinOf(a: Extended, b: Extended): Extended {
    if Leq(a, b) then a else b
  }

  function MaxOf(a: Extended, b: Extended): Extended {
    if Leq(a, b) then b else a
  }

  function Sum(vs: seq<real>): real {
    if vs == [] then 0.0 else Sum(vs[..|vs| - 1]) + vs[|vs| - 1]
  }

  predicate SpreadOf(s: Spread, vs: seq<real>) {
    && s.mean * (|vs| as real) == Sum(vs)
    && s.lo in vs && s.hi in vs
    && (forall v :: v in vs ==> s.lo <= v <= s.hi)
    && s.lo <= s.mean <= s.hi
  }

  lemma {:induction false} SumBetween(vs: seq<real>, lo: real, hi: real)
    requires forall v :: v in vs ==> lo <= v <= hi
    ensures lo * (|vs| as real) <= Sum(vs) <= hi * (|vs| as real)
  {
    if vs != [] {
      var front := vs[..|vs| - 1];
      forall v | v in front ensures v in vs {}
      SumBetween(front, lo, hi);
      assert |vs| as real == |front| as real + 1.0;
      assert lo * (|vs| as real) == lo * (|front| as real) + lo;
      assert hi * (|vs| as real) == hi * (|front| as real) + hi;
      assert vs[|vs| - 1] in vs;
    }
  }

  lemma {:induction false} Cancel(a: real, b: real, c: real)
    requires c > 0.0 && a * c <= b * c
    ensures a <= b
  {
    assert (b - a) * c >= 0.0;
  }

  lemma {:induction false} MeanBetween(sum: real, n: nat, lo: real, hi: real)
    requires n > 0 && lo * (n as real) <= sum <= hi * (n as real)
    ensures lo <= sum / (n as real) <= hi
    ensures sum / (n as real) * (n as real) == sum
  {
    var m := sum / (n as real);
    assert m * (n as real) == sum;
    Cancel(lo, m, n as real);
    Cancel(m, hi, n as real);
  }

  /** `lo` and `hi` are the extremes of the values seen so far. */
  predicate Extremes(lo: Extended, hi: Extended, vs: seq<real>) {
    && (vs == [] ==> lo == PosInf && hi == NegInf)
    && (vs != [] ==> lo.Finite? && hi.Finite? && lo.value in vs && hi.value in vs
                     && forall v :: v in vs ==> lo.value <= v <= hi.value)
  }

  lemma {:induction false} ExtremesAppend(lo: Extended, hi: Extended, vs: seq<real>, v: real)
    requires Extremes(lo, hi, vs)
    ensures Extremes(MinOf(lo, Finite(v)), MaxOf(hi, Finite(v)), vs + [v])
  {
    assert v in vs + [v];
    assert forall w :: w in vs + [v] <==> w in vs || w == v;
  }

  lemma {:induction false} SameMean(mean: real, sum: real, n: real)
    requires n > 0.0 && mean * n == sum
    ensures mean == sum / n
  {
  }

  lemma {:induction false} MeanInRange(vs: seq<real>, lo: real, hi: real)
    requires vs != [] && lo in vs && hi in vs && forall v :: v in vs ==> lo <= v <= hi
    ensures SpreadOf(Spread(Sum(vs) / (|vs| as real), lo, hi), vs)
  {
    hide Sum;
    SumBetween(vs, lo, hi);
    MeanBetween(Sum(vs), |vs|, lo, hi);
  }

  function Least(vs: seq<real>): (lo: real)
    requires vs != []
    ensures lo in vs && forall v :: v in vs ==> lo <= v
  {
    if |vs| == 1 then vs[0]
    else
      assert vs == [vs[0]] + vs[1..];
      var rest := Least(vs[1..]);
      if vs[0] <= rest then vs[0] else rest
  }

  function Greatest(vs: seq<real>): (hi: real)
    requires vs != []
    ensures hi in vs && forall v :: v in vs ==> v <= hi
  {
    if |vs| == 1 then vs[0]
    else
      assert vs == [vs[0]] + vs[1..];
      var rest := Greatest(vs[1..]);
      if vs[0] >= rest then vs[0] else rest
  }

  function SpreadOver(vs: seq<real>): Spread
    requires vs != []
  {
    Spread(Sum(vs) / (|vs| as real), Least(vs), Greatest(vs))
  }

  /** The mean and the range are determined by what they mean. */
  lemma {:induction false} SpreadIff(s: Spread, vs: seq<real>)
    requires vs != []
    ensures SpreadOf(s, vs) <==> s == SpreadOver(vs)
  {
    MeanInRange(vs, Least(vs), Greatest(vs));
    hide Sum;
    if SpreadOf(s, vs) {
      SameMean(s.mean, Sum(vs), |vs| as real);
      assert s.lo == Least(vs) && s.hi == Greatest(vs);
    }
  }

  method Stat(vs: seq<real>) returns (s: Spread)
    requires vs != []
    ensures SpreadOf(s, vs) && s == SpreadOver(vs)
  {
    hide SpreadOf, SpreadOver, MinOf, MaxOf;
    var lo, hi := PosInf, NegInf;
    var sum := 0.0;
    for i := 0 to |vs|
      invariant sum == Sum(vs[..i])
      invariant Extremes(lo, hi, vs[..i])
    {
      hide Extremes;
      assert vs[..i + 1][..i] == vs[..i];
      assert vs[..i + 1] == vs[..i] + [vs[i]];
      ExtremesAppend(lo, hi, vs[..i], vs[i]);
      sum := sum + vs[i];
      lo := MinOf(lo, Finite(vs[i]));
      hi := MaxOf(hi, Finite(vs[i]));
    }
    assert vs[..|vs|] == vs;
    MeanInRange(vs, lo.value, hi.value);
    s := Spread(sum / (|vs| as real), lo.value, hi.value);
    SpreadIff(s, vs);
  }

  // ----- judgement -----

  function VmLine(o: VmOutcome): string {
    "vm" + Decimal(o.index) + ": " + o.err
  }

  /** A failing VM's entry: its error, then its console. */
  function Entry(o: VmOutcome): seq<string> {
    [VmLine(o)]
    + (if o.console == [] then []
       else ["  last console lines:"] + seq(|o.console|, k requires 0 <= k < |o.console| => "    " + o.console[k]))
  }

  function Entries(os: seq<VmOutcome>): seq<string> {
    if os == [] then []
    else
      var last := os[|os| - 1];
      Entries(os[..|os| - 1]) + (if last.err == "" then [] else Entry(last))
  }

  /** Stands for the advice that goes with a diagnosis; the source's wording
      is not modelled. */
  function Advice(diagnosis: Option<nat>): string
    requires diagnosis.Some? ==> diagnosis.value < |SIGNATURES|
  {
    match diagnosis
    case Some(k) => SIGNATURES[k]
    case None => "read the console tail"
  }

  /** The diagnosis of the first VM whose console shows a known failure. */
  function FirstDiagnosis(os: seq<VmOutcome>): (d: Option<nat>)
    ensures d.Some? ==> d.value < |SIGNATURES|
  {
    if os == [] then None
    else if DiagnoseConsole(os[0].console).Some? then DiagnoseConsole(os[0].console)
    else FirstDiagnosis(os[1..])
  }

  /** The positions of the runs that failed. */
  function FailedAt(os: seq<VmOutcome>): set<nat> {
    set k | 0 <= k < |os| && Failed(os[k])
  }

  predicate AnyFailed(os: seq<VmOutcome>) {
    exists k | 0 <= k < |os| :: Failed(os[k])
  }

  function Ratio(k: nat, n: nat): string {
    Decimal(k) + " of " + Decimal(n)
  }

  predicate AllReported(os: seq<VmOutcome>) {
    forall k :: 0 <= k < |os| ==> os[k].guest.Some? && os[k].err == ""
  }

  predicate HasDriver(g: GuestReport, driver: string) {
    exists d | d in g.virtioDevices :: g.virtioDevices[d] == driver
  }

  predicate DevicesBound(g: GuestReport) {
    HasDriver(g, "virtio_blk") && HasDriver(g, "virtio_net")
  }

  /** The network errors, in VM order. */
  function NetErrors(os: seq<VmOutcome>): seq<string>
    requires AllReported(os)
  {
    if os == [] then []
    else
      var last := os[|os| - 1];
      NetErrors(os[..|os| - 1])
      + (if last.guest.value.netError == "" then [] else [NetLine(last)])
  }

  function NetLine(o: VmOutcome): string
    requires o.guest.Some?
  {
    "vm" + Decimal(o.index) + ": " + o.guest.value.netError
  }

  datatype Metric = BootMS | EchoRTT | Throughput | ClockNS | Cpu1 | CpuN | MemWrite | DiskWrite | DiskRead

  function Pick(m: Metric, g: GuestReport): real {
    match m
    case BootMS => g.uptimeAtStart * 1000.0
    case EchoRTT => g.netEchoRTTus
    case Throughput => g.netThroughput
    case ClockNS => g.clockReadNS
    case Cpu1 => g.cpuHashMBps
    case CpuN => g.cpuHashMBpsN
    case MemWrite => g.memWriteMBps
    case DiskWrite => g.diskWriteMBps
    case DiskRead => g.diskReadMBps
  }

  /** One measurement over all VMs. */
  function Measured(os: seq<VmOutcome>, m: Metric): seq<real>
    requires AllReported(os)
  {
    seq(|os|, k requires 0 <= k < |os| => Pick(m, os[k].guest.value))
  }

  function Over(os: seq<VmOutcome>, m: Metric): Spread
    requires os != [] && AllReported(os)
  {
    SpreadOver(Measured(os, m))
  }

  function NetworkCheck(os: seq<VmOutcome>): Finding
    requires os != [] && AllReported(os)
  {
    if NetErrors(os) != [] then Noted("boot.network", Fail, NetErrors(os))
    else Quoting("boot.network", Pass, [Over(os, EchoRTT), Over(os, Throughput)])
  }

  /** The checks made when every VM reported. */
  function Checks(os: seq<VmOutcome>): seq<Finding>
    requires os != [] && AllReported(os)
  {
    [Noted("boot.launch", Pass, [Ratio(|os|, |os|)]),
     Plain("boot.guest_kernel", Pass),
     Plain("boot.virtio", if DevicesBound(os[0].guest.value) then Pass else Fail),
     NetworkCheck(os)]
  }

  /** The measurements recorded without an opinion; the disk's only if the first
      guest has one. */
  function Measurements(os: seq<VmOutcome>): seq<Finding>
    requires os != [] && AllReported(os)
  {
    [Quoting("boot.timing", Info, [Over(os, BootMS)]),
     Quoting("boot.perf.clock", Info, [Over(os, ClockNS)]),
     Quoting("boot.perf.cpu", Info, [Over(os, Cpu1), Over(os, CpuN)]),
     Quoting("boot.perf.mem", Info, [Over(os, MemWrite)])]
    + (if os[0].guest.value.diskWriteMBps > 0.0
       then [Quoting("boot.perf.disk", Info, [Over(os, DiskWrite), Over(os, DiskRead)])] else [])
    + [Noted("boot.raw", Info, [Decimal(|os|)])]
  }

  function Judged(os: seq<VmOutcome>): seq<Finding>
    requires os != []
  {
    if AnyFailed(os) then
      var detail := [Ratio(|FailedAt(os)|, |os|)] + Entries(os);
      [Finding("boot.launch", Fail, detail, [], Advice(FirstDiagnosis(os)))]
    else Checks(os) + Measurements(os)
  }

  lemma {:induction false} NoneFailed(os: seq<VmOutcome>)
    requires !AnyFailed(os)
    ensures AllReported(os)
  {
    forall k | 0 <= k < |os|
      ensures os[k].guest.Some? && os[k].err == ""
    {
      assert !Failed(os[k]);
    }
  }

  lemma {:induction false} FailedAtSnoc(os: seq<VmOutcome>, i: nat)
    requires i < |os|
    ensures |FailedAt(os[..i + 1])| == |FailedAt(os[..i])| + (if Failed(os[i]) then 1 else 0)
  {
    var before, after := FailedAt(os[..i]), FailedAt(os[..i + 1]);
    assert after == before + (if Failed(os[i]) then {i} else {});
    assert i !in before;
  }

  lemma {:induction false} AnyFailedIff(os: seq<VmOutcome>)
    ensures AnyFailed(os) <==> |FailedAt(os)| > 0
  {
    if k :| 0 <= k < |os| && Failed(os[k]) {
      assert k in FailedAt(os);
    }
    if k :| k in FailedAt(os) {
      assert Failed(os[k]);
    }
  }

  method CountFailed(os: seq<VmOutcome>) returns (failed: nat)
    ensures failed == |FailedAt(os)|
  {
    failed := 0;
    for i := 0 to |os|
      invariant failed == |FailedAt(os[..i])|
    {
      FailedAtSnoc(os, i);
      if Failed(os[i]) {
        failed := failed + 1;
      }
    }
    assert os[..|os|] == os;
  }

  /** The detail and the diagnosis for a boot in which some VM failed. */
  method ExplainFailures(os: seq<VmOutcome>) returns (detail: seq<string>, diagnosis: Option<nat>)
    ensures detail == Entries(os)
    ensures diagnosis == FirstDiagnosis(os)
  {
    hide DiagnoseConsole;
    detail, diagnosis := [], None;
    for i := 0 to |os|
      invariant detail == Entries(os[..i])
    {
      assert os[..i + 1][..i] == os[..i];
      if os[i].err != "" {
        detail := detail + Entry(os[i]);
      }
    }
    assert os[..|os|] == os;
    for i := 0 to |os|
      invariant diagnosis == None && FirstDiagnosis(os) == FirstDiagnosis(os[i..])
    {
      assert os[i..][1..] == os[i + 1..];
      if DiagnoseConsole(os[i].console).Some? {
        diagnosis := DiagnoseConsole(os[i].console);
        break;
      }
    }
  }

  method CollectNetErrors(os: seq<VmOutcome>) returns (errs: seq<string>)
    requires AllReported(os)
    ensures errs == NetErrors(os)
  {
    errs := [];
    for i := 0 to |os|
      invariant errs == NetErrors(os[..i])
    {
      assert os[..i + 1][..i] == os[..i];
      if os[i].guest.value.netError != "" {
        errs := errs + [NetLine(os[i])];
      }
    }
    assert os[..|os|] == os;
  }

  method AddSpread(r: Report, id: string, st: Status, os: seq<VmOutcome>, m: Metric)
    requires os != [] && AllReported(os)
    modifies r
    ensures r.results == old(r.results) + [Quoting(id, st, [Over(os, m)])]
  {
    var s := Stat(Measured(os, m));
    r.Add(Quoting(id, st, [s]));
  }

  method AddTwoSpreads(r: Report, id: string, st: Status, os: seq<VmOutcome>, m: Metric, n: Metric)
    requires os != [] && AllReported(os)
    modifies r
    ensures r.results == old(r.results) + [Quoting(id, st, [Over(os, m), Over(os, n)])]
  {
    var s := Stat(Measured(os, m));
    var t := Stat(Measured(os, n));
    r.Add(Quoting(id, st, [s, t]));
  }

  method AddNetworkCheck(r: Report, os: seq<VmOutcome>, netErrs: seq<string>)
    requires os != [] && AllReported(os) && netErrs == NetErrors(os)
    modifies r
    ensures r.results == old(r.results) + [NetworkCheck(os)]
  {
    hide NetErrors, Over;
    if netErrs != [] {
      r.Add(Noted("boot.network", Fail, netErrs));
    } else {
      AddTwoSpreads(r, "boot.network", Pass, os, EchoRTT, Throughput);
    }
  }

  method AddChecks(r: Report, os: seq<VmOutcome>)
    requires os != [] && AllReported(os)
    modifies r
    ensures r.results == old(r.results) + Checks(os)
  {
    hide NetworkCheck, HasDriver, Ratio;
    r.Add(Noted("boot.launch", Pass, [Ratio(|os|, |os|)]));
    var g := os[0].guest.value;
    var netErrs := CollectNetErrors(os);
    r.Add(Plain("boot.guest_kernel", Pass));
    r.Add(Plain("boot.virtio", if HasDriver(g, "virtio_blk") && HasDriver(g, "virtio_net") then Pass else Fail));
    AddNetworkCheck(r, os, netErrs);
  }

  method AddMeasurements(r: Report, os: seq<VmOutcome>)
    requires os != [] && AllReported(os)
    modifies r
    ensures r.results == old(r.results) + Measurements(os)
  {
    hide Over, Decimal, Quoting, Noted;
    AddSpread(r, "boot.timing", Info, os, BootMS);
    AddSpread(r, "boot.perf.clock", Info, os, ClockNS);
    AddTwoSpreads(r, "boot.perf.cpu", Info, os, Cpu1, CpuN);
    AddSpread(r, "boot.perf.mem", Info, os, MemWrite);
    if os[0].guest.value.diskWriteMBps > 0.0 {
      AddTwoSpreads(r, "boot.perf.disk", Info, os, DiskWrite, DiskRead);
    }
    r.Add(Noted("boot.raw", Info, [Decimal(|os|)]));
  }

  /** Judges the runs. The list must not be empty: the source looks at the
      first report. */
  method JudgeOutcomes(r: Report, os: seq<VmOutcome>)
    requires os != []
    modifies r
    ensures r.results == old(r.results) + Judged(os)
  {
    hide Entries, FirstDiagnosis, AnyFailed, FailedAt, Checks, Measurements, Ratio;
    var failed := CountFailed(os);
    AnyFailedIff(os);
    if failed > 0 {
      var detail, diagnosis := ExplainFailures(os);
      r.Add(Finding("boot.launch", Fail, [Ratio(failed, |os|)] + detail, [], Advice(diagnosis)));
      return;
    }
    NoneFailed(os);
    AddChecks(r, os);
    AddMeasurements(r, os);
  }

  // ----- what the judgement means -----

  lemma {:induction false} EntryListed(os: seq<VmOutcome>, o: VmOutcome)
    requires o in os && o.err != ""
    ensures VmLine(o) in Entries(os)
  {
    var front, last := os[..|os| - 1], os[|os| - 1];
    if o == last {
      assert VmLine(o) == Entry(o)[0];
    } else {
      assert os == front + [last];
      EntryListed(front, o);
    }
  }

  /** A line that starts a VM's entry: console lines are indented. */
  predicate IsVmLine(line: string) {
    "vm" <= line
  }

  function VmLines(lines: seq<string>): nat {
    if lines == [] then 0 else (if IsVmLine(lines[0]) then 1 else 0) + VmLines(lines[1..])
  }

  lemma {:induction false} VmLinesJoin(a: seq<string>, b: seq<string>)
    ensures VmLines(a + b) == VmLines(a) + VmLines(b)
  {
    if a == [] {
      assert a + b == b;
    } else {
      assert (a + b)[1..] == a[1..] + b;
      VmLinesJoin(a[1..], b);
    }
  }

  lemma {:induction false} NoVmLines(lines: seq<string>)
    requires forall k :: 0 <= k < |lines| ==> !IsVmLine(lines[k])
    ensures VmLines(lines) == 0
  {
    if lines != [] {
      NoVmLines(lines[1..]);
    }
  }

  lemma {:induction false} OneVmLine(o: VmOutcome)
    ensures VmLines(Entry(o)) == 1
  {
    var entry := Entry(o);
    hide Decimal;
    assert IsVmLine(entry[0]);
    forall k | 0 <= k < |entry[1..]|
      ensures !IsVmLine(entry[1..][k])
    {
      assert entry[1..][k][0] == ' ';
    }
    NoVmLines(entry[1..]);
  }

  lemma {:induction false} EntriesCount(os: seq<VmOutcome>)
    requires forall o :: o in os ==> Accounted(o)
    ensures VmLines(Entries(os)) == |FailedAt(os)|
  {
    if os == [] {
      assert FailedAt(os) == {};
    } else {
      var front, last := os[..|os| - 1], os[|os| - 1];
      assert os == front + [last] && os[..|os|] == os;
      EntriesCount(front);
      FailedAtSnoc(os, |os| - 1);
      OneVmLine(last);
      assert Accounted(last) && VmLines([]) == 0;
      VmLinesJoin(Entries(front), if last.err == "" then [] else Entry(last));
      hide VmLines, FailedAt, Entry;
    }
  }

  /** With accounted outcomes, as bootOne produces them, every VM counted as
      failed has an entry of its own in the failure's detail, and there are as
      many entries as failed VMs. */
  lemma {:induction false} EveryFailureListed(os: seq<VmOutcome>)
    requires os != [] && forall o :: o in os ==> Accounted(o)
    requires AnyFailed(os)
    ensures forall o :: o in os && Failed(o) ==> VmLine(o) in Judged(os)[0].detail[1..]
    ensures Judged(os)[0].detail[0] == Ratio(VmLines(Judged(os)[0].detail[1..]), |os|)
  {
    assert Judged(os)[0].detail[1..] == Entries(os);
    EntriesCount(os);
    forall o | o in os && Failed(o)
      ensures VmLine(o) in Entries(os)
    {
      EntryListed(os, o);
    }
  }

  lemma {:induction false} NetErrorsEmpty(os: seq<VmOutcome>)
    requires AllReported(os)
    ensures NetErrors(os) == [] <==> forall o :: o in os ==> o.guest.value.netError == ""
  {
    if os != [] {
      var front, last := os[..|os| - 1], os[|os| - 1];
      assert os == front + [last];
      NetErrorsEmpty(front);
    }
  }

  /** A run of VMs that is beyond reproach. */
  predicate Healthy(os: seq<VmOutcome>)
    requires os != []
  {
    && AllReported(os)
    && DevicesBound(os[0].guest.value)
    && forall k :: 0 <= k < |os| ==> os[k].guest.value.netError == ""
  }

  lemma {:induction false} NothingMeasuredFails(os: seq<VmOutcome>)
    requires os != [] && AllReported(os)
    ensures Verdict(Measurements(os)) == Pass
  {
    hide Over, Decimal;
    assert forall k :: 0 <= k < |Measurements(os)| ==> Measurements(os)[k].status == Info;
  }

  lemma {:induction false} ChecksVerdict(os: seq<VmOutcome>)
    requires os != [] && AllReported(os)
    ensures Verdict(Checks(os)) == if DevicesBound(os[0].guest.value) && NetErrors(os) == [] then Pass else Fail
  {
    hide HasDriver, NetErrors, Over, Ratio;
    assert Has(Checks(os), Fail) <==> !DevicesBound(os[0].guest.value) || NetErrors(os) != [] by {
      assert Checks(os)[2].id == "boot.virtio" && Checks(os)[3].id == "boot.network";
    }
    assert !Has(Checks(os), Blocked);
  }

  /** The judgement contains a failure exactly when some VM failed, the first
      one did not bind its devices, or some VM could not reach the host; it is
      never merely blocked. */
  lemma {:induction false} JudgedVerdict(os: seq<VmOutcome>)
    requires os != []
    ensures Verdict(Judged(os)) == if Healthy(os) then Pass else Fail
  {
    hide HasDriver, NetErrors, Entries, FirstDiagnosis, Checks, Measurements, FailedAt;
    if AnyFailed(os) {
      assert Judged(os)[0].status == Fail;
    } else {
      NoneFailed(os);
      NetErrorsEmpty(os);
      VerdictJoins(Checks(os), Measurements(os));
      NothingMeasuredFails(os);
      ChecksVerdict(os);
      assert forall o :: o in os <==> exists k :: 0 <= k < |os| && os[k] == o;
    }
  }

  // ----- what the results say -----

  /** The detail holds a run's line and, if there is any, its console below. */
  predicate EntryAt(detail: seq<string>, p: nat, o: VmOutcome) {
    && p < |detail| && detail[p] == "vm" + Decimal(o.index) + ": " + o.err
    && (o.console != [] ==>
          && p + 2 + |o.console| <= |detail| && detail[p + 1] == "  last console lines:"
          && forall j :: 0 <= j < |o.console| ==> detail[p + 2 + j] == "    " + o.console[j])
  }

  /** VM `i` is the first one whose console shows a known failure, and `s` the
      first of the signatures that it shows. */
  predicate FirstShown(os: seq<VmOutcome>, i: nat, s: nat) {
    && i < |os| && s < 4
    && SomeLineHas(os[i].console, SIGNATURES[s])
    && (forall t :: 0 <= t < s ==> !SomeLineHas(os[i].console, SIGNATURES[t]))
    && (forall j, t :: 0 <= j < i && 0 <= t < 4 ==> !SomeLineHas(os[j].console, SIGNATURES[t]))
  }

  predicate NothingShown(os: seq<VmOutcome>) {
    forall j, t :: 0 <= j < |os| && 0 <= t < 4 ==> !SomeLineHas(os[j].console, SIGNATURES[t])
  }

  lemma {:induction false} EntryShifts(before: seq<string>, detail: seq<string>, p: nat, o: VmOutcome)
    requires EntryAt(detail, p, o)
    ensures EntryAt(before + detail, |before| + p, o)
  {
    hide Decimal;
    var all, n := before + detail, |before| + p;
    assert all[n] == detail[p];
    if o.console != [] {
      assert all[n + 1] == detail[p + 1];
      forall j | 0 <= j < |o.console|
        ensures all[n + 2 + j] == "    " + o.console[j]
      {
        assert all[n + 2 + j] == detail[p + 2 + j];
      }
    }
  }

  lemma {:induction false} EntryStays(detail: seq<string>, after: seq<string>, p: nat, o: VmOutcome)
    requires EntryAt(detail, p, o)
    ensures EntryAt(detail + after, p, o)
  {
    hide Decimal;
    var all := detail + after;
    assert all[p] == detail[p];
    if o.console != [] {
      assert all[p + 1] == detail[p + 1];
      forall j | 0 <= j < |o.console|
        ensures all[p + 2 + j] == "    " + o.console[j]
      {
        assert all[p + 2 + j] == detail[p + 2 + j];
      }
    }
  }

  lemma {:induction false} EntryHere(o: VmOutcome)
    ensures EntryAt(Entry(o), 0, o)
  {
    hide Decimal;
  }

  lemma {:induction false} EntriesSplit(os: seq<VmOutcome>) returns (before: seq<string>, tail: seq<string>)
    requires os != []
    ensures before == Entries(os[..|os| - 1]) && Entries(os) == before + tail
    ensures os[|os| - 1].err != "" ==> tail == Entry(os[|os| - 1])
  {
    before := Entries(os[..|os| - 1]);
    tail := if os[|os| - 1].err == "" then [] else Entry(os[|os| - 1]);
  }

  lemma {:induction false} EntryIsIn(os: seq<VmOutcome>, i: nat) returns (p: nat)
    requires i < |os| && os[i].err != ""
    ensures EntryAt(Entries(os), p, os[i])
    decreases |os|
  {
    hide EntryAt, Entry, Entries;
    var before, tail := EntriesSplit(os);
    if i == |os| - 1 {
      EntryHere(os[i]);
      EntryShifts(before, tail, 0, os[i]);
      p := |before|;
    } else {
      p := EntryIsIn(os[..|os| - 1], i);
      EntryStays(before, tail, p, os[i]);
    }
  }

  lemma {:induction false} DiagnosisOfFirst(os: seq<VmOutcome>, i: nat, s: nat)
    requires FirstShown(os, i, s)
    ensures FirstDiagnosis(os) == Some(s)
    decreases i
  {
    DiagnosisByLine(os[0].console);
    hide SIGNATURES, SomeLineHas, DiagnoseConsole;
    if i > 0 {
      DiagnosisOfFirst(os[1..], i - 1, s);
    }
  }

  lemma {:induction false} NoDiagnosis(os: seq<VmOutcome>)
    requires NothingShown(os)
    ensures FirstDiagnosis(os) == None
  {
    hide SIGNATURES, SomeLineHas, DiagnoseConsole;
    if os != [] {
      DiagnosisByLine(os[0].console);
      NoDiagnosis(os[1..]);
    }
  }

  /** The advice is for the first VM that shows a known signature. */
  ghost predicate AdviceFits(remedy: string, os: seq<VmOutcome>) {
    && (forall i: nat, s: nat :: FirstShown(os, i, s) ==> remedy == SIGNATURES[s])
    && (NothingShown(os) ==> remedy == "read the console tail")
  }

  lemma {:induction false} AdviceIsForFirst(os: seq<VmOutcome>)
    ensures AdviceFits(Advice(FirstDiagnosis(os)), os)
  {
    hide FirstDiagnosis, FirstShown, NothingShown;
    forall i: nat, s: nat | FirstShown(os, i, s)
      ensures FirstDiagnosis(os) == Some(s)
    {
      DiagnosisOfFirst(os, i, s);
    }
    if NothingShown(os) {
      NoDiagnosis(os);
    }
  }

  /** Every error is there, with the console that goes with it. */
  ghost predicate EntriesFit(detail: seq<string>, os: seq<VmOutcome>) {
    forall i :: 0 <= i < |os| && os[i].err != "" ==> exists p :: EntryAt(detail, p, os[i])
  }

  lemma {:induction false} EntriesAreIn(os: seq<VmOutcome>, heading: string)
    ensures EntriesFit([heading] + Entries(os), os)
  {
    hide EntryAt, Entries;
    var detail := [heading] + Entries(os);
    forall i: nat | i < |os| && os[i].err != ""
      ensures exists p :: EntryAt(detail, p, os[i])
    {
      var p := EntryIsIn(os, i);
      EntryShifts([heading], Entries(os), p, os[i]);
      assert EntryAt(detail, 1 + p, os[i]);
    }
  }

  /** What is said when some VM failed: a single failure, headed by how many of
      how many failed, with every error and the console that goes with it, and
      the advice for the first VM that shows a known signature. */
  lemma {:induction false} FailureExplained(os: seq<VmOutcome>)
    requires os != [] && AnyFailed(os)
    ensures |Judged(os)| == 1
    ensures var f := Judged(os)[0];
      && f.id == "boot.launch" && f.status == Fail && f.detail != []
      && f.detail[0] == Decimal(|FailedAt(os)|) + " of " + Decimal(|os|)
      && EntriesFit(f.detail, os) && AdviceFits(f.remedy, os)
  {
    EntriesAreIn(os, Ratio(|FailedAt(os)|, |os|));
    AdviceIsForFirst(os);
    hide Entries, FirstDiagnosis, FailedAt, EntriesFit, AdviceFits, Advice, Decimal;
  }

  /** The fields of all reports, one column each. */
  datatype Columns = Columns(
    bootMS: seq<real>, rtt: seq<real>, throughput: seq<real>, clock: seq<real>, cpu1: seq<real>, cpuN: seq<real>,
    mem: seq<real>, diskWrite: seq<real>, diskRead: seq<real>)

  predicate ColumnsOf(c: Columns, os: seq<VmOutcome>)
    requires AllReported(os)
  {
    && |os| == |c.bootMS| == |c.rtt| == |c.throughput| == |c.clock| == |c.cpu1| == |c.cpuN| == |c.mem|
    && |os| == |c.diskWrite| == |c.diskRead|
    && forall k :: 0 <= k < |os| ==>
         var g := os[k].guest.value;
         && c.bootMS[k] == g.uptimeAtStart * 1000.0
         && c.rtt[k] == g.netEchoRTTus && c.throughput[k] == g.netThroughput
         && c.clock[k] == g.clockReadNS
         && c.cpu1[k] == g.cpuHashMBps && c.cpuN[k] == g.cpuHashMBpsN
         && c.mem[k] == g.memWriteMBps
         && c.diskWrite[k] == g.diskWriteMBps && c.diskRead[k] == g.diskReadMBps
  }

  /** The only result with this identifier. */
  predicate Sole(fs: seq<Finding>, id: string, f: Finding) {
    exists k | 0 <= k < |fs| ::
      fs[k] == f && f.id == id && forall j :: 0 <= j < |fs| && j != k ==> fs[j].id != id
  }

  /** ... and it quotes the means and ranges of these measurements, in order. */
  predicate Quotes(fs: seq<Finding>, id: string, columns: seq<seq<real>>) {
    exists f | f in fs ::
      Sole(fs, id, f) && |f.quotes| == |columns|
      && forall m :: 0 <= m < |columns| ==> SpreadOf(f.quotes[m], columns[m])
  }

  const JUDGED_IDS: seq<string> := [
    "boot.launch", "boot.guest_kernel", "boot.virtio", "boot.network", "boot.timing", "boot.perf.clock",
    "boot.perf.cpu", "boot.perf.mem", "boot.perf.disk", "boot.raw"]

  lemma {:induction false} IdsDistinct(j: nat, k: nat)
    requires j < 10 && k < 10 && JUDGED_IDS[j] == JUDGED_IDS[k]
    ensures j == k
  {
  }

  predicate Once(fs: seq<Finding>) {
    forall j, k :: 0 <= j < k < |fs| ==> fs[j].id != fs[k].id
  }

  lemma {:induction false} SoleAt(fs: seq<Finding>, k: nat)
    requires Once(fs) && k < |fs|
    ensures Sole(fs, fs[k].id, fs[k])
  {
  }

  lemma {:induction false} QuotesOne(fs: seq<Finding>, k: nat, column: seq<real>)
    requires Once(fs) && k < |fs| && column != [] && fs[k].quotes == [SpreadOver(column)]
    ensures Quotes(fs, fs[k].id, [column])
  {
    SoleAt(fs, k);
    SpreadIff(SpreadOver(column), column);
    hide Once, SpreadOver, SpreadOf;
  }

  lemma {:induction false} QuotesTwo(fs: seq<Finding>, k: nat, first: seq<real>, second: seq<real>)
    requires Once(fs) && k < |fs| && first != [] && second != []
    requires fs[k].quotes == [SpreadOver(first), SpreadOver(second)]
    ensures Quotes(fs, fs[k].id, [first, second])
  {
    SoleAt(fs, k);
    SpreadIff(SpreadOver(first), first);
    SpreadIff(SpreadOver(second), second);
    hide Once, SpreadOver, SpreadOf;
  }

  lemma {:induction false} ColumnsMeasured(c: Columns, os: seq<VmOutcome>)
    requires AllReported(os) && ColumnsOf(c, os)
    ensures Measured(os, BootMS) == c.bootMS && Measured(os, EchoRTT) == c.rtt
    ensures Measured(os, Throughput) == c.throughput && Measured(os, ClockNS) == c.clock
    ensures Measured(os, Cpu1) == c.cpu1 && Measured(os, CpuN) == c.cpuN && Measured(os, MemWrite) == c.mem
    ensures Measured(os, DiskWrite) == c.diskWrite && Measured(os, DiskRead) == c.diskRead
  {
  }

  predicate DiskMeasured(os: seq<VmOutcome>)
    requires os != [] && AllReported(os)
  {
    os[0].guest.value.diskWriteMBps > 0.0
  }

  /** Which identifier the `k`-th result has: the disk's is left out if it was
      not measured. */
  function IdAt(disk: bool, k: nat): nat {
    if !disk && k == 8 then 9 else k
  }

  lemma {:induction false} ChecksShape(os: seq<VmOutcome>)
    requires os != [] && AllReported(os)
    ensures var fs := Checks(os);
      && |fs| == 4
      && fs[0].id == "boot.launch" && fs[1].id == "boot.guest_kernel"
      && fs[2] == Plain("boot.virtio", if DevicesBound(os[0].guest.value) then Pass else Fail)
      && fs[3] == NetworkCheck(os) && fs[3].id == "boot.network"
  {
    hide Ratio, DevicesBound, NetErrors, Over;
  }

  lemma {:induction false} MeasurementsShape(os: seq<VmOutcome>)
    requires os != [] && AllReported(os)
    ensures var fs, disk := Measurements(os), DiskMeasured(os);
      && |fs| == (if disk then 6 else 5)
      && fs[0] == Quoting("boot.timing", Info, [Over(os, BootMS)])
      && fs[1] == Quoting("boot.perf.clock", Info, [Over(os, ClockNS)])
      && fs[2] == Quoting("boot.perf.cpu", Info, [Over(os, Cpu1), Over(os, CpuN)])
      && fs[3] == Quoting("boot.perf.mem", Info, [Over(os, MemWrite)])
      && (disk ==> fs[4] == Quoting("boot.perf.disk", Info, [Over(os, DiskWrite), Over(os, DiskRead)]))
      && fs[|fs| - 1].id == "boot.raw"
  {
    hide Over, Decimal;
  }

  lemma {:induction false} JudgedParts(os: seq<VmOutcome>)
    requires os != [] && AllReported(os)
    ensures Judged(os) == Checks(os) + Measurements(os)
  {
    assert !AnyFailed(os);
    hide Checks, Measurements;
  }

  /** Where the results that quote something are. */
  lemma {:induction false} JudgedShape(os: seq<VmOutcome>)
    requires os != [] && AllReported(os)
    ensures var fs := Judged(os);
      && |fs| == (if DiskMeasured(os) then 10 else 9)
      && fs[2].id == "boot.virtio" && fs[2].status == (if DevicesBound(os[0].guest.value) then Pass else Fail)
      && fs[3].id == "boot.network" && fs[3] == NetworkCheck(os)
      && fs[4] == Quoting("boot.timing", Info, [Over(os, BootMS)])
      && fs[5] == Quoting("boot.perf.clock", Info, [Over(os, ClockNS)])
      && fs[6] == Quoting("boot.perf.cpu", Info, [Over(os, Cpu1), Over(os, CpuN)])
      && fs[7] == Quoting("boot.perf.mem", Info, [Over(os, MemWrite)])
      && (DiskMeasured(os) ==>
            fs[8] == Quoting("boot.perf.disk", Info, [Over(os, DiskWrite), Over(os, DiskRead)]))
  {
    JudgedParts(os);
    ChecksShape(os);
    MeasurementsShape(os);
    hide Judged, Checks, Measurements, NetworkCheck, Over, Quoting, DiskMeasured, DevicesBound, AllReported;
  }

  lemma {:induction false} ChecksId(os: seq<VmOutcome>, k: nat)
    requires os != [] && AllReported(os) && k < 4
    ensures |Checks(os)| == 4 && Checks(os)[k].id == JUDGED_IDS[k]
  {
    ChecksShape(os);
    hide Checks, NetworkCheck, DevicesBound, AllReported;
  }

  lemma {:induction false} MeasurementsId(os: seq<VmOutcome>, k: nat)
    requires os != [] && AllReported(os) && k < |Measurements(os)|
    ensures IdAt(DiskMeasured(os), 4 + k) < 10
    ensures Measurements(os)[k].id == JUDGED_IDS[IdAt(DiskMeasured(os), 4 + k)]
  {
    MeasurementsShape(os);
    hide Measurements, DiskMeasured, Over, AllReported;
  }

  lemma {:induction false} JudgedId(os: seq<VmOutcome>, k: nat)
    requires os != [] && AllReported(os) && k < |Judged(os)|
    ensures IdAt(DiskMeasured(os), k) < 10 && Judged(os)[k].id == JUDGED_IDS[IdAt(DiskMeasured(os), k)]
  {
    JudgedParts(os);
    ChecksId(os, 0);
    hide Judged, Checks, Measurements, DiskMeasured, AllReported, JUDGED_IDS;
    if k < 4 {
      ChecksId(os, k);
    } else {
      MeasurementsId(os, k - 4);
    }
  }

  lemma {:induction false} IdsOnce(os: seq<VmOutcome>)
    requires os != [] && AllReported(os)
    ensures Once(Judged(os))
  {
    var fs := Judged(os);
    hide Judged, JUDGED_IDS;
    forall j: nat, k: nat | j < k < |fs|
      ensures fs[j].id != fs[k].id
    {
      JudgedId(os, j);
      JudgedId(os, k);
      if fs[j].id == fs[k].id {
        IdsDistinct(IdAt(DiskMeasured(os), j), IdAt(DiskMeasured(os), k));
      }
    }
  }

  lemma {:induction false} NoDiskResult(os: seq<VmOutcome>)
    requires os != [] && AllReported(os) && !DiskMeasured(os)
    ensures forall f :: f in Judged(os) ==> f.id != "boot.perf.disk"
  {
    var fs := Judged(os);
    assert JUDGED_IDS[8] == "boot.perf.disk";
    hide Judged, JUDGED_IDS;
    forall k: nat | k < |fs|
      ensures fs[k].id != "boot.perf.disk"
    {
      JudgedId(os, k);
      if fs[k].id == "boot.perf.disk" {
        IdsDistinct(IdAt(false, k), 8);
      }
    }
  }

  /** What every result quotes when all VMs reported, told by the fields of the
      reports: each measurement is quoted by the one result it belongs to. */
  lemma {:induction false} JudgementQuotes(os: seq<VmOutcome>, c: Columns)
    requires os != [] && AllReported(os) && ColumnsOf(c, os)
    ensures var fs := Judged(os);
      && Quotes(fs, "boot.timing", [c.bootMS])
      && Quotes(fs, "boot.perf.clock", [c.clock])
      && Quotes(fs, "boot.perf.cpu", [c.cpu1, c.cpuN])
      && Quotes(fs, "boot.perf.mem", [c.mem])
      && ((forall k :: 0 <= k < |os| ==> os[k].guest.value.netError == "") ==>
            Quotes(fs, "boot.network", [c.rtt, c.throughput]))
      && (if os[0].guest.value.diskWriteMBps > 0.0 then Quotes(fs, "boot.perf.disk", [c.diskWrite, c.diskRead])
          else forall f :: f in fs ==> f.id != "boot.perf.disk")
  {
    JudgedShape(os);
    IdsOnce(os);
    ColumnsMeasured(c, os);
    NetErrorsEmpty(os);
    var fs := Judged(os);
    hide Judged, ColumnsOf, Measured, SpreadOver, Quotes, Once, NetErrors;
    QuotesOne(fs, 4, c.bootMS);
    QuotesOne(fs, 5, c.clock);
    QuotesTwo(fs, 6, c.cpu1, c.cpuN);
    QuotesOne(fs, 7, c.mem);
    if forall k :: 0 <= k < |os| ==> os[k].guest.value.netError == "" {
      assert NetErrors(os) == [];
      QuotesTwo(fs, 3, c.rtt, c.throughput);
    }
    if DiskMeasured(os) {
      QuotesTwo(fs, 8, c.diskWrite, c.diskRead);
    } else {
      NoDiskResult(os);
    }
  }

  lemma {:induction false} NetLinesListed(os: seq<VmOutcome>, o: VmOutcome)
    requires AllReported(os) && o in os && o.guest.value.netError != ""
    ensures "vm" + Decimal(o.index) + ": " + o.guest.value.netError in NetErrors(os)
  {
    var front, last := os[..|os| - 1], os[|os| - 1];
    hide Decimal;
    if o != last {
      assert os == front + [last];
      NetLinesListed(front, o);
    }
  }

  predicate DriversChecked(f: Finding, os: seq<VmOutcome>)
    requires os != [] && AllReported(os)
  {
    var devices := os[0].guest.value.virtioDevices;
    f.status == if "virtio_blk" in devices.Values && "virtio_net" in devices.Values then Pass else Fail
  }

  predicate NetworkChecked(f: Finding, os: seq<VmOutcome>)
    requires AllReported(os)
  {
    && f.status == (if exists o | o in os :: o.guest.value.netError != "" then Fail else Pass)
    && forall o :: o in os && o.guest.value.netError != "" ==>
         "vm" + Decimal(o.index) + ": " + o.guest.value.netError in f.detail
  }

  lemma {:induction false} DriversFit(f: Finding, os: seq<VmOutcome>)
    requires os != [] && AllReported(os)
    requires f.status == if DevicesBound(os[0].guest.value) then Pass else Fail
    ensures DriversChecked(f, os)
  {
  }

  lemma {:induction false} NetworkFits(os: seq<VmOutcome>)
    requires os != [] && AllReported(os)
    ensures NetworkChecked(NetworkCheck(os), os)
  {
    NetErrorsEmpty(os);
    hide Decimal, Over;
    forall o | o in os && o.guest.value.netError != ""
      ensures "vm" + Decimal(o.index) + ": " + o.guest.value.netError in NetErrors(os)
    {
      NetLinesListed(os, o);
    }
    hide NetErrors;
  }

  /** The two checks that can fail when all VMs reported: one looks for the
      drivers of the first guest, the other for network errors of any. */
  lemma {:induction false} ChecksExplained(os: seq<VmOutcome>)
    requires os != [] && AllReported(os)
    ensures exists f :: Sole(Judged(os), "boot.virtio", f) && DriversChecked(f, os)
    ensures exists f :: Sole(Judged(os), "boot.network", f) && NetworkChecked(f, os)
  {
    JudgedShape(os);
    IdsOnce(os);
    var fs := Judged(os);
    SoleAt(fs, 2);
    SoleAt(fs, 3);
    DriversFit(fs[2], os);
    NetworkFits(os);
    hide Judged, NetworkCheck, Once, Sole, DriversChecked, NetworkChecked, Over;
  }
}
