# A verified model of fc-preflight

fc-preflight decides whether a host can run Firecracker microVMs. It checks the
host, boots microVMs whose init is the tool itself, and turns what it saw into
a report and an exit code. This project models the parts of the tool where a
mistake would be silent - an archive the kernel half-reads, two VMs sharing a
subnet, a failure that never reaches the exit code - and proves that they do
what the tool promises. Check it with `dafny verify dfyconfig.toml`
(Dafny 4.11).

| file | what it models |
|---|---|
| `Text.dfy`, `Strings.dfy`, `IPv4.dfy` | numerals, the string functions and the address and CIDR syntax that the tool uses, each with its inverse |
| `CpioFormat.dfy` | a reader for the "newc" archive format, written from the format (cpio(5), "New ASCII Format") |
| `CpioWriter.dfy` | the initramfs writer, proved against that reader |
| `GuestNet.dfy` | one /30 per VM, and the names and addresses printed from it |
| `Cmdline.dfy` | settings from host to guest over the kernel command line |
| `Echo.dfy` | the ping and streaming measurement as a bounded-buffer protocol |
| `Console.dfy` | the report line in a noisy console, the loop that reads it, the diagnosis of a failed boot |
| `Outcomes.dfy` | one VM's run, and the judgement of all of them |
| `FanOut.dfy` | concurrent runs and the collector |
| `HostState.dfy` | taps, listeners and files of concurrent runs |
| `ArtifactCache.dfy` | fetching, verifying and publishing pinned artifacts |
| `Report.dfy`, `Kvm.dfy`, `Preflight.dfy` | verdict, KVM checks, stages and exit code |

How the source is represented:

- A byte is the character with its code, so text and binary data share a type.
- The archive writer, the report, the guest's settings, the cache directory and
  the file descriptors are classes whose methods update them; each method is
  proved against a function of its inputs and the old state, and the lemmas say
  what that function means. The concurrent parts (`Echo`, `FanOut`,
  `HostState`) are transition systems; a schedule is any list of steps, and the
  theorems hold for all of them.
- System calls, the network, ioctls, child processes and clocks are parameters
  that may answer anything. JSON decoding, SHA-256 and untarring are arbitrary
  functions passed as arguments, so every theorem holds for the real ones.
- Every lemma turns Dafny's automatic induction off, so each proof is the one
  that is written down; `hide` keeps definitions out of proofs that do not need
  them.
- 32-bit arithmetic wraps explicitly. Floating-point measurements are exact
  real numbers with infinities.

Where a property is false of the code, the exact condition is proved instead:

- An archive is recovered by a reader if and only if every size fits 32 bits
  and no entry is named `TRAILER!!!` (`CpioWriter.RoundTrip`).
- Everything the host puts on the command line survives any user boot
  arguments; the interface name, which the host does not set, does not
  (`Cmdline.SettingsRecovered`).
- A finished worker whose setup succeeded leaves its tap behind if and only if
  its last act, the deletion, failed. One whose setup failed leaves a tap if and
  only if it had added one, or an earlier run's tap was there and was not
  deleted. A scratch file that was created and could not be sized is never
  removed by its worker (`HostState.LeftBehindIff`, with
  `HostState.FailedSetupLeaksTap` and `HostState.StaleTapStays`).
- The throughput test does not wait for its echo: with the drain goroutine the
  client closes after any number of echoed bytes from the pings up to the whole
  stream that leaves no more behind than the buffers hold, and after no other
  (`Echo.EchoedIff`). The measured throughput counts the bytes that were
  accepted.
- Without the drain goroutine the throughput test can hang if and only if the
  payload exceeds both network buffers by more than one byte, and always hangs
  if and only if it exceeds the usable buffering (`Echo.CanStickIff`,
  `Echo.MustStickIff`).
- An extracted artifact is found in the cache again if and only if its own digest
  happens to equal the tarball's (`ArtifactCache.ExtractThenOffline`).
- Zero or fewer VMs are accepted with any range (`GuestNet.NonPositiveAccepted`);
  the boot stage then looks at the first of no outcomes.
- On an architecture the tool does not know, the KVM failure is not one that
  the gate before the boot stage recognises (`Kvm.UnsupportedArchPassesGate`).
- Exit code 0 after a boot stage means that every VM was healthy, except exactly
  when root asks for the boot stage alone on such an architecture: then no VM is
  run (`Preflight.ExitMeaning`).

The repository's README says that a failed boot reports the last 40 console
lines; the code keeps 120, and so does the model.

## Model

| member | source | states |
|---|---|---|
| Numerals.DecimalRoundTrip | boot_linux.go:94-96 | a number printed with `%d` reads back as itself |
| Numerals.CanonicalDecimal | guest_linux.go:415 | every numeral without a leading zero is the print of its value |
| Numerals.HexRoundTrip | initramfs.go:50 | a number printed with `%0wX` reads back as itself, at any width |
| Numerals.HexWidth | initramfs.go:50 | the printed width is exact if and only if the number fits it |
| Strings.BorderlessCut | boot_linux.go:469 | cutting at a separator without a border finds it right after any text that does not contain it |
| Strings.TrimSpaceExact | boot_linux.go:471 | trimming removes the surrounding white space and nothing else |
| Strings.FieldsAppend | guest_linux.go:49 | appending a space and a word appends one word, whatever came before |
| Strings.FieldsTrimSpace | guest_linux.go:124 | trimming a line never changes its words |
| Strings.ContainsInJoin | boot_linux.go:171-173 | a one-line pattern occurs in newline-joined text if and only if it occurs in a line |
| CpioFormat.DecodedMembersFit | initramfs.go:72-73 | no reader ever returns a member named like the trailer or larger than its fields allow |
| CpioWriter.HeaderSize | initramfs.go:47-64 | the header is 110 bytes if and only if every field fits 32 bits, and longer otherwise |
| CpioWriter.ReadBackMember | initramfs.go:50-69 | one written member reads back with its 13 fields, name and data, and ends where the next begins |
| CpioWriter.DecodeStopsAtTrailer | initramfs.go:72-90 | reading an archive returns the entries before the first one named TRAILER!!!, and everything is consumed exactly if there is none |
| CpioWriter.RoundTrip | initramfs.go:45-90 | reading undoes writing, in order and to the last byte, if and only if all sizes fit and no entry is named TRAILER!!! |
| CpioWriter.ArchiveSize | initramfs.go:47-70 | total length is the sum of the rounded header-and-name and data sizes, plus 124 |
| CpioWriter.Aligned | initramfs.go:39-43 | every member and the trailer start on a multiple of four |
| CpioWriter.Writer.Pad | initramfs.go:39-43 | fills the buffer with NULs to the next multiple of four |
| CpioWriter.Writer.Add | initramfs.go:45-70 | the buffer becomes the encoding of the entries so far and this one |
| CpioWriter.Writer.Finish | initramfs.go:72-90 | the hand-written trailer is the generic encoding of an entry named TRAILER!!! with link count 1 |
| CpioWriter.BuildInitramfs | initramfs.go:100-108 | packs the mount points, the console node and the binary |
| CpioWriter.InitramfsUnpacks | initramfs.go:92-108 | a reader finds /dev, /proc, /sys and /tmp as directories, console 5:1 mode 020600 and /init mode 0755 with exactly the given bytes, all owned by root with one link and inodes 1 to 6, if and only if the binary is below 4 GiB |
| IPv4.ParseIsInverseOfPrint | boot_linux.go:94-96 | a string parses to an address if and only if it is that address's dotted quad |
| IPv4.CidrRoundTrip | boot_linux.go:113 | an address and prefix length printed as a CIDR parse back |
| IPv4.CidrIff | boot_linux.go:113 | the ranges that parse are exactly an address, a slash and a number up to 32 |
| IPv4.RangeIsPrefix | boot_linux.go:121-126 | the masked range holds exactly the addresses that agree with the given one in its prefix |
| IPv4.RangeBounds | boot_linux.go:121-126 | the range contains the address and ends within 32 bits |
| GuestNet.AcceptsIffFits | boot_linux.go:111-128 | a positive number of VMs is accepted if and only if that many different /30 blocks, all of whose addresses share the prefix, exist |
| GuestNet.NonPositiveAccepted | boot_linux.go:122 | zero or fewer VMs are accepted with any range |
| GuestNet.GuestNetwork.Resolve | boot_linux.go:112-128 | sets the base exactly when the range is accepted, to the smallest address with the prefix |
| GuestNet.AllocationSound | boot_linux.go:88-99 | with an accepted range every address of every VM's /30 has the range's prefix, blocks are aligned, free of wrap-around and disjoint, and host and guest are their two usable addresses |
| GuestNet.IdentifiersDistinct | boot_linux.go:98-104 | different VMs have different host and guest addresses, taps and MACs, and no host address is a guest's |
| GuestNet.MACRoundTrip | boot_linux.go:101-104 | the MAC is unicast and locally administered, and its last four octets are the guest's address |
| Cmdline.GuestConfig.ParseGuestCmdline | guest_linux.go:48-71 | every setting is what the last word for its key says, and ports that are not numbers are passed over |
| Cmdline.LastWordWins | guest_linux.go:49-66 | of several words for a key the last one decides |
| Cmdline.LastNumberWins | guest_linux.go:67-71 | of several ports the last one that is a number decides |
| Cmdline.AtoiReads | guest_linux.go:68 | signed numbers of 64 bits are read back from their print, larger ones are refused |
| Cmdline.WordsSeen | boot_linux.go:403-404 | the guest sees the user's words and then the host's five, whatever the user wrote |
| Cmdline.SettingsRecovered | guest_linux.go:48-71 | the guest recovers address, mask, host, port and disk from any user arguments and any earlier settings; only the interface name is the user's |
| Cmdline.EndToEnd | guest_linux.go:414-418 | with an accepted range, guest i parses its address as base+4i+2, its host as base+4i+1, mask 255.255.255.252, the echo port and /dev/vda |
| Echo.ExecKeepsInv | boot_linux.go:348-351 | in every schedule nothing is lost, duplicated or reordered, no buffer overflows and at most one ping is outstanding |
| Echo.PingReadsItsOwnByte | guest_linux.go:344-351 | a ping's read returns that ping's byte, and the last one leaves all buffers empty for the streaming phase |
| Echo.Progress | guest_linux.go:357-372 | some step is always possible until the client has closed, with the drain running |
| Echo.ScheduleBound | guest_linux.go:365-369 | every step uses up some of a finite amount of work |
| Echo.DrainedRunsComplete | guest_linux.go:339-372 | for all positive capacities every schedule takes at most 4n+1 steps and ends exactly when the client has sent everything and closed; what was echoed by then is a prefix of the stream, short of it by at most what the buffers hold |
| Echo.EchoedIff | guest_linux.go:357-372 | some schedule closes with exactly r bytes echoed if and only if r covers the pings and the rest fits the buffers; the throughput is computed from the bytes accepted, whatever r is |
| Echo.StuckNeedsOverflow | guest_linux.go:357-364 | a stuck client implies a payload above both network buffers by more than one byte |
| Echo.CanStickIff | guest_linux.go:357-364 | without the drain a stuck state is reachable if and only if the payload is that large |
| Echo.MustStickIff | guest_linux.go:357-364 | without the drain every schedule gets stuck if and only if the payload exceeds the usable buffering |
| Console.PrefixBorderless | guest_linux.go:31 | no proper prefix of the sentinel is also its suffix |
| Console.FramingRoundTrip | boot_linux.go:468-471 | any noise without the sentinel before it and white space after it: the host recovers exactly the guest's payload |
| Console.ReadConsole | boot_linux.go:454-494 | the tail is the last 120 lines, the report the last one that decoded, and there is an error if and only if some report line did not decode or none did |
| Console.WindowIsSuffix | boot_linux.go:456-461 | the window is the last lines of the console, 120 of them or all there are |
| Console.LatestWins | boot_linux.go:468-477 | report and error are those of the last line that decoded and the last that did not |
| Console.ReportDelivered | guest_linux.go:182-183 | a report printed after noise, with no later one that decodes, is the one the host ends up with |
| Console.DiagnosisByLine | boot_linux.go:170-188 | the diagnosis is the first signature in priority order that any line carries |
| Outcomes.BootOne | boot_linux.go:368-497 | every return path keeps the index and leaves a report or a reason; failures before launch carry the first error |
| Outcomes.CleanRunIff | boot_linux.go:488-494 | an outcome is free of failure if and only if the VM was launched and its report lines all decoded, at least one of them |
| Outcomes.ErrorNamed | boot_linux.go:372-494 | the first step that fails names the error; a silent guest is reported as timed out exactly if the deadline had passed |
| Outcomes.Stat | boot_linux.go:676-686 | the mean, and bounds attained by some VM with lo <= mean <= hi |
| Outcomes.SpreadIff | boot_linux.go:676-686 | mean and bounds are determined: no other values have these properties |
| Outcomes.CountFailed | boot_linux.go:629-634 | the number of runs with an error or without a report |
| Outcomes.JudgeOutcomes | boot_linux.go:628-791 | adds the judged results and reads only reports that exist |
| Outcomes.JudgementQuotes | boot_linux.go:673-783 | when every VM reported, the one result with each identifier quotes the mean and range of its own report fields over all VMs: start, clock, CPU, memory, round trip and throughput, and disk if measured |
| Outcomes.ChecksExplained | boot_linux.go:702-746 | the driver result looks at the first guest's drivers, the network result fails exactly for a network error and lists them all |
| Outcomes.FailureExplained | boot_linux.go:636-663 | when some VM failed there is one result: how many of how many failed, every error followed by its console, and the advice for the first VM that shows a known signature |
| Outcomes.EveryFailureListed | boot_linux.go:629-660 | every VM counted as failed has its own line in the detail, and the count that heads the detail is the number of these lines |
| Outcomes.JudgedVerdict | boot_linux.go:628-748 | the judgement fails if and only if some VM failed, the first did not bind its drivers or some VM had a network error |
| FanOut.ExecKeepsInv | boot_linux.go:614-621 | running, in-channel and stored indices always partition 0..n-1 |
| FanOut.SendNeverBlocks | boot_linux.go:614-616 | the channel has room whenever a worker is still running |
| FanOut.ScheduleIndependent | boot_linux.go:608-622 | every schedule ends after at most 2n steps, with every outcome received once and the array of a sequential run |
| FanOut.ArrivalIff | boot_linux.go:613-621 | the orders in which outcomes can be received are exactly the arrangements of the workers' outcomes |
| FanOut.CollectOutcomes | boot_linux.go:618-621 | outcomes in any such order end up at their own index |
| HostState.StepProjects | boot_linux.go:313-398 | a step changes its own worker's resources as if alone and nobody else's |
| HostState.NonInterference | boot_linux.go:313-398 | in every interleaving each worker and its tap, listener and files evolve exactly as if it ran alone |
| HostState.ForeignTapsUntouched | boot_linux.go:314-315 | taps that belong to no worker are never created, changed or removed |
| HostState.RunningIsEquipped | boot_linux.go:372-452 | while a VM runs its tap is up and addressed, its files exist and its listener is open unless the process was signalled |
| HostState.LeftBehindIff | boot_linux.go:313-398 | in every interleaving, told by the outcomes of its acts: which finished workers leave a tap, a scratch file and a configuration, and that the deciding acts are the deletions |
| HostState.FailedSetupLeaksTap | boot_linux.go:316-321 | a tap that was added but could not be addressed stays behind |
| HostState.StaleTapStays | boot_linux.go:313-318 | an earlier run's tap that cannot be deleted makes the worker fail and stays |
| HostState.ListenerClosesAfterDone | boot_linux.go:338-341 | a listener that outlives its worker can always close |
| HostState.WorkersFinish | boot_linux.go:368-398 | a worker can act until it is done, and each action brings it closer |
| ArtifactCache.Extract | boot_linux.go:268-301 | succeeds if and only if the archive opens, has the member and all of it can be written; then the first matching member is at the destination |
| ArtifactCache.FirstMemberIsFirst | boot_linux.go:276-288 | the member taken is the first one of its name |
| ArtifactCache.ResolveArtifact | boot_linux.go:193-250 | in every state a crash of the process could leave, only the artifact's two paths changed, a plain file is unchanged or verified, and an extract is unchanged or begins what a verified archive holds; success, offline refusal and mismatch are characterised; a mismatch leaves the destination alone; the temporary file goes away unless removing or renaming it fails |
| ArtifactCache.PublicationIsCrashSafe | boot_linux.go:190-250 | if each call leaves the disk in a state its contract allows, then after all of them a file is the initial one or verified, an extract the initial one or the beginning of a verified one |
| ArtifactCache.RunCalls | boot_linux.go:190-250 | any calls one after another, each crashing after any number of disk changes or returning: the disk goes through such states, so what is published is initial or verified; calls that return succeed exactly when they should |
| ArtifactCache.ExtractThenOffline | boot_linux.go:195-200 | after a successful extraction an offline call succeeds if and only if the extracted file itself has the tarball's digest and can be read |
| Reports.Report.Finish | report.go:109-128 | the verdict is Fail, Blocked or Pass by precedence, and the summary holds each status with its multiplicity |
| Reports.ExitCodeFits | main.go:129-136 | the code of a verdict is 1 if some result failed, 3 if none did and some was blocked, 0 otherwise |
| Reports.VerdictJoins | report.go:109-110 | the verdict of two lists is the more severe of theirs, so adding results never softens it |
| Reports.OrderIrrelevant | report.go:116-124 | counts and verdict do not depend on the order of the results |
| Reports.OthersIgnored | report.go:109-110 | dropping everything but failures and blocked checks keeps the verdict |
| Reports.CountsAddUp | report.go:117 | the six counts add up to the number of results |
| Kvm.CheckKVM | kvm_linux.go:106-254 | appends its findings and leaves no descriptor open, on every path; no closed descriptor is used |
| Kvm.QueryCaps | kvm_linux.go:181-216 | lists exactly the missing required capabilities and warns about missing optional ones |
| Kvm.CapsReported | kvm_linux.go:181-199 | exactly the missing required capabilities are named, and exactly the missing optional ones are warned about |
| Kvm.KvmFindingsGated | main.go:148-164 | every adverse finding is one the gate recognises if and only if the architecture is known, and there is none if and only if Firecracker can run |
| Kvm.KvmVerdict | kvm_linux.go:106-254 | on every host: pass where Firecracker can run, blocked exactly where a user who is not root may not open the device, fail everywhere else |
| Kvm.GateComplete | main.go:152-164 | on amd64 and arm64, for every host, the gate stops booting if and only if Firecracker cannot run |
| Kvm.UnsupportedArchPassesGate | kvm_linux.go:113-118 | on any other architecture the failure passes the gate |
| Preflight.BootAll | boot_linux.go:608-622 | returns each VM's own outcome at its index for every order of completion |
| Preflight.RunBootStage | boot_linux.go:501-625 | preparations, and the judgement of all VMs if they succeed |
| Preflight.PreparedIff | boot_linux.go:501-606 | VMs are booted exactly if nothing is in the way; otherwise the last result names the first obstacle |
| Preflight.HealthyMeansClean | boot_linux.go:624-637 | a healthy judgement means every VM was launched and only reported cleanly |
| Preflight.GateDecides | main.go:92-99 | the gate stops exactly the hosts of known architectures that cannot run Firecracker and those where another check it heeds failed; what it stops is never a pass |
| Preflight.CpuVirtStops | main.go:152-164 | without processor virtualization nothing is booted after the preflight |
| Preflight.StageVerdict | boot_linux.go:501-625 | the stage joins blocked without root, and fail exactly if with root on a known architecture some VM was not healthy or none ran |
| Preflight.RunMain | main.go:85-136 | which stage ran, what is in the report, and the exit code: 2 for bad usage, 1 if the report cannot be written, otherwise 1, 3 or 0 by the results |
| Preflight.ExitCodeIs | main.go:85-136 | the exit code of every valid run from the host and the VMs: 1 if something asked for failed, 3 if nothing did but something could not be checked, else 0 |
| Preflight.RefusedExitsThree | kvm_linux.go:139-152 | a user who is not root and may not open the device, with the other checks quiet, gets exit code 3 and no VM |
| Preflight.ExitMeaning | main.go:129-136 | on every architecture: after the preflight VMs are run only where Firecracker can run, stopping before the boot stage exits 1 or 3, and exit 0 means a usable host and every VM healthy, except exactly for the boot stage alone, as root, on an unknown architecture, where no VM is run |

## Left out

- Outcomes.Stat: exact real arithmetic; rounding and NaN are not modelled.
- Outcomes.JudgeOutcomes: titles, wording, formatted numbers and the slowest wall-clock time are not modelled, and every quoted measurement is kept with its range; drivers are looked for in the first guest only, as in the source.
- Reports.Report.Add: streaming results to the terminal is not modelled, nor are timestamps, the host name and the duration.
- ArtifactCache.RunCalls: one process at a time; two runs sharing a cache directory would share the temporary file.
- ArtifactCache.ResolveArtifact: a crash is one of the process, not of the machine: writes that succeeded stay. The source neither syncs before it renames nor looks at the error of closing the temporary file (boot_linux.go:230, 246).
- Echo.DrainedRunsComplete: what happens to bytes in flight after the client has closed; writes and reads that fail, which end the test with an error.
- HostState.NonInterference: a configuration write that fails leaves no file, the removal of the whole working directory at the end of the stage is not modelled, and the kernel's own conflicts between interfaces are arbitrary failures.
- Cmdline.EndToEnd: the guest's kernel shows exactly the arguments it was given, followed by a newline.
- Host checks other than KVM (host_linux.go): file reads and one-branch classifications; in `Preflight` they are arbitrary results around the KVM ones.
- The rendered text report, its sections and its sorted failures, and the JSON encoding: presentation of what is modelled.
- IPv6 and IPv4-mapped addresses and ranges: the tool's defaults and documentation are about dotted IPv4.
- Splitting the console stream into lines, and lines above the scanner's one-megabyte limit: the model starts from lines.
- TLS, gzip, tar and ELF decoding, mounting, rebooting and the ioctl structures: parameters with arbitrary answers.
- The timed measurements themselves: clocks, hashes, memory and disk throughput.
- Command-line flags, and the stub build for other operating systems.
