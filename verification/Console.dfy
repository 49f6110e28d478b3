/** The serial console as a channel: the guest's report line in a noisy stream,
    the loop that reads it, and the diagnosis of a failed boot. */
module Console {
  import opened Wrappers
  import opened Strings

  const REPORT_PREFIX := "FCPF-REPORT "
  const TAIL_LINES := 120

  /** The fields of a guest report that the host looks at. */
  datatype GuestReport = GuestReport(
    virtioDevices: map<string, string>, uptimeAtStart: real, clockReadNS: real,
    cpuHashMBps: real, cpuHashMBpsN: real, memWriteMBps: real, diskWriteMBps: real, diskReadMBps: real,
    netEchoRTTus: real, netThroughput: real, netError: string)

  /** json.Unmarshal into a report: any function will do. */
  type Decoder = string -> Result<GuestReport, string>

  // ----- framing -----

  /** The line the guest prints. */
  function ReportLine(payload: string): string {
    REPORT_PREFIX + payload
  }

  /** What the host takes from a line, if it carries a report. */
  function Payload(line: string): Option<string> {
    match Cut(line, REPORT_PREFIX)
    case Found(_, after) => Some(TrimSpace(after))
    case NotFound => None
  }

  lemma {:induction false} PrefixBorderless()
    ensures Borderless(REPORT_PREFIX)
  {
    var p := REPORT_PREFIX;
    assert |p| == 12 && p[11] == ' ';
    forall m | 0 < m < |p|
      ensures p[|p| - m..] != p[..m]
    {
      assert p[|p| - m..][m - 1] == ' ' && p[..m][m - 1] == p[m - 1];
      assert p[0] != ' ' && p[1] != ' ' && p[2] != ' ' && p[3] != ' ' && p[4] != ' ' && p[5] != ' ';
      assert p[6] != ' ' && p[7] != ' ' && p[8] != ' ' && p[9] != ' ' && p[10] != ' ';
    }
  }

  /** Whatever text precedes the sentinel on the line - as long as it does not
      contain it - and whatever white space follows, the host recovers exactly
      the payload, even one that contains the sentinel itself. */
  lemma {:induction false} FramingRoundTrip(noise: string, payload: string, trail: string)
    requires !Contains(noise, REPORT_PREFIX)
    requires Tight(payload) && AllSpace(trail)
    ensures Payload(noise + ReportLine(payload) + trail) == Some(payload)
  {
    hide Cut, Borderless;
    PrefixBorderless();
    BorderlessCut(noise, REPORT_PREFIX, payload + trail);
    assert noise + ReportLine(payload) + trail == noise + REPORT_PREFIX + (payload + trail);
    TrimSpaceExact("", payload, trail);
    assert "" + payload + trail == payload + trail;
  }

  // ----- the console loop -----

  function Last(lines: seq<string>, n: nat): seq<string> {
    if |lines| <= n then lines else lines[|lines| - n..]
  }

  /** Dropping the oldest line once the window is full keeps the last lines. */
  lemma {:induction false} WindowSlides(lines: seq<string>, line: string, n: nat)
    requires n > 0
    ensures var tail := Last(lines, n);
      Last(lines + [line], n) == (if |tail| >= n then tail[1..] else tail) + [line]
  {
  }

  /** The window holds the last min(n, |lines|) lines, in order. */
  lemma {:induction false} WindowIsSuffix(lines: seq<string>, n: nat)
    ensures |Last(lines, n)| == if |lines| <= n then |lines| else n
    ensures Last(lines, n) == lines[|lines| - |Last(lines, n)|..]
  {
  }

  predicate Decodes(line: string, decode: Decoder) {
    Payload(line).Some? && decode(Payload(line).value).Ok?
  }

  predicate Garbles(line: string, decode: Decoder) {
    Payload(line).Some? && decode(Payload(line).value).Err?
  }

  /** The most recent report that decoded. */
  function LastReport(lines: seq<string>, decode: Decoder): Option<GuestReport> {
    if lines == [] then None
    else
      var last := lines[|lines| - 1];
      if Decodes(last, decode) then Some(decode(Payload(last).value).value)
      else LastReport(lines[..|lines| - 1], decode)
  }

  /** The complaint about the most recent report that did not. */
  function LastComplaint(lines: seq<string>, decode: Decoder): string {
    if lines == [] then ""
    else
      var last := lines[|lines| - 1];
      if Garbles(last, decode) then "parse guest report: " + decode(Payload(last).value).error
      else LastComplaint(lines[..|lines| - 1], decode)
  }

  lemma {:induction false} ReportIff(lines: seq<string>, decode: Decoder)
    ensures LastReport(lines, decode).Some? <==> exists k :: 0 <= k < |lines| && Decodes(lines[k], decode)
    ensures LastComplaint(lines, decode) != "" <==> exists k :: 0 <= k < |lines| && Garbles(lines[k], decode)
  {
    hide Decodes, Garbles;
    if lines != [] {
      var front, last := lines[..|lines| - 1], lines[|lines| - 1];
      ReportIff(front, decode);
      forall k | 0 <= k < |front| ensures lines[k] == front[k] {}
      assert last == lines[|lines| - 1];
      assert (exists k :: 0 <= k < |lines| && Decodes(lines[k], decode))
        <==> (exists k :: 0 <= k < |front| && Decodes(front[k], decode)) || Decodes(last, decode);
      assert (exists k :: 0 <= k < |lines| && Garbles(lines[k], decode))
        <==> (exists k :: 0 <= k < |front| && Garbles(front[k], decode)) || Garbles(last, decode);
    }
  }

  /** The report is that of the last line that decoded, and the complaint that
      of the last line that did not, whatever came before. */
  lemma {:induction false} LatestWins(lines: seq<string>, k: nat, decode: Decoder)
    requires k < |lines|
    ensures Decodes(lines[k], decode) && (forall j :: k < j < |lines| ==> !Decodes(lines[j], decode)) ==>
      LastReport(lines, decode) == Some(decode(Payload(lines[k]).value).value)
    ensures Garbles(lines[k], decode) && (forall j :: k < j < |lines| ==> !Garbles(lines[j], decode)) ==>
      LastComplaint(lines, decode) == "parse guest report: " + decode(Payload(lines[k]).value).error
    decreases |lines|
  {
    hide Payload;
    if k < |lines| - 1 {
      var front := lines[..|lines| - 1];
      LatestWins(front, k, decode);
      forall j | k < j < |front| ensures front[j] == lines[j] {}
    }
  }

  lemma {:induction false} NothingRead(n: nat)
    ensures Last([], n) == []
  {
  }

  /** The loop over the guest's output and the check after it. `noReport` is
      what to say when nothing was reported. */
  method ReadConsole(lines: seq<string>, decode: Decoder, noReport: string)
    returns (tail: seq<string>, guest: Option<GuestReport>, bootMS: real, err: string)
    requires noReport != ""
    ensures tail == Last(lines, TAIL_LINES)
    ensures guest == LastReport(lines, decode)
    ensures guest.Some? ==> bootMS == guest.value.uptimeAtStart * 1000.0
    ensures err == if LastReport(lines, decode) == None && LastComplaint(lines, decode) == "" then noReport
                   else LastComplaint(lines, decode)
    ensures err != "" <==>
      || (exists k :: 0 <= k < |lines| && Garbles(lines[k], decode))
      || !(exists k :: 0 <= k < |lines| && Decodes(lines[k], decode))
  {
    hide Payload, Cut, Contains, Last;
    tail, guest, bootMS, err := [], None, 0.0, "";
    NothingRead(TAIL_LINES);
    for i := 0 to |lines|
      invariant tail == Last(lines[..i], TAIL_LINES)
      invariant guest == LastReport(lines[..i], decode)
      invariant guest.Some? ==> bootMS == guest.value.uptimeAtStart * 1000.0
      invariant err == LastComplaint(lines[..i], decode)
    {
      var line := lines[i];
      assert lines[..i + 1][..i] == lines[..i];
      assert lines[..i + 1] == lines[..i] + [line];
      WindowSlides(lines[..i], line, TAIL_LINES);
      if |tail| >= TAIL_LINES {
        tail := tail[1..];
      }
      tail := tail + [line];
      match Payload(line) {
        case None =>
        case Some(payload) =>
          match decode(payload) {
            case Err(e) => err := "parse guest report: " + e;
            case Ok(gr) =>
              guest := Some(gr);
              bootMS := gr.uptimeAtStart * 1000.0;
          }
      }
    }
    assert lines[..|lines|] == lines;
    ReportIff(lines, decode);
    if guest == None && err == "" {
      err := noReport;
    }
  }

  /** A report the guest printed last is the one the host ends up with. */
  lemma {:induction false} ReportDelivered(
    before: seq<string>, noise: string, payload: string, trail: string, after: seq<string>, decode: Decoder)
    requires !Contains(noise, REPORT_PREFIX) && Tight(payload) && AllSpace(trail) && decode(payload).Ok?
    requires forall k :: 0 <= k < |after| ==> !Decodes(after[k], decode)
    ensures LastReport(before + [noise + ReportLine(payload) + trail] + after, decode) == Some(decode(payload).value)
    decreases |after|
  {
    var line := noise + ReportLine(payload) + trail;
    var all := before + [line] + after;
    if after == [] {
      FramingRoundTrip(noise, payload, trail);
      assert all[|all| - 1] == line;
    } else {
      var front := after[..|after| - 1];
      ReportDelivered(before, noise, payload, trail, front, decode);
      assert all[..|all| - 1] == before + [line] + front;
      assert all[|all| - 1] == after[|after| - 1];
    }
  }

  // ----- diagnosis -----

  const SIGNATURES: seq<string> := [
    "Failed to execute /init (error -2)", "Initramfs unpacking failed", "No working init found", "Kernel panic"]

  /** Which known failure the console shows, searching the joined text. */
  function DiagnoseConsole(lines: seq<string>): (r: Option<nat>)
    ensures r.Some? ==> r.value < |SIGNATURES|
  {
    var joined := JoinLines(lines);
    if Contains(joined, SIGNATURES[0]) then Some(0)
    else if Contains(joined, SIGNATURES[1]) then Some(1)
    else if Contains(joined, SIGNATURES[2]) then Some(2)
    else if Contains(joined, SIGNATURES[3]) then Some(3)
    else None
  }

  predicate SomeLineHas(lines: seq<string>, pat: string) {
    exists k | 0 <= k < |lines| :: Contains(lines[k], pat)
  }

  lemma {:induction false} SignaturesOneLine(i: nat)
    requires i < 4
    ensures OneLine(SIGNATURES[i]) && SIGNATURES[i] != ""
  {
  }

  lemma {:induction false} SignatureInJoin(lines: seq<string>, i: nat)
    requires i < 4
    ensures Contains(JoinLines(lines), SIGNATURES[i]) <==> SomeLineHas(lines, SIGNATURES[i])
  {
    SignaturesOneLine(i);
    ContainsInJoin(lines, SIGNATURES[i]);
  }

  /** Searching the joined console is searching its lines: the diagnosis is the
      first signature in priority order that any line carries, wherever the
      line sits. */
  lemma {:induction false} DiagnosisByLine(lines: seq<string>)
    ensures forall i: nat :: DiagnoseConsole(lines) == Some(i) <==>
      i < 4 && SomeLineHas(lines, SIGNATURES[i]) && forall j :: 0 <= j < i ==> !SomeLineHas(lines, SIGNATURES[j])
    ensures DiagnoseConsole(lines) == None <==> forall i :: 0 <= i < 4 ==> !SomeLineHas(lines, SIGNATURES[i])
  {
    hide SIGNATURES, SomeLineHas, Contains;
    SignatureInJoin(lines, 0);
    SignatureInJoin(lines, 1);
    SignatureInJoin(lines, 2);
    SignatureInJoin(lines, 3);
  }
}
