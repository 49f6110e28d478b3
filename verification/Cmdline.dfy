/** The host-to-guest channel: settings printed on the kernel command line by
    bootOne and read back by parseGuestCmdline. */
module Cmdline {
  import opened Wrappers
  import opened Words
  import opened Numerals
  import opened Strings
  import opened IPv4
  import opened GuestNet

  const ECHO_PORT := 52345
  const GUEST_NETMASK := "255.255.255.252"
  const GUEST_DISK := "/dev/vda"

  // ----- printing -----

  function HostWords(base: uint32, i: nat): (w: seq<string>)
    ensures |w| == 5
  {
    ["fcpf.ip=" + VmGuestIP(base, i),
     "fcpf.mask=" + GUEST_NETMASK,
     "fcpf.host=" + VmHostIP(base, i),
     "fcpf.port=" + Decimal(ECHO_PORT),
     "fcpf.disk=" + GUEST_DISK]
  }

  /** Words appended one by one, each after a space. */
  function AppendWords(line: string, words: seq<string>): string {
    if words == [] then line
    else AppendWords(line, words[..|words| - 1]) + " " + words[|words| - 1]
  }

  /** The boot arguments: the user's, then the host's settings. */
  function BootArgs(user: string, base: uint32, i: nat): string {
    AppendWords(user, HostWords(base, i))
  }

  /** What the guest reads from /proc/cmdline: the arguments, ended by a
      newline, trimmed. */
  function GuestCmdline(args: string): string {
    TrimSpace(args + "\n")
  }

  // ----- reading -----

  /** strconv.Atoi. */
  function Atoi(s: string): Option<int> {
    var signed := s != "" && (s[0] == '-' || s[0] == '+');
    var digits := if signed then s[1..] else s;
    if digits == "" || !AllDigits(digits) then None
    else
      var n: int := DecimalValue(digits);
      var v := if signed && s[0] == '-' then -n else n;
      if -0x8000_0000_0000_0000 <= v < 0x8000_0000_0000_0000 then Some(v) else None
  }

  /** The value a word gives to a key. */
  function ValueOf(word: string, key: string): Option<string> {
    match Cut(word, "=")
    case Found(k, v) => if k == key then Some(v) else None
    case NotFound => None
  }

  /** The value of the last word that sets `key`. */
  function LastValue(words: seq<string>, key: string, default: string): string {
    if words == [] then default
    else
      match ValueOf(words[|words| - 1], key)
      case Some(v) => v
      case None => LastValue(words[..|words| - 1], key, default)
  }

  /** The last port that is a number; words that are not are passed over. */
  function LastPort(words: seq<string>, default: int): int {
    if words == [] then default
    else
      var v := ValueOf(words[|words| - 1], "fcpf.port");
      if v.Some? && Atoi(v.value).Some? then Atoi(v.value).value
      else LastPort(words[..|words| - 1], default)
  }

  datatype Settings = Settings(iface: string, ip: string, mask: string, host: string, port: int, disk: string)

  /** Each setting as the last word for its key says, and unchanged if no word
      does. */
  function SettingsAfter(words: seq<string>, s: Settings): Settings {
    Settings(
      LastValue(words, "fcpf.iface", s.iface),
      LastValue(words, "fcpf.ip", s.ip),
      LastValue(words, "fcpf.mask", s.mask),
      LastValue(words, "fcpf.host", s.host),
      LastPort(words, s.port),
      LastValue(words, "fcpf.disk", s.disk))
  }

  /** The guest's package-level settings. */
  class GuestConfig {
    var iface: string
    var ip: string
    var mask: string
    var host: string
    var port: int
    var disk: string

    function Value(): Settings
      reads this
    {
      Settings(iface, ip, mask, host, port, disk)
    }

    constructor ()
      ensures Value() == Settings("eth0", "", GUEST_NETMASK, "", ECHO_PORT, "")
    {
      iface, ip, mask, host, port, disk := "eth0", "", GUEST_NETMASK, "", ECHO_PORT, "";
    }

    method ParseGuestCmdline(cmdline: string)
      modifies this
      ensures Value() == SettingsAfter(Fields(cmdline), old(Value()))
    {
      hide Fields, Cut, Atoi;
      var words := Fields(cmdline);
      for i := 0 to |words|
        invariant Value() == SettingsAfter(words[..i], old(Value()))
      {
        assert words[..i + 1][..i] == words[..i];
        match Cut(words[i], "=") {
          case NotFound =>
          case Found(k, v) =>
            if k == "fcpf.ip" {
              ip := v;
            } else if k == "fcpf.mask" {
              mask := v;
            } else if k == "fcpf.host" {
              host := v;
            } else if k == "fcpf.iface" {
              iface := v;
            } else if k == "fcpf.disk" {
              disk := v;
            } else if k == "fcpf.port" {
              match Atoi(v) {
                case Some(n) => port := n;
                case None =>
              }
            }
        }
      }
      assert words[..|words|] == words;
    }
  }

  // ----- recovery -----

  lemma {:induction false} ValueOfWord(key: string, v: string)
    requires '=' !in key
    ensures Cut(key + "=" + v, "=") == Found(key, v)
  {
    var s := key + "=" + v;
    forall k | 0 <= k < |key|
      ensures !OccursAt(s, "=", k)
    {
      assert s[k] == key[k];
    }
    CutIsFirst(key, "=", v);
  }

  lemma {:induction false} HostWordValues(base: uint32, i: nat)
    ensures var w := HostWords(base, i);
      && Cut(w[0], "=") == Found("fcpf.ip", VmGuestIP(base, i))
      && Cut(w[1], "=") == Found("fcpf.mask", GUEST_NETMASK)
      && Cut(w[2], "=") == Found("fcpf.host", VmHostIP(base, i))
      && Cut(w[3], "=") == Found("fcpf.port", Decimal(ECHO_PORT))
      && Cut(w[4], "=") == Found("fcpf.disk", GUEST_DISK)
  {
    hide VmGuestIP, VmHostIP, Decimal, Cut;
    ValueOfWord("fcpf.ip", VmGuestIP(base, i));
    ValueOfWord("fcpf.mask", GUEST_NETMASK);
    ValueOfWord("fcpf.host", VmHostIP(base, i));
    ValueOfWord("fcpf.port", Decimal(ECHO_PORT));
    ValueOfWord("fcpf.disk", GUEST_DISK);
    assert "fcpf.ip=" == "fcpf.ip" + "=";
    assert "fcpf.mask=" == "fcpf.mask" + "=";
    assert "fcpf.host=" == "fcpf.host" + "=";
    assert "fcpf.port=" == "fcpf.port" + "=";
    assert "fcpf.disk=" == "fcpf.disk" + "=";
  }

  lemma {:induction false} HostWordsVisible(base: uint32, i: nat)
    ensures forall k :: 0 <= k < 5 ==> HostWords(base, i)[k] != "" && NoSpace(HostWords(base, i)[k])
  {
    IpStringVisible(GuestAddr(base, i));
    IpStringVisible(HostAddr(base, i));
    hide IpString, Decimal;
  }

  lemma {:induction false} FiveWords(w: seq<string>)
    requires |w| == 5
    ensures [w[0]] + [w[1]] + [w[2]] + [w[3]] + [w[4]] == w
  {
  }

  lemma {:induction false} FieldsAppendWords(line: string, words: seq<string>)
    requires forall k :: 0 <= k < |words| ==> words[k] != "" && NoSpace(words[k])
    ensures Fields(AppendWords(line, words)) == Fields(line) + words
  {
    hide Fields, NoSpace;
    if words != [] {
      var front, last := words[..|words| - 1], words[|words| - 1];
      FieldsAppendWords(line, front);
      FieldsAppend(AppendWords(line, front), last);
      assert words == front + [last];
    }
  }

  /** The guest sees the user's words followed by the host's, whatever the
      user's arguments contain. */
  lemma {:induction false} WordsSeen(user: string, base: uint32, i: nat)
    ensures Fields(GuestCmdline(BootArgs(user, base, i))) == Fields(user) + HostWords(base, i)
  {
    HostWordsVisible(base, i);
    hide HostWords, AppendWords, Fields, TrimSpace;
    var args := BootArgs(user, base, i);
    FieldsAppendWords(user, HostWords(base, i));
    FieldsTrimSpace(args + "\n");
    FieldsSplit(args, "\n");
    FieldsOfSpace("\n");
  }

  lemma {:induction false} LastValueAppend(ws: seq<string>, w: string, key: string, default: string)
    ensures LastValue(ws + [w], key, default)
         == if ValueOf(w, key).Some? then ValueOf(w, key).value else LastValue(ws, key, default)
  {
    assert (ws + [w])[..|ws|] == ws;
  }

  /** The last word for a key decides. */
  lemma {:induction false} LastWordWins(ws: seq<string>, k: nat, key: string, default: string)
    requires k < |ws| && ValueOf(ws[k], key).Some?
    requires forall j :: k < j < |ws| ==> ValueOf(ws[j], key).None?
    ensures LastValue(ws, key, default) == ValueOf(ws[k], key).value
  {
    hide ValueOf;
    if k < |ws| - 1 {
      LastWordWins(ws[..|ws| - 1], k, key, default);
    }
  }

  predicate GivesPort(word: string) {
    ValueOf(word, "fcpf.port").Some? && Atoi(ValueOf(word, "fcpf.port").value).Some?
  }

  /** The last port that is a number decides. */
  lemma {:induction false} LastNumberWins(ws: seq<string>, k: nat, default: int)
    requires k < |ws| && GivesPort(ws[k])
    requires forall j :: k < j < |ws| ==> !GivesPort(ws[j])
    ensures Some(LastPort(ws, default)) == Atoi(ValueOf(ws[k], "fcpf.port").value)
  {
    hide ValueOf, Atoi;
    if k < |ws| - 1 {
      LastNumberWins(ws[..|ws| - 1], k, default);
    }
  }

  /** Words that say nothing leave the settings as they were. */
  lemma {:induction false} OtherWordsIgnored(ws: seq<string>, key: string, default: string, port: int)
    ensures (forall w :: w in ws ==> ValueOf(w, key).None?) ==> LastValue(ws, key, default) == default
    ensures (forall w :: w in ws ==> !GivesPort(w)) ==> LastPort(ws, port) == port
  {
    hide ValueOf, Atoi;
    if ws != [] {
      assert ws[|ws| - 1] in ws;
      OtherWordsIgnored(ws[..|ws| - 1], key, default, port);
    }
  }

  /** Numbers within 64 bits are read back from their print, with either sign;
      others are refused. */
  lemma {:induction false} AtoiReads(n: nat)
    ensures Atoi(Decimal(n)) == if n < 0x8000_0000_0000_0000 then Some(n) else None
    ensures Atoi("+" + Decimal(n)) == Atoi(Decimal(n))
    ensures var minus := 0 - n;
      Atoi("-" + Decimal(n)) == if n <= 0x8000_0000_0000_0000 then Some(minus) else None
  {
    DecimalRoundTrip(n);
    var d := Decimal(n);
    hide Decimal, DecimalValue;
    assert IsDigit(d[0]);
    assert ("+" + d)[1..] == d && ("-" + d)[1..] == d;
  }

  lemma {:induction false} LastValueAfterHost(ws: seq<string>, base: uint32, i: nat, key: string, default: string)
    ensures LastValue(ws + HostWords(base, i), key, default)
         == if key == "fcpf.ip" then VmGuestIP(base, i)
            else if key == "fcpf.mask" then GUEST_NETMASK
            else if key == "fcpf.host" then VmHostIP(base, i)
            else if key == "fcpf.port" then Decimal(ECHO_PORT)
            else if key == "fcpf.disk" then GUEST_DISK
            else LastValue(ws, key, default)
  {
    HostWordValues(base, i);
    var w := HostWords(base, i);
    hide HostWords, LastValue, VmGuestIP, VmHostIP, Decimal, Cut;
    FiveWords(w);
    assert ws + w == ws + [w[0]] + [w[1]] + [w[2]] + [w[3]] + [w[4]];
    LastValueAppend(ws, w[0], key, default);
    LastValueAppend(ws + [w[0]], w[1], key, default);
    LastValueAppend(ws + [w[0]] + [w[1]], w[2], key, default);
    LastValueAppend(ws + [w[0]] + [w[1]] + [w[2]], w[3], key, default);
    LastValueAppend(ws + [w[0]] + [w[1]] + [w[2]] + [w[3]], w[4], key, default);
  }

  lemma {:induction false} PortWords(base: uint32, i: nat)
    ensures ValueOf(HostWords(base, i)[3], "fcpf.port") == Some(Decimal(ECHO_PORT))
    ensures ValueOf(HostWords(base, i)[4], "fcpf.port") == None
  {
    HostWordValues(base, i);
    hide HostWords, Cut, Decimal;
  }

  lemma {:induction false} PortReads()
    ensures Atoi(Decimal(ECHO_PORT)) == Some(ECHO_PORT)
  {
    hide Decimal, DecimalValue;
    DecimalRoundTrip(ECHO_PORT);
  }

  lemma {:induction false} LastPortAppend(ws: seq<string>, w: string, default: int)
    ensures LastPort(ws + [w], default)
         == var v := ValueOf(w, "fcpf.port");
            if v.Some? && Atoi(v.value).Some? then Atoi(v.value).value else LastPort(ws, default)
  {
    assert (ws + [w])[..|ws|] == ws;
  }

  lemma {:induction false} LastPortAfterHost(ws: seq<string>, base: uint32, i: nat, default: int)
    ensures LastPort(ws + HostWords(base, i), default) == ECHO_PORT
  {
    hide *;
    PortWords(base, i);
    PortReads();
    var w := HostWords(base, i);
    FiveWords(w);
    var front := ws + [w[0]] + [w[1]] + [w[2]];
    assert ws + w == front + [w[3]] + [w[4]];
    LastPortAppend(front, w[3], default);
    LastPortAppend(front + [w[3]], w[4], default);
  }

  lemma {:induction false} DecimalOfMask()
    ensures Decimal(255) == "255" && Decimal(252) == "252"
  {
    assert Decimal(25) == "25";
  }

  lemma {:induction false} MaskText()
    ensures "255" + "." + "255" + "." + "255" + "." + "252" == GUEST_NETMASK
  {
  }

  lemma {:induction false} MaskParses(m: string)
    requires m == Decimal(255) + "." + Decimal(255) + "." + Decimal(255) + "." + Decimal(252)
    ensures ParseIPv4(m) == Some(0xFFFF_FFFC)
  {
    hide Decimal, ParseIPv4;
    assert Octets(0xFFFF_FFFC) == (255, 255, 255, 252);
    hide Octets;
    ParseIsInverseOfPrint(m, 0xFFFF_FFFC);
  }

  lemma {:induction false} NetmaskParses()
    ensures ParseIPv4(GUEST_NETMASK) == Some(0xFFFF_FFFC)
  {
    hide ParseIPv4, Decimal;
    DecimalOfMask();
    MaskText();
    MaskParses(GUEST_NETMASK);
  }

  /** The settings as the guest's network code reads them. */
  predicate Recovered(s: Settings, guest: uint32, host: uint32) {
    && ParseIPv4(s.ip) == Some(guest)
    && ParseIPv4(s.mask) == Some(0xFFFF_FFFC)
    && ParseIPv4(s.host) == Some(host)
    && s.port == ECHO_PORT
    && s.disk == GUEST_DISK
  }

  /** For every base, every VM and arbitrary user arguments, even ones with
      fcpf.* words of their own, the guest recovers what the host printed,
      whatever its settings were before. The interface name alone is left to
      the user's words. */
  lemma {:induction false} SettingsRecovered(user: string, base: uint32, i: nat, s: Settings)
    ensures var s' := SettingsAfter(Fields(GuestCmdline(BootArgs(user, base, i))), s);
      && Recovered(s', GuestAddr(base, i), HostAddr(base, i))
      && s'.iface == LastValue(Fields(user), "fcpf.iface", s.iface)
  {
    WordsSeen(user, base, i);
    NetmaskParses();
    ParseIsInverseOfPrint(VmGuestIP(base, i), GuestAddr(base, i));
    ParseIsInverseOfPrint(VmHostIP(base, i), HostAddr(base, i));
    hide Fields, BootArgs, HostWords, LastValue, LastPort, ParseIPv4, IpString, GuestAddr, HostAddr;
    var ws := Fields(user);
    LastValueAfterHost(ws, base, i, "fcpf.ip", s.ip);
    LastValueAfterHost(ws, base, i, "fcpf.mask", s.mask);
    LastValueAfterHost(ws, base, i, "fcpf.host", s.host);
    LastValueAfterHost(ws, base, i, "fcpf.disk", s.disk);
    LastValueAfterHost(ws, base, i, "fcpf.iface", s.iface);
    LastPortAfterHost(ws, base, i, s.port);
  }

  /** End to end: with any accepted -guest-net, guest `i` ends up with the
      second usable address of its own block, mask 255.255.255.252, the host's
      end of the block, the echo port and /dev/vda. */
  lemma {:induction false} EndToEnd(cidr: string, vms: nat, i: nat, user: string, s: Settings)
    requires i < vms && Resolved(cidr, vms).Ok?
    ensures var base := Resolved(cidr, vms).value;
      && base < LIMIT && base + 4 * i + 2 < LIMIT
      && Recovered(SettingsAfter(Fields(GuestCmdline(BootArgs(user, base, i))), s), base + 4 * i + 2, base + 4 * i + 1)
  {
    hide Resolved, ParseCIDR, RangeOf, BootArgs, GuestCmdline, SettingsAfter, Fields, Recovered;
    hide GuestAddr, HostAddr, VmBase;
    AcceptedRange(cidr, vms);
    var base := Resolved(cidr, vms).value;
    BlockArithmetic(base, vms, i);
    SettingsRecovered(user, base, i, s);
  }
}
