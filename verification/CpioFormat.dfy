/** A reader for the SVR4 "newc" cpio format (cpio(5), "New ASCII Format"),
    written from the format alone. It is the specification of the writer. */
module CpioFormat {
  import opened Wrappers
  import opened Words
  import opened Numerals

  type Bytes = seq<byte>

  const NUL: byte := '\0'
  const MAGIC: Bytes := "070701"
  const TRAILER: Bytes := "TRAILER!!!"
  const FIELDS := 13
  const HEADER_SIZE := 110

  datatype Header = Header(
    ino: nat, mode: nat, uid: nat, gid: nat, nlink: nat, mtime: nat, filesize: nat,
    devMajor: nat, devMinor: nat, rdevMajor: nat, rdevMinor: nat, namesize: nat, check: nat)

  datatype Member = Member(header: Header, name: Bytes, data: Bytes)

  /** The members before the trailer, and what follows the trailer. */
  datatype Unpacked = Unpacked(members: seq<Member>, rest: Bytes)

  function Align4(n: nat): (m: nat)
    ensures n <= m < n + 4 && m % 4 == 0
  {
    if n % 4 == 0 then n else n + 4 - n % 4
  }

  predicate AllNul(s: Bytes) {
    forall k :: 0 <= k < |s| ==> s[k] == NUL
  }

  /** `n` fields of eight hexadecimal digits each. */
  function ReadFields(s: Bytes, n: nat): (r: Option<seq<nat>>)
    requires |s| == 8 * n
    ensures r.Some? ==> |r.value| == n
  {
    if n == 0 then Some([])
    else
      match (ParseHex(s[..8]), ReadFields(s[8..], n - 1))
      case (Some(v), Some(vs)) => Some([v] + vs)
      case _ => None
  }

  /** Field order of the header, as the format lists it. */
  function HeaderOf(vs: seq<nat>): Header
    requires |vs| == FIELDS
  {
    Header(vs[0], vs[1], vs[2], vs[3], vs[4], vs[5], vs[6], vs[7], vs[8], vs[9], vs[10], vs[11], vs[12])
  }

  function HeaderField(h: Header, i: nat): nat
    requires i < FIELDS
  {
    match i
    case 0 => h.ino
    case 1 => h.mode
    case 2 => h.uid
    case 3 => h.gid
    case 4 => h.nlink
    case 5 => h.mtime
    case 6 => h.filesize
    case 7 => h.devMajor
    case 8 => h.devMinor
    case 9 => h.rdevMajor
    case 10 => h.rdevMinor
    case 11 => h.namesize
    case _ => h.check
  }

  function FieldsOf(h: Header): (vs: seq<nat>)
    ensures |vs| == FIELDS
  {
    seq(FIELDS, i requires 0 <= i < FIELDS => HeaderField(h, i))
  }

  lemma {:induction false} HeaderOfFields(h: Header)
    ensures HeaderOf(FieldsOf(h)) == h
  {
  }

  /** One member at the front of `a`, and the rest. Header and name together,
      then the data, are filled with NULs to a multiple of four; offsets here
      are relative to the member, which equals the format's absolute alignment
      because every member starts on a multiple of four. */
  function ReadMember(a: Bytes): (r: Option<(Member, Bytes)>)
    ensures r.Some? ==>
      && |r.value.1| < |a|
      && |r.value.0.name| + 1 == r.value.0.header.namesize
      && |r.value.0.data| == r.value.0.header.filesize
  {
    if |a| < HEADER_SIZE || a[..6] != MAGIC then None
    else
      match ReadFields(a[6..HEADER_SIZE], FIELDS)
      case None => None
      case Some(vs) =>
        var h := HeaderOf(vs);
        var nameEnd := HEADER_SIZE + h.namesize;
        var dataStart := Align4(nameEnd);
        var dataEnd := dataStart + h.filesize;
        var next := Align4(dataEnd);
        if h.namesize == 0 || next > |a| then None
        else if a[nameEnd - 1] != NUL || !AllNul(a[nameEnd..dataStart]) || !AllNul(a[dataEnd..next]) then None
        else Some((Member(h, a[HEADER_SIZE..nameEnd - 1], a[dataStart..dataEnd]), a[next..]))
  }

  /** The whole archive: members up to the first one named TRAILER!!!. */
  function Decode(a: Bytes): Option<Unpacked>
    decreases |a|
  {
    match ReadMember(a)
    case None => None
    case Some((m, rest)) =>
      if m.name == TRAILER then Some(Unpacked([], rest))
      else
        match Decode(rest)
        case None => None
        case Some(u) => Some(Unpacked([m] + u.members, u.rest))
  }

  lemma {:induction false} ReadFieldsBound(s: Bytes, n: nat)
    requires |s| == 8 * n && ReadFields(s, n).Some?
    ensures forall k :: 0 <= k < n ==> ReadFields(s, n).value[k] < LIMIT
  {
    if n > 0 {
      ParseHexBound(s[..8]);
      assert Pow16(8) == LIMIT;
      ReadFieldsBound(s[8..], n - 1);
    }
  }

  /** Whatever the archive, a reader never returns a member that is named like
      the trailer or whose name or data does not fit a 32-bit field. */
  lemma {:induction false} DecodedMembersFit(a: Bytes)
    requires Decode(a).Some?
    ensures forall m :: m in Decode(a).value.members ==>
      m.name != TRAILER && |m.name| + 1 < LIMIT && |m.data| < LIMIT
    decreases |a|
  {
    var (m, rest) := ReadMember(a).value;
    ReadFieldsBound(a[6..HEADER_SIZE], FIELDS);
    if m.name != TRAILER {
      DecodedMembersFit(rest);
    }
  }
}
