/** The archive writer of initramfs.go, proved against the reader. */
module CpioWriter {
  import opened Wrappers
  import opened Words
  import opened Numerals
  import opened CpioFormat

  const MODE_FILE: uint32 := 0x8000
  const MODE_DIR: uint32 := 0x4000
  const MODE_CHAR: uint32 := 0x2000

  datatype Entry = Entry(name: Bytes, mode: uint32, data: Bytes, rdevMajor: uint32, rdevMinor: uint32)

  // ----- what is written -----

  function Nuls(n: nat): Bytes {
    seq(n, _ => NUL)
  }

  function Padded(s: Bytes): (r: Bytes)
    ensures |r| == Align4(|s|)
  {
    s + Nuls(Align4(|s|) - |s|)
  }

  /** `%08X` for each value in turn. */
  function HexFields(vs: seq<nat>): Bytes {
    if vs == [] then [] else HexPad(vs[0], 8) + HexFields(vs[1..])
  }

  function HeaderBytes(h: Header): Bytes {
    MAGIC + HexFields(FieldsOf(h))
  }

  /** One member with an arbitrary header. */
  function EncodeMember(h: Header, name: Bytes, data: Bytes): (s: Bytes)
    ensures |s| % 4 == 0 && |s| > 0
  {
    Padded(HeaderBytes(h) + name + [NUL]) + Padded(data)
  }

  function EntryHeader(ino: nat, e: Entry): Header {
    Header(ino, e.mode, 0, 0, 1, 0, |e.data|, 0, 0, e.rdevMajor, e.rdevMinor, |e.name| + 1, 0)
  }

  function EncodeEntry(ino: nat, e: Entry): (s: Bytes)
    ensures |s| % 4 == 0 && |s| > 0
  {
    EncodeMember(EntryHeader(ino, e), e.name, e.data)
  }

  /** All fields zero except a link count of 1 and the name's size. */
  const TRAILER_HEADER := Header(0, 0, 0, 0, 1, 0, 0, 0, 0, 0, 0, 11, 0)

  function EncodeTrailer(): (s: Bytes)
    ensures s != []
  {
    EncodeMember(TRAILER_HEADER, TRAILER, [])
  }

  /** Entries numbered from `k + 1`, in 32-bit arithmetic. */
  function EncodeFrom(es: seq<Entry>, k: nat): Bytes
    decreases |es|
  {
    if es == [] then []
    else EncodeEntry(Wrap32(k + 1), es[0]) + EncodeFrom(es[1..], k + 1)
  }

  function Encode(es: seq<Entry>): Bytes {
    EncodeFrom(es, 0) + EncodeTrailer()
  }

  // ----- what a reader should see -----

  function MemberOf(ino: nat, e: Entry): Member {
    Member(EntryHeader(ino, e), e.name, e.data)
  }

  function MembersFrom(es: seq<Entry>, k: nat): (ms: seq<Member>) {
    seq(|es|, i requires 0 <= i < |es| => MemberOf(Wrap32(k + 1 + i), es[i]))
  }

  /** The sizes fit their eight-digit fields. */
  predicate Fits(e: Entry) {
    |e.data| < LIMIT && |e.name| + 1 < LIMIT
  }

  predicate AllFit(es: seq<Entry>) {
    forall k :: 0 <= k < |es| ==> Fits(es[k])
  }

  /** The entries before the first one that reads as the trailer. */
  function BeforeTrailer(es: seq<Entry>): seq<Entry> {
    if es == [] || es[0].name == TRAILER then []
    else [es[0]] + BeforeTrailer(es[1..])
  }

  // ----- header bounds -----

  lemma {:induction false} HexFieldsRead(vs: seq<nat>)
    requires forall k :: 0 <= k < |vs| ==> vs[k] < LIMIT
    ensures |HexFields(vs)| == 8 * |vs|
    ensures ReadFields(HexFields(vs), |vs|) == Some(vs)
  {
    if vs != [] {
      assert Pow16(8) == LIMIT;
      HexWidth(vs[0], 8);
      HexRoundTrip(vs[0], 8);
      HexFieldsRead(vs[1..]);
      assert HexFields(vs)[..8] == HexPad(vs[0], 8);
      assert HexFields(vs)[8..] == HexFields(vs[1..]);
      assert [vs[0]] + vs[1..] == vs;
    }
  }

  lemma {:induction false} HexFieldsLength(vs: seq<nat>)
    ensures |HexFields(vs)| >= 8 * |vs|
    ensures |HexFields(vs)| == 8 * |vs| <==> forall k :: 0 <= k < |vs| ==> vs[k] < LIMIT
  {
    if vs != [] {
      assert Pow16(8) == LIMIT;
      HexWidth(vs[0], 8);
      HexFieldsLength(vs[1..]);
      assert forall k :: 0 < k < |vs| ==> vs[k] == vs[1..][k - 1];
      if forall k :: 0 <= k < |vs| ==> vs[k] < LIMIT {
        forall k | 0 <= k < |vs[1..]| ensures vs[1..][k] < LIMIT { assert vs[1..][k] == vs[k + 1]; }
      }
    }
  }

  predicate HeaderFits(h: Header) {
    forall i :: 0 <= i < FIELDS ==> HeaderField(h, i) < LIMIT
  }

  /** The header is exactly 110 bytes when every field fits, and longer when
      one does not. */
  lemma {:induction false} HeaderSize(h: Header)
    ensures |HeaderBytes(h)| >= HEADER_SIZE
    ensures |HeaderBytes(h)| == HEADER_SIZE <==> HeaderFits(h)
  {
    var vs := FieldsOf(h);
    HexFieldsLength(vs);
    assert forall i :: 0 <= i < FIELDS ==> vs[i] == HeaderField(h, i);
  }

  lemma {:induction false} EntryHeaderFits(ino: uint32, e: Entry)
    ensures HeaderFits(EntryHeader(ino, e)) <==> Fits(e)
  {
    var h := EntryHeader(ino, e);
    assert HeaderField(h, 6) == |e.data| && HeaderField(h, 11) == |e.name| + 1;
  }

  // ----- alignment -----

  lemma {:induction false} SumAligned(m: nat, n: nat)
    requires m % 4 == 0 && n % 4 == 0
    ensures (m + n) % 4 == 0
  {
  }

  /** Every member, and so the trailer, starts on a multiple of four. */
  lemma {:induction false} Aligned(es: seq<Entry>, k: nat)
    ensures |EncodeFrom(es, k)| % 4 == 0
    decreases |es|
  {
    hide EncodeEntry, Wrap32, Align4;
    if es != [] {
      Aligned(es[1..], k + 1);
      SumAligned(|EncodeEntry(Wrap32(k + 1), es[0])|, |EncodeFrom(es[1..], k + 1)|);
    }
  }

  // ----- reading back -----

  lemma {:induction false} PaddedTail(s: Bytes, rest: Bytes)
    ensures (Padded(s) + rest)[..|s|] == s
    ensures AllNul((Padded(s) + rest)[|s|..Align4(|s|)])
    ensures (Padded(s) + rest)[Align4(|s|)..] == rest
  {
  }

  lemma {:induction false} Align4Shift(m: nat, n: nat)
    requires m % 4 == 0
    ensures Align4(m + n) == m + Align4(n)
  {
  }

  /** Where a reader finds the parts of an encoded member. */
  lemma {:induction false} Layout(head: Bytes, data: Bytes, rest: Bytes)
    ensures var a := Padded(head) + Padded(data) + rest;
            var dataStart := Align4(|head|);
            var dataEnd := dataStart + |data|;
            var next := Align4(dataEnd);
            && next <= |a|
            && a[..|head|] == head
            && AllNul(a[|head|..dataStart])
            && a[dataStart..dataEnd] == data
            && AllNul(a[dataEnd..next])
            && a[next..] == rest
  {
    var tail := Padded(data) + rest;
    var a := Padded(head) + tail;
    assert a == Padded(head) + Padded(data) + rest;
    PaddedTail(head, tail);
    PaddedTail(data, rest);
    hide Padded, AllNul, Align4;
    var dataStart := Align4(|head|);
    var dataEnd := dataStart + |data|;
    var next := Align4(dataEnd);
    Align4Shift(dataStart, |data|);
    assert a[dataStart..] == tail;
    assert a[dataStart..dataEnd] == tail[..|data|];
    assert a[dataEnd..next] == tail[|data|..Align4(|data|)];
    assert a[next..] == tail[Align4(|data|)..];
  }

  lemma {:induction false} HeaderReads(h: Header, name: Bytes, a: Bytes)
    requires HeaderFits(h)
    requires HeaderBytes(h) + name + [NUL] <= a
    ensures |HeaderBytes(h)| == HEADER_SIZE
    ensures a[..6] == MAGIC
    ensures ReadFields(a[6..HEADER_SIZE], FIELDS) == Some(FieldsOf(h))
    ensures a[HEADER_SIZE..HEADER_SIZE + |name|] == name && a[HEADER_SIZE + |name|] == NUL
  {
    HexFieldsRead(FieldsOf(h));
    hide HexFields, FieldsOf, ReadFields;
    var head := HeaderBytes(h) + name + [NUL];
    assert head[..6] == MAGIC && head[6..HEADER_SIZE] == HexFields(FieldsOf(h));
    assert head[HEADER_SIZE..|head| - 1] == name && head[|head| - 1] == NUL;
    assert a[..|head|] == head;
    assert a[..6] == a[..|head|][..6];
    assert a[6..HEADER_SIZE] == a[..|head|][6..HEADER_SIZE];
    assert a[HEADER_SIZE..|head| - 1] == a[..|head|][HEADER_SIZE..|head| - 1];
    assert a[|head| - 1] == a[..|head|][|head| - 1];
  }

  lemma {:induction false} ReadBackMember(h: Header, name: Bytes, data: Bytes, rest: Bytes)
    requires HeaderFits(h) && h.filesize == |data| && h.namesize == |name| + 1
    ensures ReadMember(EncodeMember(h, name, data) + rest) == Some((Member(h, name, data), rest))
  {
    hide HeaderBytes, FieldsOf, HeaderOf, ReadFields, HeaderFits, Padded, AllNul, Align4;
    HeaderOfFields(h);
    Layout(HeaderBytes(h) + name + [NUL], data, rest);
    HeaderReads(h, name, EncodeMember(h, name, data) + rest);
  }

  lemma {:induction false} ReadBackEntry(ino: uint32, e: Entry, rest: Bytes)
    requires Fits(e)
    ensures ReadMember(EncodeEntry(ino, e) + rest) == Some((MemberOf(ino, e), rest))
  {
    EntryHeaderFits(ino, e);
    ReadBackMember(EntryHeader(ino, e), e.name, e.data, rest);
  }

  lemma {:induction false} ReadBackTrailer()
    ensures Decode(EncodeTrailer()) == Some(Unpacked([], []))
  {
    ReadBackMember(TRAILER_HEADER, TRAILER, [], []);
    assert EncodeTrailer() + [] == EncodeTrailer();
  }

  lemma {:induction false} DecodeUnfold(a: Bytes, m: Member, rest: Bytes)
    requires ReadMember(a) == Some((m, rest))
    ensures m.name == TRAILER ==> Decode(a) == Some(Unpacked([], rest))
    ensures m.name != TRAILER && Decode(rest).Some? ==>
      Decode(a) == Some(Unpacked([m] + Decode(rest).value.members, Decode(rest).value.rest))
  {
  }

  /** What the reader must return for entries numbered from `k + 1`. */
  ghost predicate ReadsAs(r: Option<Unpacked>, es: seq<Entry>, k: nat) {
    && r.Some?
    && r.value.members == MembersFrom(BeforeTrailer(es), k)
    && (r.value.rest == [] <==> BeforeTrailer(es) == es)
  }

  lemma {:induction false} ReadsAsCons(r: Option<Unpacked>, e: Entry, es: seq<Entry>, k: nat)
    requires e.name != TRAILER && ReadsAs(r, es, k + 1)
    ensures ReadsAs(Some(Unpacked([MemberOf(Wrap32(k + 1), e)] + r.value.members, r.value.rest)), [e] + es, k)
  {
    hide MemberOf, Wrap32;
    assert ([e] + es)[1..] == es;
    var seen := BeforeTrailer(es);
    assert BeforeTrailer([e] + es) == [e] + seen;
    assert MembersFrom([e] + seen, k) == [MemberOf(Wrap32(k + 1), e)] + MembersFrom(seen, k + 1);
    assert ([e] + seen)[1..] == seen;
  }

  lemma {:induction false} NothingToRead(k: nat)
    ensures ReadsAs(Some(Unpacked([], [])), [], k)
  {
  }

  lemma {:induction false} NothingBefore(es: seq<Entry>, rest: Bytes, k: nat)
    requires es != [] && es[0].name == TRAILER && rest != []
    ensures ReadsAs(Some(Unpacked([], rest)), es, k)
  {
  }

  lemma {:induction false} DecodeFrom(es: seq<Entry>, k: nat)
    requires AllFit(es)
    ensures ReadsAs(Decode(EncodeFrom(es, k) + EncodeTrailer()), es, k)
    decreases |es|
  {
    hide EncodeEntry, EncodeTrailer, MembersFrom, Decode, ReadMember, Wrap32;
    var a := EncodeFrom(es, k) + EncodeTrailer();
    if es == [] {
      assert a == EncodeTrailer();
      ReadBackTrailer();
      NothingToRead(k);
    } else {
      var ino, e, rest := Wrap32(k + 1), es[0], EncodeFrom(es[1..], k + 1) + EncodeTrailer();
      assert a == EncodeEntry(ino, e) + rest;
      ReadBackEntry(ino, e, rest);
      DecodeUnfold(a, MemberOf(ino, e), rest);
      if e.name == TRAILER {
        NothingBefore(es, rest, k);
      } else {
        DecodeFrom(es[1..], k + 1);
        ReadsAsCons(Decode(rest), e, es[1..], k);
        assert es == [e] + es[1..];
      }
    }
  }

  /** Reading an archive returns the entries up to the first one named like
      the trailer, and leaves the rest unread. */
  lemma {:induction false} DecodeStopsAtTrailer(es: seq<Entry>)
    requires AllFit(es)
    ensures Decode(Encode(es)).Some?
    ensures Decode(Encode(es)).value.members == MembersFrom(BeforeTrailer(es), 0)
    ensures Decode(Encode(es)).value.rest == [] <==> BeforeTrailer(es) == es
  {
    DecodeFrom(es, 0);
  }

  lemma {:induction false} BeforeNoTrailer(es: seq<Entry>)
    ensures BeforeTrailer(es) == es <==> forall e :: e in es ==> e.name != TRAILER
  {
    if es != [] {
      BeforeNoTrailer(es[1..]);
      assert es == [es[0]] + es[1..];
    }
  }

  lemma {:induction false} MemberOfEach(es: seq<Entry>, e: Entry)
    requires e in es
    ensures exists m :: m in MembersFrom(es, 0) && m.name == e.name && m.data == e.data
  {
    var i :| 0 <= i < |es| && es[i] == e;
    assert MembersFrom(es, 0)[i] in MembersFrom(es, 0);
  }

  /** Round trip, with its exact condition: a reader recovers every entry in
      order and consumes the archive if and only if every size fits 32 bits
      and no entry is named TRAILER!!!. */
  lemma {:induction false} RoundTrip(es: seq<Entry>)
    ensures Decode(Encode(es)) == Some(Unpacked(MembersFrom(es, 0), []))
       <==> forall e :: e in es ==> Fits(e) && e.name != TRAILER
  {
    hide Encode, Decode, MembersFrom;
    if forall e :: e in es ==> Fits(e) && e.name != TRAILER {
      BeforeNoTrailer(es);
      DecodeStopsAtTrailer(es);
    }
    if Decode(Encode(es)) == Some(Unpacked(MembersFrom(es, 0), [])) {
      DecodedMembersFit(Encode(es));
      forall e | e in es
        ensures Fits(e) && e.name != TRAILER
      {
        MemberOfEach(es, e);
      }
    }
  }

  /** Inodes count from 1 as long as the counter has not wrapped. */
  lemma {:induction false} InodesCount(es: seq<Entry>, i: nat)
    requires i < |es| < LIMIT
    ensures MembersFrom(es, 0)[i].header.ino == i + 1
  {
  }

  // ----- sizes -----

  function TotalSize(es: seq<Entry>): nat {
    if es == [] then 0
    else Align4(111 + |es[0].name|) + Align4(|es[0].data|) + TotalSize(es[1..])
  }

  lemma {:induction false} EncodeFromSize(es: seq<Entry>, k: nat)
    requires AllFit(es)
    ensures |EncodeFrom(es, k)| == TotalSize(es)
    decreases |es|
  {
    if es != [] {
      HeaderSize(EntryHeader(Wrap32(k + 1), es[0]));
      EntryHeaderFits(Wrap32(k + 1), es[0]);
      EncodeFromSize(es[1..], k + 1);
    }
  }

  lemma {:induction false} ArchiveSize(es: seq<Entry>)
    requires AllFit(es)
    ensures |Encode(es)| == TotalSize(es) + 124
  {
    hide EncodeFrom, HexFields, FieldsOf, TotalSize;
    EncodeFromSize(es, 0);
    HeaderSize(TRAILER_HEADER);
  }

  // ----- the writer -----

  lemma {:induction false} PaddedAfter(s: Bytes, t: Bytes)
    requires |s| % 4 == 0
    ensures Padded(s + t) == s + Padded(t)
  {
    Align4Shift(|s|, |t|);
  }

  lemma {:induction false} EncodeFromAppend(es: seq<Entry>, k: nat, e: Entry)
    ensures EncodeFrom(es + [e], k) == EncodeFrom(es, k) + EncodeEntry(Wrap32(k + |es| + 1), e)
    decreases |es|
  {
    hide EncodeEntry, Wrap32;
    if es == [] {
      assert es + [e] == [e] && [e][1..] == [];
    } else {
      assert (es + [e])[1..] == es[1..] + [e];
      EncodeFromAppend(es[1..], k + 1, e);
    }
  }

  /** The thirteen arguments of the source's Fprintf, in order. */
  lemma {:induction false} PrintedHeader(ino: nat, e: Entry)
    ensures MAGIC + HexFields([ino, e.mode, 0, 0, 1, 0, |e.data|, 0, 0, e.rdevMajor, e.rdevMinor, |e.name| + 1, 0])
         == HeaderBytes(EntryHeader(ino, e))
  {
    hide HexFields;
    assert [ino, e.mode, 0, 0, 1, 0, |e.data|, 0, 0, e.rdevMajor, e.rdevMinor, |e.name| + 1, 0]
        == FieldsOf(EntryHeader(ino, e));
  }

  /** Two rounds of padding at aligned positions make one encoded entry. */
  lemma {:induction false} EntryIsPaddedTwice(start: Bytes, ino: nat, e: Entry)
    requires |start| % 4 == 0
    ensures var head := HeaderBytes(EntryHeader(ino, e)) + e.name + [NUL];
            Padded(Padded(start + head) + e.data) == start + EncodeEntry(ino, e)
  {
    hide HeaderBytes, EntryHeader;
    var head := HeaderBytes(EntryHeader(ino, e)) + e.name + [NUL];
    PaddedAfter(start, head);
    PaddedAfter(start + Padded(head), e.data);
    assert start + Padded(head) + Padded(e.data) == start + (Padded(head) + Padded(e.data));
  }

  lemma {:induction false} WrapSuccessor(n: nat)
    ensures Wrap32(Wrap32(n) + 1) == Wrap32(n + 1)
  {
  }

  lemma {:induction false} EightZeros()
    ensures HexPad(0, 8) == "00000000"
  {
    assert HexPad(0, 2) == "00";
    assert HexPad(0, 4) == "0000";
    assert HexPad(0, 6) == "000000";
  }

  lemma {:induction false} HexFieldsAppend(vs: seq<nat>, v: nat)
    ensures HexFields(vs + [v]) == HexFields(vs) + HexPad(v, 8)
  {
    if vs == [] {
      assert vs + [v] == [v] && [v][1..] == [];
    } else {
      assert (vs + [v])[1..] == vs[1..] + [v];
      HexFieldsAppend(vs[1..], v);
    }
  }

  /** What each round of the trailer loop must print. */
  lemma {:induction false} TrailerFields()
    ensures HexFields([]) == []
    ensures forall i :: 0 <= i < FIELDS ==>
      HexPad(FieldsOf(TRAILER_HEADER)[i], 8)
      == if i == 11 then HexPad(|TRAILER| + 1, 8) else if i == 4 then HexPad(1, 8) else "00000000"
  {
    EightZeros();
    hide HexPad;
  }

  lemma {:induction false} TrailerIsPadded(start: Bytes)
    requires |start| % 4 == 0
    ensures Padded(start + MAGIC + HexFields(FieldsOf(TRAILER_HEADER)) + TRAILER + [NUL]) == start + EncodeTrailer()
  {
    hide HexFields, FieldsOf;
    var head := HeaderBytes(TRAILER_HEADER) + TRAILER + [NUL];
    assert start + MAGIC + HexFields(FieldsOf(TRAILER_HEADER)) + TRAILER + [NUL] == start + head;
    PaddedAfter(start, head);
    assert Padded([]) == [];
  }

  class Writer {
    var buf: Bytes
    var ino: uint32
    ghost var entries: seq<Entry>

    ghost predicate Valid()
      reads this
    {
      buf == EncodeFrom(entries, 0) && ino == Wrap32(|entries|)
    }

    constructor ()
      ensures Valid() && entries == []
    {
      buf, ino, entries := [], 0, [];
    }

    method Pad()
      modifies `buf
      ensures buf == Padded(old(buf))
    {
      ghost var was := |buf|;
      while |buf| % 4 != 0
        invariant was <= |buf| <= Align4(was)
        invariant buf == old(buf) + Nuls(|buf| - was)
        decreases Align4(was) - |buf|
      {
        buf := buf + [NUL];
      }
    }

    method Add(e: Entry)
      requires Valid()
      modifies this
      ensures Valid() && entries == old(entries) + [e]
    {
      hide Padded, HeaderBytes, EntryHeader, EncodeEntry, HexFields, EncodeFrom, Wrap32;
      WrapSuccessor(|entries|);
      ino := Wrap32(ino + 1);
      buf := buf + MAGIC
        + HexFields([ino, e.mode, 0, 0, 1, 0, |e.data|, 0, 0, e.rdevMajor, e.rdevMinor, |e.name| + 1, 0]);
      buf := buf + e.name;
      buf := buf + [NUL];
      PrintedHeader(ino, e);
      assert buf == old(buf) + (HeaderBytes(EntryHeader(ino, e)) + e.name + [NUL]);
      Pad();
      buf := buf + e.data;
      Pad();
      Aligned(entries, 0);
      EntryIsPaddedTwice(old(buf), ino, e);
      EncodeFromAppend(entries, 0, e);
      entries := entries + [e];
    }

    /** Writes the trailer field by field; the result is the generic encoding
        of an entry named TRAILER!!!. */
    method Finish() returns (archive: Bytes)
      requires Valid()
      modifies `buf
      ensures archive == buf == Encode(entries)
    {
      hide Padded, HeaderBytes, HexFields, HexPad, EncodeFrom, Wrap32, HeaderField, FieldsOf;
      TrailerFields();
      ghost var start, fields := buf, FieldsOf(TRAILER_HEADER);
      buf := buf + MAGIC;
      for i := 0 to FIELDS
        invariant buf == start + MAGIC + HexFields(fields[..i])
      {
        HexFieldsAppend(fields[..i], fields[i]);
        assert fields[..i] + [fields[i]] == fields[..i + 1];
        if i == 11 {
          buf := buf + HexPad(|TRAILER| + 1, 8);
        } else if i == 4 {
          buf := buf + HexPad(1, 8);
        } else {
          buf := buf + "00000000";
        }
      }
      assert fields[..FIELDS] == fields;
      buf := buf + TRAILER;
      buf := buf + [NUL];
      Aligned(entries, 0);
      TrailerIsPadded(start);
      Pad();
      archive := buf;
    }
  }

  // ----- the initramfs -----

  function Directory(name: Bytes): Entry {
    Entry(name, MODE_DIR + 0x1ED, [], 0, 0)
  }

  /** 0755 is 0x1ED and 0600 is 0x180; the type bits are disjoint from them,
      so adding is the source's bitwise or. */
  function InitramfsEntries(initBinary: Bytes): seq<Entry> {
    [Directory("dev"), Directory("proc"), Directory("sys"), Directory("tmp"),
     Entry("dev/console", MODE_CHAR + 0x180, [], 5, 1),
     Entry("init", MODE_FILE + 0x1ED, initBinary, 0, 0)]
  }

  method BuildInitramfs(initBinary: Bytes) returns (archive: Bytes)
    ensures archive == Encode(InitramfsEntries(initBinary))
  {
    hide EncodeFrom, Encode;
    var w := new Writer();
    var dirs: seq<Bytes> := ["dev", "proc", "sys", "tmp"];
    for i := 0 to |dirs|
      invariant w.Valid() && fresh(w)
      invariant w.entries == InitramfsEntries(initBinary)[..i]
    {
      w.Add(Entry(dirs[i], MODE_DIR + 0x1ED, [], 0, 0));
    }
    w.Add(Entry("dev/console", MODE_CHAR + 0x180, [], 5, 1));
    w.Add(Entry("init", MODE_FILE + 0x1ED, initBinary, 0, 0));
    assert w.entries == InitramfsEntries(initBinary);
    archive := w.Finish();
  }

  lemma {:induction false} InitramfsNames(es: seq<Entry>, initBinary: Bytes)
    requires es == InitramfsEntries(initBinary)
    ensures |es| == 6 && forall e :: e in es ==> e.name != TRAILER && |e.name| <= 11
  {
    assert es[0].name[0] == es[4].name[0] == 'd' && es[1].name[0] == 'p' && es[2].name[0] == 's';
    assert es[3].name[0] == 't' && es[5].name[0] == 'i' && TRAILER[0] == 'T';
  }

  lemma {:induction false} InitramfsFits(es: seq<Entry>, initBinary: Bytes)
    requires es == InitramfsEntries(initBinary)
    ensures |initBinary| < LIMIT <==> forall e :: e in es ==> Fits(e) && e.name != TRAILER
  {
    InitramfsNames(es, initBinary);
    assert es[5] in es && es[5].data == initBinary;
    assert forall k :: 0 <= k < 5 ==> es[k].data == [];
    hide InitramfsEntries;
  }

  /** The fields that are the same for every entry or follow from it: owned by
      root, one link, no time, and the sizes that the contents have. */
  predicate PlainHeader(m: Member, ino: nat) {
    && m.header.ino == ino && m.header.uid == 0 && m.header.gid == 0 && m.header.nlink == 1 && m.header.mtime == 0
    && m.header.filesize == |m.data| && m.header.namesize == |m.name| + 1
    && m.header.devMajor == 0 && m.header.devMinor == 0 && m.header.check == 0
  }

  lemma {:induction false} InitramfsMembers(initBinary: Bytes)
    ensures var ms := MembersFrom(InitramfsEntries(initBinary), 0);
      && |ms| == 6
      && ms[0].name == "dev" && ms[1].name == "proc" && ms[2].name == "sys" && ms[3].name == "tmp"
      && (forall k :: 0 <= k < 6 ==> PlainHeader(ms[k], k + 1))
      && (forall k :: 0 <= k < 4 ==> ms[k].header.mode == 0x41ED && ms[k].data == [])
      && ms[4].name == "dev/console" && ms[4].header.mode == 0x2180
      && ms[4].header.rdevMajor == 5 && ms[4].header.rdevMinor == 1
      && ms[5].name == "init" && ms[5].header.mode == 0x81ED && ms[5].data == initBinary
  {
    assert Wrap32(1) == 1 && Wrap32(2) == 2 && Wrap32(3) == 3 && Wrap32(4) == 4 && Wrap32(5) == 5 && Wrap32(6) == 6;
    hide Wrap32;
  }

  /** What the kernel unpacks: the four mount points, the console node 5:1 and
      /init with exactly the given bytes - for every binary below 4 GiB, and
      for no other. */
  lemma {:induction false} InitramfsUnpacks(initBinary: Bytes)
    ensures var ms := MembersFrom(InitramfsEntries(initBinary), 0);
      && (Decode(Encode(InitramfsEntries(initBinary))) == Some(Unpacked(ms, [])) <==> |initBinary| < LIMIT)
      && |ms| == 6
      && ms[0].name == "dev" && ms[1].name == "proc" && ms[2].name == "sys" && ms[3].name == "tmp"
      && (forall k :: 0 <= k < 6 ==> PlainHeader(ms[k], k + 1))
      && (forall k :: 0 <= k < 4 ==> ms[k].header.mode == 0x41ED && ms[k].data == [])
      && ms[4].name == "dev/console" && ms[4].header.mode == 0x2180
      && ms[4].header.rdevMajor == 5 && ms[4].header.rdevMinor == 1
      && ms[5].name == "init" && ms[5].header.mode == 0x81ED && ms[5].data == initBinary
  {
    hide Encode, Decode;
    var es := InitramfsEntries(initBinary);
    RoundTrip(es);
    InitramfsFits(es, initBinary);
    InitramfsMembers(initBinary);
    hide Fits, MembersFrom, InitramfsEntries;
  }
}
