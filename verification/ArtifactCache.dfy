/** resolveArtifact: fetching, verifying and publishing pinned artifacts in the
    cache directory, with a failure or a crash possible at any step. */
module ArtifactCache {
  import opened Wrappers
  import opened Numerals

  type Content = seq<byte>
  type Files = map<string, Content>

  /** A pinned artifact and the path it is published at; `member` is empty
      unless the download is a tarball to extract one file from. */
  datatype Artifact = Artifact(dest: string, sha256: string, member: string)

  /** SHA-256 in hexadecimal: any function will do. */
  type Digest = Content -> string

  /** What gzip and tar make of some bytes: whether they open at all, and
      the members that can be read, in order. */
  datatype Tarball = Tarball(opens: bool, members: seq<(string, Content)>)

  type Untar = Content -> Tarball

  function Tmp(a: Artifact): string {
    a.dest + ".partial"
  }

  function FirstMember(ms: seq<(string, Content)>, name: string): Option<Content> {
    if ms == [] then None
    else if ms[0].0 == name then Some(ms[0].1)
    else FirstMember(ms[1..], name)
  }

  /** The member found is the first one of that name. */
  lemma {:induction false} FirstMemberIsFirst(ms: seq<(string, Content)>, k: nat)
    requires k < |ms| && forall j :: 0 <= j < k ==> ms[j].0 != ms[k].0
    ensures FirstMember(ms, ms[k].0) == Some(ms[k].1)
    decreases k
  {
    if k > 0 {
      assert ms[0].0 != ms[k].0;
      FirstMemberIsFirst(ms[1..], k - 1);
    }
  }

  /** Everything one call learns from the world. The download arrives in
      arbitrary chunks of arbitrary bytes; any step may fail. */
  datatype CallEnv = CallEnv(
    readFails: bool, mkdirOk: bool, fetchOk: bool, createOk: bool, chunks: seq<Content>, copyOk: bool,
    removeOk: bool, renameOk: bool, openOk: bool, destOpens: bool, stopAfter: Option<nat>)

  datatype FetchError = Offline | Io | Unreachable | Mismatch | BadArchive

  // ----- the disk -----

  /** The files, and the states they have been in - the states a crash of the
      process can leave behind. */
  class Disk {
    var files: Files
    var history: seq<Files>

    ghost predicate Valid()
      reads this
    {
      history != [] && history[|history| - 1] == files
    }

    constructor (initial: Files)
      ensures Valid() && files == initial && history == [initial]
    {
      files, history := initial, [initial];
    }

    method Set(p: string, c: Content)
      requires Valid()
      modifies this
      ensures Valid() && files == old(files)[p := c] && history == old(history) + [files]
    {
      files := files[p := c];
      history := history + [files];
    }

    method Remove(p: string)
      requires Valid()
      modifies this
      ensures Valid() && files == old(files) - {p} && history == old(history) + [files]
    {
      files := files - {p};
      history := history + [files];
    }

    method Rename(p: string, q: string)
      requires Valid() && p in files
      modifies this
      ensures Valid() && files == (old(files) - {p})[q := old(files)[p]] && history == old(history) + [files]
    {
      files := (files - {p})[q := files[p]];
      history := history + [files];
    }
  }

  // ----- what a call may leave behind -----

  predicate SameAt(f: Files, g: Files, p: string) {
    (p in f <==> p in g) && (p in f ==> f[p] == g[p])
  }

  /** The published file has the pinned digest. */
  predicate Cached(f: Files, a: Artifact, digest: Digest) {
    a.dest in f && digest(f[a.dest]) == a.sha256
  }

  function Concat(chunks: seq<Content>): Content {
    if chunks == [] then [] else Concat(chunks[..|chunks| - 1]) + chunks[|chunks| - 1]
  }

  /** The extracted file is the first matching member of some archive with the
      pinned digest. */
  ghost predicate FromPinnedArchive(c: Content, a: Artifact, digest: Digest, untar: Untar) {
    exists archive: Content :: digest(archive) == a.sha256 && FirstMember(untar(archive).members, a.member) == Some(c)
  }

  /** A beginning of the first matching member of some archive with the pinned
      digest: what an extraction leaves, finished or not. */
  ghost predicate PartOfPinned(c: Content, a: Artifact, digest: Digest, untar: Untar) {
    exists archive: Content ::
      && digest(archive) == a.sha256
      && FirstMember(untar(archive).members, a.member).Some?
      && c <= FirstMember(untar(archive).members, a.member).value
  }

  /** What may be found at the destination besides what was there before. */
  ghost predicate Published(g: Files, a: Artifact, digest: Digest, untar: Untar) {
    if a.member == "" then Cached(g, a, digest)
    else a.dest in g && PartOfPinned(g[a.dest], a, digest, untar)
  }

  /** Only the artifact's own two paths change. A file that is not extracted from
      an archive is published whole and verified or not at all, and one that is
      comes out of a verified archive. */
  ghost predicate MayLeave(a: Artifact, digest: Digest, untar: Untar, f: Files, g: Files) {
    && (forall p :: p != a.dest && p != Tmp(a) ==> SameAt(f, g, p))
    && (SameAt(f, g, a.dest) || Published(g, a, digest, untar))
  }

  /** ... in every state since `from`. */
  ghost predicate Safe(a: Artifact, digest: Digest, untar: Untar, f: Files, history: seq<Files>, from: nat) {
    forall k :: from <= k < |history| ==> MayLeave(a, digest, untar, f, history[k])
  }

  lemma {:induction false} TmpIsNotDest(a: Artifact)
    ensures Tmp(a) != a.dest
  {
    assert |Tmp(a)| > |a.dest|;
  }

  // ----- the call -----

  lemma {:induction false} WritingTmpIsSafe(a: Artifact, digest: Digest, untar: Untar, f: Files, g: Files, c: Content)
    requires MayLeave(a, digest, untar, f, g)
    ensures MayLeave(a, digest, untar, f, g[Tmp(a) := c])
    ensures SameAt(f, g, a.dest) ==> SameAt(f, g[Tmp(a) := c], a.dest)
  {
    TmpIsNotDest(a);
    hide Tmp;
    var g' := g[Tmp(a) := c];
    forall p | p != a.dest && p != Tmp(a)
      ensures SameAt(f, g', p)
    {
      assert SameAt(f, g, p);
    }
  }

  lemma {:induction false} OwnPathsOnly(a: Artifact, digest: Digest, untar: Untar, f: Files, g: Files, c: Content)
    requires MayLeave(a, digest, untar, f, g) && a.member != "" && PartOfPinned(c, a, digest, untar)
    ensures MayLeave(a, digest, untar, f, g[a.dest := c])
  {
    hide Tmp;
    var g' := g[a.dest := c];
    forall p | p != a.dest && p != Tmp(a)
      ensures SameAt(f, g', p)
    {
      assert SameAt(f, g, p);
    }
  }

  lemma {:induction false} RemovingTmpIsSafe(a: Artifact, digest: Digest, untar: Untar, f: Files, g: Files)
    requires MayLeave(a, digest, untar, f, g)
    ensures MayLeave(a, digest, untar, f, g - {Tmp(a)})
    ensures a.dest in g ==> a.dest in g - {Tmp(a)} && (g - {Tmp(a)})[a.dest] == g[a.dest]
  {
    TmpIsNotDest(a);
    hide Tmp;
    var g' := g - {Tmp(a)};
    forall p | p != a.dest && p != Tmp(a)
      ensures SameAt(f, g', p)
    {
      assert SameAt(f, g, p);
    }
  }

  lemma {:induction false} NothingYet(a: Artifact, digest: Digest, untar: Untar, f: Files, history: seq<Files>)
    ensures Safe(a, digest, untar, f, history, |history|)
    ensures MayLeave(a, digest, untar, f, f) && SameAt(f, f, a.dest)
  {
  }

  lemma {:induction false} SameAtGives(p: string)
    ensures forall f: Files, g: Files :: SameAt(f, g, p) && p in f ==> p in g && g[p] == f[p]
  {
  }

  lemma {:induction false} SameAtChains(p: string)
    ensures forall f: Files, g: Files, h: Files :: SameAt(f, g, p) && SameAt(g, h, p) ==> SameAt(f, h, p)
  {
  }

  lemma {:induction false} SafeSnoc(
    a: Artifact, digest: Digest, untar: Untar, f: Files, history: seq<Files>, from: nat, g: Files)
    requires Safe(a, digest, untar, f, history, from) && MayLeave(a, digest, untar, f, g)
    ensures Safe(a, digest, untar, f, history + [g], from)
  {
    hide MayLeave;
  }

  lemma {:induction false} BeginningsArePinned(
    archive: Content, data: Content, n: nat, a: Artifact, digest: Digest, untar: Untar)
    requires digest(archive) == a.sha256 && n <= |data|
    requires FirstMember(untar(archive).members, a.member) == Some(data)
    ensures PartOfPinned(data[..n], a, digest, untar)
  {
    hide FirstMember;
    assert data[..n] <= data;
  }

  /** Renaming the verified download into place. */
  lemma {:induction false} PublishIsSafe(a: Artifact, digest: Digest, untar: Untar, f: Files, g: Files)
    requires MayLeave(a, digest, untar, f, g) && Tmp(a) in g && digest(g[Tmp(a)]) == a.sha256 && a.member == ""
    ensures MayLeave(a, digest, untar, f, (g - {Tmp(a)})[a.dest := g[Tmp(a)]])
  {
    TmpIsNotDest(a);
    hide Tmp;
    var g' := (g - {Tmp(a)})[a.dest := g[Tmp(a)]];
    forall p | p != a.dest && p != Tmp(a)
      ensures SameAt(f, g', p)
    {
      assert SameAt(f, g, p);
    }
  }

  /** The extraction delivers a file: the archive opens, has the member, and
      every byte of it can be written. */
  predicate Extracts(a: Artifact, env: CallEnv, tar: Tarball) {
    && env.openOk && tar.opens && FirstMember(tar.members, a.member).Some? && env.destOpens
    && (env.stopAfter.Some? ==> env.stopAfter.value >= |FirstMember(tar.members, a.member).value|)
  }

  /** The network delivers what was pinned, and every step succeeds. */
  predicate Delivers(a: Artifact, env: CallEnv, digest: Digest, untar: Untar) {
    && env.mkdirOk && env.fetchOk && env.createOk && env.copyOk && digest(Concat(env.chunks)) == a.sha256
    && (if a.member == "" then env.renameOk else Extracts(a, env, untar(Concat(env.chunks))))
  }

  /** Writes the download to the temporary file, hashing what it writes. */
  method Download(
    disk: Disk, a: Artifact, env: CallEnv, ghost f: Files, ghost from: nat, ghost digest: Digest, ghost untar: Untar)
    returns (hashed: Content)
    requires disk.Valid() && from <= |disk.history| && Safe(a, digest, untar, f, disk.history, from)
    requires MayLeave(a, digest, untar, f, disk.files) && SameAt(f, disk.files, a.dest)
    modifies disk
    ensures disk.Valid() && old(disk.history) <= disk.history && Safe(a, digest, untar, f, disk.history, from)
    ensures MayLeave(a, digest, untar, f, disk.files) && SameAt(f, disk.files, a.dest)
    ensures Tmp(a) in disk.files && disk.files[Tmp(a)] == hashed == Concat(env.chunks)
  {
    hide Tmp, MayLeave, SameAt, Safe;
    WritingTmpIsSafe(a, digest, untar, f, disk.files, []);
    SafeSnoc(a, digest, untar, f, disk.history, from, disk.files[Tmp(a) := []]);
    disk.Set(Tmp(a), []);
    hashed := [];
    for i := 0 to |env.chunks|
      invariant disk.Valid() && old(disk.history) <= disk.history && Safe(a, digest, untar, f, disk.history, from)
      invariant MayLeave(a, digest, untar, f, disk.files) && SameAt(f, disk.files, a.dest)
      invariant Tmp(a) in disk.files && disk.files[Tmp(a)] == hashed == Concat(env.chunks[..i])
    {
      assert env.chunks[..i + 1][..i] == env.chunks[..i];
      hashed := hashed + env.chunks[i];
      WritingTmpIsSafe(a, digest, untar, f, disk.files, hashed);
      SafeSnoc(a, digest, untar, f, disk.history, from, disk.files[Tmp(a) := hashed]);
      disk.Set(Tmp(a), disk.files[Tmp(a)] + env.chunks[i]);
    }
    assert env.chunks[..|env.chunks|] == env.chunks;
  }

  /** Copies `data` to the destination, unless the copy breaks off. */
  method CopyOut(
    disk: Disk, a: Artifact, data: Content, env: CallEnv,
    ghost f: Files, ghost from: nat, ghost digest: Digest, ghost untar: Untar)
    returns (ok: bool)
    requires disk.Valid() && from <= |disk.history| && Safe(a, digest, untar, f, disk.history, from)
    requires MayLeave(a, digest, untar, f, disk.files) && a.member != ""
    requires forall n :: 0 <= n <= |data| ==> PartOfPinned(data[..n], a, digest, untar)
    modifies disk
    ensures disk.Valid() && old(disk.history) <= disk.history && Safe(a, digest, untar, f, disk.history, from)
    ensures MayLeave(a, digest, untar, f, disk.files)
    ensures ok <==> env.stopAfter.None? || env.stopAfter.value >= |data|
    ensures ok ==> disk.files == old(disk.files)[a.dest := data]
  {
    hide Tmp, SameAt, Published, PartOfPinned, MayLeave, Safe;
    ghost var g := disk.files;
    OwnPathsOnly(a, digest, untar, f, g, data[..0]);
    SafeSnoc(a, digest, untar, f, disk.history, from, g[a.dest := data[..0]]);
    disk.Set(a.dest, []);
    for i := 0 to |data|
      invariant disk.Valid() && old(disk.history) <= disk.history && Safe(a, digest, untar, f, disk.history, from)
      invariant disk.files == g[a.dest := data[..i]] && MayLeave(a, digest, untar, f, disk.files)
      invariant env.stopAfter.Some? ==> env.stopAfter.value >= i
    {
      if env.stopAfter == Some(i) {
        return false;
      }
      assert data[..i] + [data[i]] == data[..i + 1];
      OwnPathsOnly(a, digest, untar, f, g, data[..i + 1]);
      SafeSnoc(a, digest, untar, f, disk.history, from, g[a.dest := data[..i + 1]]);
      disk.Set(a.dest, disk.files[a.dest] + [data[i]]);
      assert disk.files == g[a.dest := data[..i + 1]];
    }
    assert data[..|data|] == data;
    return true;
  }

  /** extractFromTarGz: copies the first matching member to the destination. */
  method Extract(
    disk: Disk, a: Artifact, env: CallEnv, untar: Untar, ghost f: Files, ghost from: nat, ghost digest: Digest)
    returns (r: Result<(), FetchError>)
    requires disk.Valid() && from <= |disk.history| && Safe(a, digest, untar, f, disk.history, from)
    requires MayLeave(a, digest, untar, f, disk.files) && a.member != ""
    requires Tmp(a) in disk.files && digest(disk.files[Tmp(a)]) == a.sha256
    modifies disk
    ensures disk.Valid() && old(disk.history) <= disk.history && Safe(a, digest, untar, f, disk.history, from)
    ensures MayLeave(a, digest, untar, f, disk.files)
    ensures var tar := untar(old(disk.files[Tmp(a)]));
      && (r.Ok? <==> Extracts(a, env, tar))
      && (r.Ok? ==> a.dest in disk.files && FirstMember(tar.members, a.member) == Some(disk.files[a.dest]))
      && (r == Err(BadArchive) <==> env.openOk && (!tar.opens || FirstMember(tar.members, a.member).None?))
      && (r.Err? ==> r.error == Io || r.error == BadArchive)
  {
    hide Tmp, SameAt, Published, PartOfPinned, MayLeave, Safe;
    if !env.openOk {
      return Err(Io);
    }
    var archive := disk.files[Tmp(a)];
    var tar := untar(archive);
    if !tar.opens {
      return Err(BadArchive);
    }
    var rest := tar.members;
    while rest != [] && rest[0].0 != a.member
      invariant FirstMember(rest, a.member) == FirstMember(tar.members, a.member)
      decreases |rest|
    {
      rest := rest[1..];
    }
    if rest == [] {
      return Err(BadArchive);
    }
    if !env.destOpens {
      return Err(Io);
    }
    var data := rest[0].1;
    forall n: nat | n <= |data|
      ensures PartOfPinned(data[..n], a, digest, untar)
    {
      BeginningsArePinned(archive, data, n, a, digest, untar);
    }
    var ok := CopyOut(disk, a, data, env, f, from, digest, untar);
    return if ok then Ok(()) else Err(Io);
  }

  method RemoveTmp(
    disk: Disk, a: Artifact, ok: bool, ghost f: Files, ghost from: nat, ghost digest: Digest, ghost untar: Untar)
    requires disk.Valid() && Safe(a, digest, untar, f, disk.history, from) && MayLeave(a, digest, untar, f, disk.files)
    modifies disk
    ensures disk.Valid() && old(disk.history) <= disk.history && Safe(a, digest, untar, f, disk.history, from)
    ensures MayLeave(a, digest, untar, f, disk.files) && SameAt(old(disk.files), disk.files, a.dest)
    ensures ok ==> Tmp(a) !in disk.files
  {
    RemovingTmpIsSafe(a, digest, untar, f, disk.files);
    TmpIsNotDest(a);
    hide Tmp, MayLeave;
    if ok {
      disk.Remove(Tmp(a));
    }
  }

  /** Downloads, and compares the digest; what is not as pinned is removed. */
  method Fetch(
    disk: Disk, a: Artifact, env: CallEnv, ghost f: Files, ghost from: nat, digest: Digest, ghost untar: Untar)
    returns (r: Result<(), FetchError>)
    requires disk.Valid() && from <= |disk.history| && Safe(a, digest, untar, f, disk.history, from)
    requires MayLeave(a, digest, untar, f, disk.files) && SameAt(f, disk.files, a.dest)
    modifies disk
    ensures disk.Valid() && old(disk.history) <= disk.history && Safe(a, digest, untar, f, disk.history, from)
    ensures MayLeave(a, digest, untar, f, disk.files) && SameAt(f, disk.files, a.dest)
    ensures r == if !env.copyOk then Err(Io)
                 else if digest(Concat(env.chunks)) != a.sha256 then Err(Mismatch)
                 else Ok(())
    ensures r.Ok? ==> Tmp(a) in disk.files && disk.files[Tmp(a)] == Concat(env.chunks)
    ensures r.Err? && env.removeOk ==> Tmp(a) !in disk.files
  {
    hide Tmp, MayLeave, SameAt, Safe, Concat, FirstMember;
    SameAtChains(a.dest);
    var hashed := Download(disk, a, env, f, from, digest, untar);
    if !env.copyOk {
      RemoveTmp(disk, a, env.removeOk, f, from, digest, untar);
      return Err(Io);
    }
    if digest(hashed) != a.sha256 {
      RemoveTmp(disk, a, env.removeOk, f, from, digest, untar);
      return Err(Mismatch);
    }
    return Ok(());
  }

  /** Extracts the verified download, or renames it into place. */
  method Publish(
    disk: Disk, a: Artifact, env: CallEnv, ghost f: Files, ghost from: nat, ghost digest: Digest, untar: Untar)
    returns (r: Result<(), FetchError>)
    requires disk.Valid() && from <= |disk.history| && Safe(a, digest, untar, f, disk.history, from)
    requires MayLeave(a, digest, untar, f, disk.files) && SameAt(f, disk.files, a.dest)
    requires Tmp(a) in disk.files && digest(disk.files[Tmp(a)]) == a.sha256
    modifies disk
    ensures disk.Valid() && old(disk.history) <= disk.history && Safe(a, digest, untar, f, disk.history, from)
    ensures var download := old(disk.files[Tmp(a)]);
      && (r.Ok? <==> if a.member == "" then env.renameOk else Extracts(a, env, untar(download)))
      && (r.Ok? ==> a.dest in disk.files)
      && (r.Ok? && a.member == "" ==> disk.files[a.dest] == download)
      && (r.Ok? && a.member != "" ==> FirstMember(untar(download).members, a.member) == Some(disk.files[a.dest]))
    ensures r.Err? ==> r.error == Io || r.error == BadArchive
    ensures r.Err? && a.member == "" ==> r.error == Io && SameAt(f, disk.files, a.dest)
    ensures env.removeOk && (a.member != "" || env.renameOk) ==> Tmp(a) !in disk.files
  {
    TmpIsNotDest(a);
    hide Tmp, FirstMember, Extracts, MayLeave, SameAt, Safe;
    if a.member != "" {
      r := Extract(disk, a, env, untar, f, from, digest);
      SameAtGives(a.dest);
      RemoveTmp(disk, a, env.removeOk, f, from, digest, untar);
      return;
    }
    if !env.renameOk {
      return Err(Io);
    }
    PublishIsSafe(a, digest, untar, f, disk.files);
    SafeSnoc(a, digest, untar, f, disk.history, from, (disk.files - {Tmp(a)})[a.dest := disk.files[Tmp(a)]]);
    disk.Rename(Tmp(a), a.dest);
    return Ok(());
  }

  /** A verified file is there and can be read. */
  predicate Hit(f: Files, a: Artifact, env: CallEnv, digest: Digest) {
    Cached(f, a, digest) && !env.readFails
  }

  /** The download was started, and finished. */
  predicate Started(env: CallEnv) {
    env.mkdirOk && env.fetchOk && env.createOk
  }

  /** Returns the artifact's path. Whatever the network delivers and whichever
      step fails, every state of the disk on the way is one that `MayLeave`
      allows. A verified file is returned without network or changes; otherwise
      the call succeeds exactly if it is not offline and everything is
      delivered. Nothing is published before the download was verified, and the
      temporary file goes away unless removing or renaming it fails. */
  method ResolveArtifact(disk: Disk, a: Artifact, offline: bool, env: CallEnv, digest: Digest, untar: Untar)
    returns (r: Result<string, FetchError>)
    requires disk.Valid()
    modifies disk
    ensures disk.Valid() && old(disk.history) <= disk.history
    ensures Safe(a, digest, untar, old(disk.files), disk.history, |old(disk.history)|)
    ensures r.Ok? ==> r.value == a.dest && a.dest in disk.files
    ensures r.Ok? <==> Hit(old(disk.files), a, env, digest) || (!offline && Delivers(a, env, digest, untar))
    ensures offline || Hit(old(disk.files), a, env, digest) ==> disk.history == old(disk.history)
    ensures r.Ok? && a.member == "" ==> Cached(disk.files, a, digest)
    ensures r.Ok? && a.member != "" && !Hit(old(disk.files), a, env, digest) ==>
      && FromPinnedArchive(disk.files[a.dest], a, digest, untar)
      && FirstMember(untar(Concat(env.chunks)).members, a.member) == Some(disk.files[a.dest])
    ensures r == Err(Offline) <==> offline && !Hit(old(disk.files), a, env, digest)
    ensures r == Err(Unreachable) <==>
      !offline && !Hit(old(disk.files), a, env, digest) && env.mkdirOk && !env.fetchOk
    ensures r == Err(Mismatch) <==>
      && !offline && !Hit(old(disk.files), a, env, digest)
      && Started(env) && env.copyOk && digest(Concat(env.chunks)) != a.sha256
    ensures r.Err? && (a.member == "" || !(Started(env) && env.copyOk) || digest(Concat(env.chunks)) != a.sha256) ==>
      SameAt(old(disk.files), disk.files, a.dest)
    ensures !offline && !Hit(old(disk.files), a, env, digest) && Started(env) && env.removeOk ==>
      Tmp(a) !in disk.files || (a.member == "" && env.copyOk && r == Err(Io) && !env.renameOk)
  {
    ghost var f, from := disk.files, |disk.history|;
    TmpIsNotDest(a);
    hide Tmp, Concat, FirstMember;
    if !env.readFails && a.dest in disk.files && digest(disk.files[a.dest]) == a.sha256 {
      return Ok(a.dest);
    }
    if offline {
      return Err(Offline);
    }
    if !env.mkdirOk {
      return Err(Io);
    }
    if !env.fetchOk {
      return Err(Unreachable);
    }
    if !env.createOk {
      return Err(Io);
    }
    hide MayLeave, Safe, SameAt, Published, PartOfPinned;
    NothingYet(a, digest, untar, f, disk.history);
    SameAtGives(a.dest);
    var fetched := Fetch(disk, a, env, f, from, digest, untar);
    if fetched.Err? {
      return Err(fetched.error);
    }
    var published := Publish(disk, a, env, f, from, digest, untar);
    return if published.Ok? then Ok(a.dest) else Err(published.error);
  }

  // ----- over many calls -----

  /** Consecutive calls for various artifacts, each ending normally or in a
      crash, take the disk through `states`. */
  ghost predicate Sessions(states: seq<Files>, calls: seq<Artifact>, digest: Digest, untar: Untar) {
    && |states| == |calls| + 1
    && forall k :: 0 <= k < |calls| ==> MayLeave(calls[k], digest, untar, states[k], states[k + 1])
  }

  /** A path is only ever written by calls for its own artifact. */
  ghost predicate OwnPath(a: Artifact, calls: seq<Artifact>) {
    forall k :: 0 <= k < |calls| ==> calls[k] == a || (calls[k].dest != a.dest && Tmp(calls[k]) != a.dest)
  }

  /** In any such sequence, a file that is not an extract is the initial one or
      has the pinned digest, and an extract is the initial one or begins what a
      verified archive holds. */
  lemma {:induction false} PublicationIsCrashSafe(
    states: seq<Files>, calls: seq<Artifact>, a: Artifact, digest: Digest, untar: Untar)
    requires Sessions(states, calls, digest, untar) && OwnPath(a, calls)
    ensures SameAt(states[0], states[|calls|], a.dest) || Published(states[|calls|], a, digest, untar)
    decreases |calls|
  {
    hide Tmp, PartOfPinned;
    if calls != [] {
      var n := |calls| - 1;
      assert MayLeave(calls[n], digest, untar, states[n], states[n + 1]);
      PublicationIsCrashSafe(states[..n + 1], calls[..n], a, digest, untar);
      assert calls[n] == a || SameAt(states[n], states[n + 1], a.dest);
    }
  }

  /** One call, and after how many changes to the disk the process crashes, if
      it does; a call that makes fewer changes returns before that. */
  datatype Call = Call(artifact: Artifact, offline: bool, env: CallEnv, crashAfter: Option<nat>)

  function Artifacts(calls: seq<Call>): (artifacts: seq<Artifact>)
    ensures |artifacts| == |calls|
    ensures forall k :: 0 <= k < |calls| ==> artifacts[k] == calls[k].artifact
  {
    seq(|calls|, k requires 0 <= k < |calls| => calls[k].artifact)
  }

  predicate Succeeds(f: Files, c: Call, digest: Digest, untar: Untar) {
    || Hit(f, c.artifact, c.env, digest)
    || (!c.offline && Delivers(c.artifact, c.env, digest, untar))
  }

  /** A call that returns has succeeded exactly if it should have, and a
      success leaves a plain file verified; only a crash keeps it from
      returning. */
  ghost predicate Returned(
    f: Files, g: Files, c: Call, result: Option<Result<string, FetchError>>, digest: Digest, untar: Untar)
  {
    match result
    case None => c.crashAfter.Some?
    case Some(r) =>
      && (r.Ok? <==> Succeeds(f, c, digest, untar))
      && (r.Ok? && c.artifact.member == "" ==> Cached(g, c.artifact, digest))
  }

  /** Makes the calls, one process after another, each starting from the disk
      that the one before left behind. */
  method RunCalls(initial: Files, calls: seq<Call>, digest: Digest, untar: Untar)
    returns (states: seq<Files>, results: seq<Option<Result<string, FetchError>>>)
    ensures Sessions(states, Artifacts(calls), digest, untar) && states[0] == initial
    ensures |results| == |calls|
    ensures forall k :: 0 <= k < |calls| ==> Returned(states[k], states[k + 1], calls[k], results[k], digest, untar)
    ensures forall a: Artifact :: OwnPath(a, Artifacts(calls)) ==>
      SameAt(initial, states[|calls|], a.dest) || Published(states[|calls|], a, digest, untar)
  {
    hide MayLeave, OwnPath, SameAt, Cached, Published, Delivers, FromPinnedArchive, FirstMember, Concat;
    states, results := [initial], [];
    for i := 0 to |calls|
      invariant |states| == i + 1 && |results| == i && states[0] == initial
      invariant forall k :: 0 <= k < i ==> MayLeave(calls[k].artifact, digest, untar, states[k], states[k + 1])
      invariant forall k :: 0 <= k < i ==> Returned(states[k], states[k + 1], calls[k], results[k], digest, untar)
    {
      var call := calls[i];
      var disk := new Disk(states[i]);
      var r := ResolveArtifact(disk, call.artifact, call.offline, call.env, digest, untar);
      NothingYet(call.artifact, digest, untar, states[i], disk.history);
      if call.crashAfter.Some? && call.crashAfter.value < |disk.history| {
        states, results := states + [disk.history[call.crashAfter.value]], results + [None];
      } else {
        states, results := states + [disk.files], results + [Some(r)];
      }
    }
    forall a: Artifact | OwnPath(a, Artifacts(calls))
      ensures SameAt(initial, states[|calls|], a.dest) || Published(states[|calls|], a, digest, untar)
    {
      PublicationIsCrashSafe(states, Artifacts(calls), a, digest, untar);
    }
  }

  /** An artifact that is extracted from a tarball is compared with the digest
      of the tarball: after a successful call, a second one offline succeeds
      only if the extracted file happens to have that digest itself. */
  method ExtractThenOffline(
    initial: Files, a: Artifact, env: CallEnv, later: CallEnv, digest: Digest, untar: Untar)
    returns (first: Result<string, FetchError>, second: Result<string, FetchError>)
    requires a.member != "" && !Cached(initial, a, digest) && Delivers(a, env, digest, untar)
    ensures first.Ok?
    ensures var extracted := FirstMember(untar(Concat(env.chunks)).members, a.member).value;
      second.Ok? <==> digest(extracted) == a.sha256 && !later.readFails
  {
    hide FromPinnedArchive, Concat, FirstMember, Safe;
    var disk := new Disk(initial);
    first := ResolveArtifact(disk, a, false, env, digest, untar);
    second := ResolveArtifact(disk, a, true, later, digest, untar);
  }
}
