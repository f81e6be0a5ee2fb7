/** Whole runs of requests against an upload store, in any order and on any
    names. */
module UploadRuns {
  import opened Words
  import opened Wrappers
  import opened Hex
  import opened Names
  import opened UploadDisk
  import opened UploadInvariant

  datatype Request =
    | Begin(name: string, size: int, chunkSize: int, hash: string)
    | Write(name: string, index: int, body: Option<seq<byte>>)
    | Complete(name: string)
    | Abort(name: string)

  function After(lim: Limits, d: Disk, r: Request): Disk {
    match r
    case Begin(name, size, chunkSize, hash) => AfterBegin(lim, d, name, size, chunkSize, hash)
    case Write(name, index, body) => AfterWrite(d, name, index, body)
    case Complete(name) => AfterComplete(d, name)
    case Abort(name) => AfterAbort(d, name)
  }

  function Run(lim: Limits, d: Disk, rs: seq<Request>): Disk
    decreases |rs|
  {
    if rs == [] then d else Run(lim, After(lim, d, rs[0]), rs[1..])
  }

  lemma RunStep(lim: Limits, d: Disk, r: Request, rest: seq<Request>)
    ensures Run(lim, d, [r] + rest) == Run(lim, After(lim, d, r), rest)
  {
    hide After;
    assert ([r] + rest)[1..] == rest;
  }

  /** The name made up for content whose own name is taken is free. Everything
      else a request needs is checked by the store. */
  predicate NameFree(lim: Limits, d: Disk, r: Request) {
    r.Begin? && Acceptable(lim, r.size, r.chunkSize) && !Known(d, r.size, r.chunkSize, r.hash)
        && Collides(d, r.name, r.hash) ==>
      Sanitize(Prefixed(r.hash, r.name)) !in d.archives
  }

  predicate NamesFree(lim: Limits, d: Disk, rs: seq<Request>)
    decreases |rs|
  {
    rs == [] || (NameFree(lim, d, rs[0]) && NamesFree(lim, After(lim, d, rs[0]), rs[1..]))
  }

  ghost predicate StoreOk(d: Disk) { DiskOk(d) && Apart(d) }

  /** Uploads and archives stay apart exactly when the made-up name is free. */
  lemma ApartIffNameFree(lim: Limits, d: Disk, r: Request)
    requires StoreOk(d)
    ensures Apart(After(lim, d, r)) <==> NameFree(lim, d, r)
  {
    hide Sanitize, DiskOk, Known, Verdict, WithChunk, Prefixed;
    match r {
      case Begin(name, size, chunkSize, hash) =>
        if Acceptable(lim, size, chunkSize) && !Known(d, size, chunkSize, hash) && !AnsweredByName(d, name, hash) {
          assert Sanitize(UploadName(d, name, hash)) in After(lim, d, r).sessions;
        }
      case Write(name, index, body) =>
      case Complete(name) =>
      case Abort(name) =>
    }
  }

  lemma StepOk(lim: Limits, d: Disk, r: Request)
    requires StoreOk(d) && NameFree(lim, d, r)
    ensures StoreOk(After(lim, d, r))
  {
    hide DiskOk, Apart, AfterBegin, AfterWrite, AfterComplete;
    ApartIffNameFree(lim, d, r);
    match r {
      case Begin(name, size, chunkSize, hash) => BeginOk(lim, d, name, size, chunkSize, hash);
      case Write(name, index, body) => WriteOk(d, name, index, body);
      case Complete(name) => CompleteOk(d, name);
      case Abort(name) => RemovedSession(d, Sanitize(name));
    }
  }

  /** Every archive is still there, byte for byte. */
  predicate Keeps(d: Disk, d': Disk) {
    && (forall n :: n in d.archives ==> n in d'.archives && d'.archives[n] == d.archives[n])
    && (forall n :: n in d.sums ==> n in d'.sums && d'.sums[n] == d.sums[n])
  }

  lemma StepKeeps(lim: Limits, d: Disk, r: Request)
    requires StoreOk(d)
    ensures Keeps(d, After(lim, d, r))
  {
    hide Sanitize, SessionOk, OneIdentity, Known, WithChunk, Sha256Hex, FullPass, SumOf;
  }

  lemma KeepsTransitive(a: Disk, b: Disk, c: Disk)
    requires Keeps(a, b) && Keeps(b, c)
    ensures Keeps(a, c)
  {
  }

  /** No run changes or removes a finished archive, and the disk stays valid. */
  lemma {:induction false} RunKeepsArchives(lim: Limits, d: Disk, rs: seq<Request>)
    requires StoreOk(d) && NamesFree(lim, d, rs)
    ensures StoreOk(Run(lim, d, rs)) && Keeps(d, Run(lim, d, rs))
    decreases |rs|
  {
    if rs != [] {
      hide StoreOk, After, NameFree, Keeps;
      var next := After(lim, d, rs[0]);
      StepOk(lim, d, rs[0]);
      StepKeeps(lim, d, rs[0]);
      RunKeepsArchives(lim, next, rs[1..]);
      KeepsTransitive(d, next, Run(lim, next, rs[1..]));
    }
  }

  /** What completing a session comes to on a valid disk, exactly. */
  lemma VerdictExact(d: Disk, dir: string)
    requires StoreOk(d) && dir in d.sessions
    ensures var s := d.sessions[dir];
            && (Verdict(d, dir) == Missing <==> !s.m.AllReceived())
            && (Verdict(d, dir) == Mismatched <==>
                s.m.AllReceived() && s.m.hash != "" && Sha256Hex(Bytes(s.data)) != s.m.hash)
            && (Verdict(d, dir) == Assembles <==>
                s.m.AllReceived() && (s.m.hash == "" || Sha256Hex(Bytes(s.data)) == s.m.hash))
  {
    hide HashOk, DataOk, ManifestOk, OneIdentity, SumsOk, Sha256Hex, SumOf, Sanitize, FullPass;
    if d.sessions[dir].m.AllReceived() {
      SumAgrees(d.sessions[dir]);
    }
  }

  /** A successful completion adds one archive: exactly the bytes received, of
      the announced size, with the announced hash recorded beside it if there
      was one. Completing again changes nothing. */
  lemma CompletedArchive(lim: Limits, d: Disk, name: string)
    requires StoreOk(d) && Sanitize(name) in d.sessions && Verdict(d, Sanitize(name)) == Assembles
    ensures var dir, d' := Sanitize(name), AfterComplete(d, name);
            var s := d.sessions[dir];
            && dir !in d.archives && d'.archives == d.archives[dir := Bytes(s.data)]
            && |d'.archives[dir]| == s.m.size
            && (s.m.hash != "" ==> Sha256Hex(d'.archives[dir]) == s.m.hash && IsArchiveOf(d', dir, s.m.size, s.m.hash))
            && d'.sessions == (map k | k in d.sessions && k != dir :: d.sessions[k])
            && AfterComplete(d', name) == d'
  {
    hide HashOk, OneIdentity, SumsOk, Sha256Hex, SumOf, Sanitize;
    var dir := Sanitize(name);
    VerdictExact(d, dir);
    SumAgrees(d.sessions[dir]);
    assert Resized(d.sessions[dir].data.value, d.sessions[dir].m.size) == d.sessions[dir].data.value;
  }

  /** After an announcement with a hash the content is known: finished, or in
      exactly one session; or an archive with this very hash holds the name, and
      only its size differs from what was announced. */
  lemma AnnouncedIsKnown(lim: Limits, d: Disk, name: string, size: int, chunkSize: int, hash: string)
    requires StoreOk(d) && Acceptable(lim, size, chunkSize) && hash != ""
    ensures var d' := AfterBegin(lim, d, name, size, chunkSize, hash);
            || Known(d', size, chunkSize, hash)
            || (d' == d && Sanitize(name) in d.archives && Sha256Hex(d.archives[Sanitize(name)]) == hash
                && |d.archives[Sanitize(name)]| != size)
  {
    hide HashOk, DataOk, OneIdentity, Sha256Hex, Sanitize, Prefixed;
    if !Known(d, size, chunkSize, hash) {
      if AnsweredByName(d, name, hash) {
        assert Sanitize(name) in d.sums;
        assert !IsArchiveOf(d, Sanitize(name), size, hash);
      } else {
        var d' := AfterBegin(lim, d, name, size, chunkSize, hash);
        assert IsSessionOf(d', Sanitize(UploadName(d, name, hash)), size, chunkSize, hash);
      }
    }
  }

  /** Content that is known is never started a second time, whatever name it is
      announced under, and the session it is in is the only one. */
  lemma KnownResumesUnderAnyName(lim: Limits, d: Disk, name: string, size: int, chunkSize: int, hash: string)
    requires StoreOk(d) && Acceptable(lim, size, chunkSize) && Known(d, size, chunkSize, hash)
    ensures AfterBegin(lim, d, name, size, chunkSize, hash) == d
    ensures forall a, b :: IsSessionOf(d, a, size, chunkSize, hash) && IsSessionOf(d, b, size, chunkSize, hash) ==>
              a == b
  {
    hide SessionOk, SumsOk, Sanitize;
  }

  /** Finished content stays known for good. */
  lemma FinishedStaysKnown(lim: Limits, d: Disk, rs: seq<Request>, size: nat, hash: string)
    requires StoreOk(d) && NamesFree(lim, d, rs) && Assembled(d, size, hash)
    ensures Assembled(Run(lim, d, rs), size, hash)
  {
    hide StoreOk, NamesFree, Run;
    RunKeepsArchives(lim, d, rs);
    var n :| n in d.sums && IsArchiveOf(d, n, size, hash);
    assert IsArchiveOf(Run(lim, d, rs), n, size, hash);
  }

  lemma EmptyStoreOk()
    ensures StoreOk(Disk(map[], map[], map[]))
  {
  }
}
