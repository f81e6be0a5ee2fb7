/** What arrives is what was sent: a file cut by the page, sent over a connection
    that loses, truncates, repeats and reorders, and put together by the store. */
module UploadTransfer {
  import opened Words
  import opened Wrappers
  import opened Fips180
  import opened Hex
  import opened Chunks
  import opened Names
  import opened UploadDisk
  import opened UploadInvariant
  import opened UploadRuns

  /** file.slice(start, end), as the page cuts chunk i; a slice stops where the
      file does. */
  function PageSlice(file: seq<byte>, chunkSize: nat, i: nat): seq<byte> {
    var start := if i * chunkSize < |file| then i * chunkSize else |file|;
    file[start..if start + chunkSize < |file| then start + chunkSize else |file|]
  }

  /** Chunk i is on disk, and is that chunk of the file. */
  predicate SameChunk(m: Manifest, data: seq<byte>, file: seq<byte>, i: nat) {
    && m.At(i) <= m.At(i + 1) <= |data| && m.At(i + 1) <= |file|
    && data[m.At(i)..m.At(i + 1)] == file[m.At(i)..m.At(i + 1)]
  }

  /** Every chunk received so far is that chunk of the file. */
  ghost predicate HoldsPartOf(s: Session, file: seq<byte>) {
    && |file| == s.m.size
    && forall i :: 0 <= i < |s.m.received| && s.m.received[i] ==> SameChunk(s.m, Bytes(s.data), file, i)
  }

  /** What is kept under this name is the file, or part of it. */
  ghost predicate Faithful(d: Disk, dir: string, file: seq<byte>, chunkSize: nat) {
    && (dir in d.sessions ==> d.sessions[dir].m.chunkSize == chunkSize && HoldsPartOf(d.sessions[dir], file))
    && (dir in d.archives ==> d.archives[dir] == file)
  }

  /** A request of a page that is sending this file under this name, or one for
      another upload. A body that arrives whole is the page's slice; one that
      was lost or cut short may be anything of another length. */
  ghost predicate Honest(r: Request, dir: string, file: seq<byte>, chunkSize: nat) {
    match r
    case Begin(name, size, cs, hash) =>
      Sanitize(name) == dir || Sanitize(Prefixed(hash, name)) == dir ==> size == |file| && cs == chunkSize
    case Write(name, index, body) =>
      Sanitize(name) == dir && body.Some? && 0 <= index < ChunkCount(|file|, chunkSize)
        && |body.value| == |PageSlice(file, chunkSize, index)| ==>
        body.value == PageSlice(file, chunkSize, index)
    case Complete(_) => true
    case Abort(_) => true
  }

  /** The page's slice is the stretch the server expects. */
  lemma PageSliceIsStretch(file: seq<byte>, chunkSize: nat, i: nat)
    requires |file| > 0 && chunkSize > 0 && i < ChunkCount(|file|, chunkSize)
    ensures Cut(|file|, chunkSize, i) <= Cut(|file|, chunkSize, i + 1) <= |file|
    ensures PageSlice(file, chunkSize, i) == file[Cut(|file|, chunkSize, i)..Cut(|file|, chunkSize, i + 1)]
    ensures |PageSlice(file, chunkSize, i)| == ExpectedChunkSize(|file|, chunkSize, i)
  {
    ChunkIsStretch(|file|, chunkSize, i);
  }

  lemma WriteHoldsPart(s: Session, index: nat, body: seq<byte>, file: seq<byte>)
    requires SessionOk(s) && Fits(s.m, index, Some(body)) && HoldsPartOf(s, file)
    requires body == PageSlice(file, s.m.chunkSize, index)
    ensures HoldsPartOf(WithChunk(s, index, body), file)
  {
    hide HashOk, WithChunk, Absorbed, FirstMissing;
    WithChunkOk(s, index, body);
    StoredOk(s, index, body);
    PageSliceIsStretch(file, s.m.chunkSize, index);
    var s' := WithChunk(s, index, body);
    forall i | 0 <= i < |s'.m.received| && s'.m.received[i]
      ensures SameChunk(s'.m, Bytes(s'.data), file, i)
    {
      if i == index || OnDisk(s, index, body) {
      } else {
        assert SameChunk(s.m, Bytes(s.data), file, i);
        WriteKeepsChunk(s.m, Bytes(s.data), index, body, i);
      }
    }
  }

  lemma {:induction false} PrefixesAgree(m: Manifest, data: seq<byte>, file: seq<byte>, n: nat)
    requires ManifestOk(m) && |file| == m.size && |data| <= m.size && n <= m.Total()
    requires forall i :: 0 <= i < n ==> SameChunk(m, data, file, i)
    ensures m.At(n) <= |data| && data[..m.At(n)] == file[..m.At(n)]
    decreases n
  {
    if n == 0 {
      CutEnds(m.size, m.chunkSize);
    } else {
      PrefixesAgree(m, data, file, n - 1);
      assert SameChunk(m, data, file, n - 1);
      assert data[..m.At(n)] == data[..m.At(n - 1)] + data[m.At(n - 1)..m.At(n)];
      assert file[..m.At(n)] == file[..m.At(n - 1)] + file[m.At(n - 1)..m.At(n)];
    }
  }

  /** All the parts of a file are the file. */
  lemma AllPartsAreTheFile(s: Session, file: seq<byte>)
    requires SessionOk(s) && HoldsPartOf(s, file) && s.m.AllReceived()
    ensures s.data == Some(file)
  {
    hide HashOk;
    SumAgrees(s);
    CutEnds(s.m.size, s.m.chunkSize);
    PrefixesAgree(s.m, s.data.value, file, s.m.Total());
    assert s.data.value[..s.m.size] == s.data.value;
    assert file[..s.m.size] == file;
  }

  lemma BeginFaithful(lim: Limits, d: Disk, r: Request, dir: string, file: seq<byte>, chunkSize: nat)
    requires r.Begin? && Faithful(d, dir, file, chunkSize) && Honest(r, dir, file, chunkSize)
    ensures Faithful(After(lim, d, r), dir, file, chunkSize)
  {
    hide Sanitize, Known, Prefixed;
    if Acceptable(lim, r.size, r.chunkSize) && !Known(d, r.size, r.chunkSize, r.hash)
        && !AnsweredByName(d, r.name, r.hash) {
      var n := UploadName(d, r.name, r.hash);
      assert n == r.name || n == Prefixed(r.hash, r.name);
      if Sanitize(n) == dir {
        assert Faithful(After(lim, d, r), dir, file, chunkSize);
      }
    }
  }

  lemma WriteFaithful(lim: Limits, d: Disk, r: Request, dir: string, file: seq<byte>, chunkSize: nat)
    requires StoreOk(d) && r.Write? && Faithful(d, dir, file, chunkSize) && Honest(r, dir, file, chunkSize)
    ensures Faithful(After(lim, d, r), dir, file, chunkSize)
  {
    hide HashOk, OneIdentity, SumsOk, Sanitize, WithChunk, PageSlice, ExpectedChunkSize, HoldsPartOf;
    if Sanitize(r.name) == dir && dir in d.sessions && Fits(d.sessions[dir].m, r.index, r.body) {
      assert |file| == d.sessions[dir].m.size by {
        SizeOfPart(d.sessions[dir], file);
      }
      PageSliceIsStretch(file, chunkSize, r.index);
      WithChunkOk(d.sessions[dir], r.index, r.body.value);
      WriteHoldsPart(d.sessions[dir], r.index, r.body.value, file);
    }
  }

  lemma SizeOfPart(s: Session, file: seq<byte>)
    requires HoldsPartOf(s, file)
    ensures |file| == s.m.size
  {
  }

  lemma CompleteFaithful(lim: Limits, d: Disk, r: Request, dir: string, file: seq<byte>, chunkSize: nat)
    requires StoreOk(d) && r.Complete? && Faithful(d, dir, file, chunkSize)
    ensures Faithful(After(lim, d, r), dir, file, chunkSize)
  {
    hide HashOk, DataOk, OneIdentity, SumsOk, Sanitize, SumOf, SameChunk;
    if Sanitize(r.name) == dir && dir in d.sessions && Verdict(d, dir) == Assembles {
      AllPartsAreTheFile(d.sessions[dir], file);
    }
  }

  lemma StepFaithful(lim: Limits, d: Disk, r: Request, dir: string, file: seq<byte>, chunkSize: nat)
    requires StoreOk(d) && Faithful(d, dir, file, chunkSize) && Honest(r, dir, file, chunkSize)
    ensures Faithful(After(lim, d, r), dir, file, chunkSize)
  {
    match r {
      case Begin(_, _, _, _) =>
        BeginFaithful(lim, d, r, dir, file, chunkSize);
      case Write(_, _, _) =>
        WriteFaithful(lim, d, r, dir, file, chunkSize);
      case Complete(_) =>
        CompleteFaithful(lim, d, r, dir, file, chunkSize);
      case Abort(name) =>
        hide HoldsPartOf, StoreOk, Sanitize;
    }
  }

  /** For every sequence of requests, whatever the connection did to them, what
      is kept under the name stays the file or part of it. */
  lemma {:induction false} RunFaithful(lim: Limits, d: Disk, rs: seq<Request>, dir: string, file: seq<byte>,
                                       chunkSize: nat)
    requires StoreOk(d) && NamesFree(lim, d, rs) && Faithful(d, dir, file, chunkSize)
    requires forall r :: r in rs ==> Honest(r, dir, file, chunkSize)
    ensures StoreOk(Run(lim, d, rs)) && Faithful(Run(lim, d, rs), dir, file, chunkSize)
    decreases |rs|
  {
    if rs != [] {
      hide StoreOk, After, NameFree, Faithful, Honest;
      StepOk(lim, d, rs[0]);
      StepFaithful(lim, d, rs[0], dir, file, chunkSize);
      RunFaithful(lim, After(lim, d, rs[0]), rs[1..], dir, file, chunkSize);
    }
  }

  /** End to end: starting where nothing is kept under the name, a completion
      that leaves an archive leaves the file, byte for byte; and one of a session
      with every chunk does leave it, unless a wrong hash was announced. */
  lemma TransferIsExact(lim: Limits, d: Disk, rs: seq<Request>, name: string, file: seq<byte>, chunkSize: nat)
    requires StoreOk(d) && NamesFree(lim, d, rs)
    requires Sanitize(name) !in d.sessions && Sanitize(name) !in d.archives
    requires forall r :: r in rs ==> Honest(r, Sanitize(name), file, chunkSize)
    ensures var dir, before := Sanitize(name), Run(lim, d, rs);
            var after := AfterComplete(before, name);
            && (dir in after.archives ==> after.archives[dir] == file)
            && (dir in before.sessions && before.sessions[dir].m.AllReceived()
                && before.sessions[dir].m.hash in {"", Sha256Hex(file)} ==>
                  dir in after.archives && dir !in after.sessions)
  {
    hide SessionOk, OneIdentity, SumsOk, Sha256Hex, Sanitize, Run, NamesFree, SumOf, HoldsPartOf, Verdict;
    var dir, before := Sanitize(name), Run(lim, d, rs);
    RunFaithful(lim, d, rs, dir, file, chunkSize);
    StepFaithful(lim, before, Complete(name), dir, file, chunkSize);
    if dir in before.sessions && before.sessions[dir].m.AllReceived() {
      AllPartsAreTheFile(before.sessions[dir], file);
      VerdictExact(before, dir);
    }
  }

  // ----- Progress -----

  /** The chunks still missing, in order, as status reports them. */
  function MissingFrom(received: seq<bool>, i: nat): (s: seq<nat>)
    requires i <= |received|
    ensures forall k :: k in s <==> i <= k < |received| && !received[k]
    ensures forall a, b :: 0 <= a < b < |s| ==> s[a] < s[b]
    decreases |received| - i
  {
    if i == |received| then []
    else
      var rest := MissingFrom(received, i + 1);
      if received[i] then rest
      else
        assert forall b :: 0 <= b < |rest| ==> rest[b] in rest;
        [i] + rest
  }

  /** The requests of one pass over some chunks, all arriving whole. */
  function Pass(name: string, file: seq<byte>, chunkSize: nat, chunks: seq<nat>): seq<Request> {
    if chunks == [] then []
    else [Write(name, chunks[0], Some(PageSlice(file, chunkSize, chunks[0])))] + Pass(name, file, chunkSize,
        chunks[1..])
  }

  /** The upload is still there, with at least the chunks it had. */
  predicate Grew(m: Manifest, d: Disk, dir: string) {
    && dir in d.sessions
    && d.sessions[dir].m.SameFile(m)
    && |d.sessions[dir].m.received| == |m.received|
    && forall i :: 0 <= i < |m.received| && m.received[i] ==> d.sessions[dir].m.received[i]
  }

  predicate Received(d: Disk, dir: string, i: nat) {
    dir in d.sessions && i < |d.sessions[dir].m.received| && d.sessions[dir].m.received[i]
  }

  lemma GrewTransitive(m: Manifest, d: Disk, d': Disk, dir: string)
    requires Grew(m, d, dir) && Grew(d.sessions[dir].m, d', dir)
    ensures Grew(m, d', dir)
    ensures forall i :: Received(d, dir, i) ==> Received(d', dir, i)
  {
  }

  lemma WriteOnlyAdds(lim: Limits, d: Disk, r: Request, dir: string)
    requires StoreOk(d) && dir in d.sessions && r.Write?
    ensures StoreOk(After(lim, d, r)) && NameFree(lim, d, r)
    ensures Grew(d.sessions[dir].m, After(lim, d, r), dir)
    ensures Sanitize(r.name) == dir && Fits(d.sessions[dir].m, r.index, r.body) ==>
              Received(After(lim, d, r), dir, r.index)
  {
    hide SessionOk, OneIdentity, SumsOk, Sanitize, WithChunk, ExpectedChunkSize;
    StepOk(lim, d, r);
    if Sanitize(r.name) in d.sessions && Fits(d.sessions[Sanitize(r.name)].m, r.index, r.body) {
      WithChunkOk(d.sessions[Sanitize(r.name)], r.index, r.body.value);
    }
  }

  /** Any write requests at all: what is missing only shrinks. */
  lemma {:induction false} MissingOnlyShrinks(lim: Limits, d: Disk, rs: seq<Request>, dir: string)
    requires StoreOk(d) && dir in d.sessions && forall r :: r in rs ==> r.Write?
    ensures StoreOk(Run(lim, d, rs)) && Grew(d.sessions[dir].m, Run(lim, d, rs), dir)
    decreases |rs|
  {
    hide StoreOk, After, Grew;
    if rs == [] {
      GrewReflexive(d, dir);
    } else {
      var m, next := d.sessions[dir].m, After(lim, d, rs[0]);
      WriteOnlyAdds(lim, d, rs[0], dir);
      assert dir in next.sessions by {
        StillThere(m, next, dir);
      }
      MissingOnlyShrinks(lim, next, rs[1..], dir);
      GrewTransitive(m, next, Run(lim, next, rs[1..]), dir);
    }
  }

  lemma GrewReflexive(d: Disk, dir: string)
    requires dir in d.sessions
    ensures Grew(d.sessions[dir].m, d, dir)
  {
  }

  lemma StillThere(m: Manifest, d: Disk, dir: string)
    requires Grew(m, d, dir)
    ensures dir in d.sessions && d.sessions[dir].m.SameFile(m)
  {
  }

  /** A pass that arrives whole leaves none of its chunks missing. */
  lemma {:induction false} PassDelivers(lim: Limits, d: Disk, dir: string, m: Manifest, name: string, file: seq<byte>,
                                        chunks: seq<nat>)
    requires StoreOk(d) && Sanitize(name) == dir && dir in d.sessions && d.sessions[dir].m == m
    requires |file| == m.size && forall i :: i in chunks ==> i < m.Total()
    ensures forall i :: i in chunks ==> Received(Run(lim, d, Pass(name, file, m.chunkSize, chunks)), dir, i)
    decreases |chunks|
  {
    hide StoreOk, After, Run, Grew, Sanitize, PageSlice, Fits, Received;
    if chunks != [] {
      var r := Write(name, chunks[0], Some(PageSlice(file, m.chunkSize, chunks[0])));
      var next, rest := After(lim, d, r), Pass(name, file, m.chunkSize, chunks[1..]);
      assert Pass(name, file, m.chunkSize, chunks) == [r] + rest;
      assert chunks[0] in chunks;
      assert forall i :: i in chunks[1..] ==> i in chunks;
      FirstOfPass(d, dir, m, file, chunks[0]);
      WriteOnlyAdds(lim, d, r, dir);
      StillThere(m, next, dir);
      RunStep(lim, d, r, rest);
      AllWrites(name, file, m.chunkSize, chunks[1..]);
      MissingOnlyShrinks(lim, next, rest, dir);
      GrewTransitive(m, next, Run(lim, next, rest), dir);
      PassDelivers(lim, next, dir, next.sessions[dir].m, name, file, chunks[1..]);
    }
  }

  lemma {:induction false} AllWrites(name: string, file: seq<byte>, chunkSize: nat, chunks: seq<nat>)
    ensures forall r :: r in Pass(name, file, chunkSize, chunks) ==> r.Write?
    decreases |chunks|
  {
    if chunks != [] {
      AllWrites(name, file, chunkSize, chunks[1..]);
    }
  }

  lemma FirstOfPass(d: Disk, dir: string, m: Manifest, file: seq<byte>, i: nat)
    requires StoreOk(d) && dir in d.sessions && d.sessions[dir].m == m
    requires |file| == m.size && i < m.Total()
    ensures Fits(m, i, Some(PageSlice(file, m.chunkSize, i)))
  {
    PageSliceIsStretch(file, m.chunkSize, i);
  }

  lemma {:induction false} WritesNeedNoNames(lim: Limits, d: Disk, rs: seq<Request>)
    requires forall r :: r in rs ==> r.Write?
    ensures NamesFree(lim, d, rs)
    decreases |rs|
  {
    if rs != [] {
      hide After, NameFree;
      WriteNeedsNoName(lim, d, rs[0]);
      WritesNeedNoNames(lim, After(lim, d, rs[0]), rs[1..]);
    }
  }

  lemma WriteNeedsNoName(lim: Limits, d: Disk, r: Request)
    requires r.Write?
    ensures NameFree(lim, d, r)
  {
  }

  // ----- After a mismatch -----

  lemma {:induction false} PassIsHonest(name: string, file: seq<byte>, chunkSize: nat, chunks: seq<nat>)
    ensures forall r :: r in Pass(name, file, chunkSize, chunks) ==>
              r.Write? && Honest(r, Sanitize(name), file, chunkSize)
    decreases |chunks|
  {
    hide PageSlice, Sanitize;
    if chunks != [] {
      PassIsHonest(name, file, chunkSize, chunks[1..]);
    }
  }

  /** After a mismatch the same session can still succeed: one whole pass over what
      it then misses, and a completion, leave the announced file. */
  lemma MismatchCanSucceed(lim: Limits, d: Disk, name: string, file: seq<byte>)
    requires StoreOk(d) && Sanitize(name) in d.sessions && Verdict(d, Sanitize(name)) == Mismatched
    requires var m := d.sessions[Sanitize(name)].m; m.size == |file| && m.hash == Sha256Hex(file)
    ensures var dir, d1 := Sanitize(name), AfterComplete(d, name);
            && dir in d1.sessions && |d1.sessions[dir].m.received| == d1.sessions[dir].m.Total()
            && var m := d1.sessions[dir].m;
            && var d2 := Run(lim, d1, Pass(name, file, m.chunkSize, MissingFrom(m.received, 0)));
            && var d3 := AfterComplete(d2, name);
            && dir in d3.archives && d3.archives[dir] == file && IsArchiveOf(d3, dir, |file|, m.hash)
  {
    var dir, d1 := Sanitize(name), AfterComplete(d, name);
    EmptiedSession(lim, d, name, file);
    hide StoreOk, Run, Sanitize, Faithful, Honest, PageSlice, ChunkCount, Sha256Hex, Verdict, AfterComplete;
    hide NamesFree, Grew;
    var m := d1.sessions[dir].m;
    var chunks := MissingFrom(m.received, 0);
    var pass := Pass(name, file, m.chunkSize, chunks);
    PassIsHonest(name, file, m.chunkSize, chunks);
    WritesNeedNoNames(lim, d1, pass);
    RunFaithful(lim, d1, pass, dir, file, m.chunkSize);
    MissingOnlyShrinks(lim, d1, pass, dir);
    PassDelivers(lim, d1, dir, m, name, file, chunks);
    var d2 := Run(lim, d1, pass);
    AllOfThem(m, d2, dir);
    WholeSessionEnds(lim, d2, name, file, m.chunkSize);
  }

  lemma EmptiedSession(lim: Limits, d: Disk, name: string, file: seq<byte>)
    requires StoreOk(d) && Sanitize(name) in d.sessions && Verdict(d, Sanitize(name)) == Mismatched
    requires |file| == d.sessions[Sanitize(name)].m.size
    ensures var dir, d1 := Sanitize(name), AfterComplete(d, name);
            && StoreOk(d1) && dir in d1.sessions && d1.sessions[dir].m == Emptied(d.sessions[dir].m)
            && |d1.sessions[dir].m.received| == d1.sessions[dir].m.Total()
            && Faithful(d1, dir, file, d1.sessions[dir].m.chunkSize)
  {
    hide DiskOk, Sanitize, SumOf, ChunkCount, Verdict, Faithful;
    StepOk(lim, d, Complete(name));
    assert After(lim, d, Complete(name)) == AfterComplete(d, name);
    NothingHeldYet(AfterComplete(d, name), Sanitize(name), file);
  }

  lemma NothingHeldYet(d: Disk, dir: string, file: seq<byte>)
    requires dir in d.sessions && dir !in d.archives && |file| == d.sessions[dir].m.size
    requires forall i :: 0 <= i < |d.sessions[dir].m.received| ==> !d.sessions[dir].m.received[i]
    ensures Faithful(d, dir, file, d.sessions[dir].m.chunkSize)
  {
  }

  /** Nothing is missing once every chunk that was missing has been received. */
  lemma AllOfThem(m: Manifest, d: Disk, dir: string)
    requires |m.received| == m.Total() && Grew(m, d, dir)
    requires forall i :: i in MissingFrom(m.received, 0) ==> Received(d, dir, i)
    ensures dir in d.sessions && d.sessions[dir].m.AllReceived() && d.sessions[dir].m.SameFile(m)
  {
    hide ChunkCount;
    var received := d.sessions[dir].m.received;
    forall i | 0 <= i < |received| ensures received[i] {
      if !m.received[i] {
        assert i in MissingFrom(m.received, 0);
      }
    }
  }

  lemma WholeSessionEnds(lim: Limits, d: Disk, name: string, file: seq<byte>, chunkSize: nat)
    requires StoreOk(d) && Sanitize(name) in d.sessions && Faithful(d, Sanitize(name), file, chunkSize)
    requires var m := d.sessions[Sanitize(name)].m; m.AllReceived() && m.hash == Sha256Hex(file) && m.size == |file|
    ensures var dir, d' := Sanitize(name), AfterComplete(d, name);
            dir in d'.archives && d'.archives[dir] == file && IsArchiveOf(d', dir, |file|, Sha256Hex(file))
  {
    hide HashOk, DataOk, OneIdentity, SumsOk, Sanitize, Sha256Hex, Verdict, SameChunk, AfterComplete;
    AllPartsAreTheFile(d.sessions[Sanitize(name)], file);
    VerdictExact(d, Sanitize(name));
    HexDigestIsNotEmpty(file);
    CompletedArchive(lim, d, name);
  }

  // ----- The made-up name -----

  /** Whenever the name made up for content whose own name is taken is taken too,
      the archive that has it is lost: the announcement, the one chunk and the
      completion put the new content in its place. */
  lemma TakenNameLosesArchive(lim: Limits, d: Disk, name: string, z: seq<byte>)
    requires StoreOk(d) && |z| > 0
    requires !NameFree(lim, d, Begin(name, |z|, |z|, Sha256Hex(z)))
    ensures var n := Prefixed(Sha256Hex(z), name);
            var d' := Run(lim, d, [Begin(name, |z|, |z|, Sha256Hex(z)), Write(n, 0, Some(z)), Complete(n)]);
            Sanitize(n) in d.archives && Sanitize(n) in d'.archives && d'.archives[Sanitize(n)] == z
  {
    var n := Prefixed(Sha256Hex(z), name);
    var r0 := Begin(name, |z|, |z|, Sha256Hex(z));
    TakenNameBegins(lim, d, name, z);
    RunThree(lim, d, r0, Write(n, 0, Some(z)), Complete(n));
    OneChunkMovesIn(lim, After(lim, d, r0), n, z);
  }

  /** Such a store needs no more than two archives without a recorded hash. */
  lemma TakenNameExists(lim: Limits, name: string, size: nat, hash: string, x: seq<byte>, y: seq<byte>)
    requires Acceptable(lim, size, size) && hash != ""
    ensures var d := Disk(map[], map[Sanitize(name) := y, Sanitize(Prefixed(hash, name)) := x], map[]);
            StoreOk(d) && !NameFree(lim, d, Begin(name, size, size, hash))
  {
    hide Sanitize, Prefixed;
  }

  /** A name with a path separator keeps only its last element, and the prefix
      with it: the made-up name is the taken one. */
  lemma SeparatorUndoesPrefix(hash: string, name: string, i: nat)
    requires i + 1 < |name| && name[i] == '/' && name[|name| - 1] != '/'
    ensures Sanitize(Prefixed(hash, name)) == Sanitize(name)
  {
    var p := Prefixed(hash, name);
    var k := |p| - |name|;
    assert p[k..] == name;
    assert LastIndex(name, '/') >= i;
    LastIndexAt(p, '/', k + LastIndex(name, '/'));
    assert Base(p) == Base(name);
  }

  lemma RunThree(lim: Limits, d: Disk, r0: Request, r1: Request, r2: Request)
    ensures Run(lim, d, [r0, r1, r2]) == After(lim, After(lim, After(lim, d, r0), r1), r2)
  {
    hide After;
    var d1 := After(lim, d, r0);
    var d2 := After(lim, d1, r1);
    RunStep(lim, d, r0, [r1, r2]);
    assert [r0] + [r1, r2] == [r0, r1, r2];
    RunStep(lim, d1, r1, [r2]);
    assert [r1] + [r2] == [r1, r2];
    RunStep(lim, d2, r2, []);
    assert [r2] + [] == [r2];
    RunNothing(lim, After(lim, d2, r2));
  }

  lemma RunNothing(lim: Limits, d: Disk)
    ensures Run(lim, d, []) == d
  {
  }

  lemma TakenNameBegins(lim: Limits, d: Disk, name: string, z: seq<byte>)
    requires Apart(d) && !NameFree(lim, d, Begin(name, |z|, |z|, Sha256Hex(z)))
    ensures var hash := Sha256Hex(z);
            var n := Prefixed(hash, name);
            var d' := After(lim, d, Begin(name, |z|, |z|, hash));
            && Sanitize(n) in d.archives && Sanitize(n) in d'.sessions
            && d'.sessions[Sanitize(n)] == Session(NewManifest(n, |z|, |z|, hash), None)
  {
    hide Sha256Hex, Prefixed, Sanitize, Known;
  }

  /** A new session of one chunk: the chunk and a completion move it into place,
      whatever had the name. */
  lemma OneChunkMovesIn(lim: Limits, d: Disk, n: string, z: seq<byte>)
    requires |z| > 0 && Sanitize(n) in d.sessions
    requires d.sessions[Sanitize(n)] == Session(NewManifest(n, |z|, |z|, Sha256Hex(z)), None)
    ensures var d' := After(lim, After(lim, d, Write(n, 0, Some(z))), Complete(n));
            Sanitize(n) in d'.archives && d'.archives[Sanitize(n)] == z
  {
    hide WithChunk, Sanitize, Sha256Hex, Fits, AfterComplete, SessionOk, NewManifest;
    var s := d.sessions[Sanitize(n)];
    OneChunkArrives(s, n, z);
    FullSessionMovesIn(AfterWrite(d, n, 0, Some(z)), n, z);
  }

  lemma OneChunkArrives(s: Session, n: string, z: seq<byte>)
    requires |z| > 0 && s == Session(NewManifest(n, |z|, |z|, Sha256Hex(z)), None)
    ensures Fits(s.m, 0, Some(z))
    ensures var t := WithChunk(s, 0, z);
            SessionOk(t) && t.m.AllReceived() && t.data == Some(z) && t.m.hash == Sha256Hex(z)
  {
    hide Cut, ExpectedChunkSize, ChunkCount, HashOk, DataOk, Sha256Hex, WithChunk, PageSlice;
    NewSessionOk(n, |z|, |z|, s.m.hash);
    OneChunk(z);
    PageSliceIsStretch(z, |z|, 0);
    WriteHoldsPart(s, 0, z, z);
    WithChunkOk(s, 0, z);
    AllPartsAreTheFile(WithChunk(s, 0, z), z);
  }

  lemma FullSessionMovesIn(d: Disk, n: string, z: seq<byte>)
    requires Sanitize(n) in d.sessions
    requires var s := d.sessions[Sanitize(n)];
             SessionOk(s) && s.m.AllReceived() && s.data == Some(z) && s.m.hash == Sha256Hex(z)
    ensures var d' := AfterComplete(d, n);
            Sanitize(n) in d'.archives && d'.archives[Sanitize(n)] == z
  {
    hide HashOk, DataOk, Sha256Hex, Sanitize, SumOf;
    SumAgrees(d.sessions[Sanitize(n)]);
    assert Resized(z, |z|) == z;
  }

  lemma HexDigestIsNotEmpty(z: seq<byte>)
    ensures Sha256Hex(z) != ""
  {
    hide Digest;
  }

  lemma OneChunk(z: seq<byte>)
    requires |z| > 0
    ensures ChunkCount(|z|, |z|) == 1 && PageSlice(z, |z|, 0) == z
  {
    var n := ChunkCount(|z|, |z|);
    CountBounds(|z|, |z|);
    if n > 1 {
      ProductMonotone(1, n - 1, |z|);
    }
  }
}
