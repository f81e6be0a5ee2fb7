/** The store when the process or the machine stops half way, with data synced
    before the manifest and the manifest replaced by a rename. */
module UploadCrash {
  import opened Words
  import opened Wrappers
  import opened RunningHash
  import opened Hex
  import opened Chunks
  import opened Names
  import opened UploadDisk
  import opened UploadInvariant
  import opened UploadRuns
  import opened UploadTransfer

  /** A write of n bytes at this place that may have landed in part: what lies
      outside its stretch is as it was. */
  ghost predicate Torn(before: seq<byte>, after: seq<byte>, at: nat, n: nat) {
    && |before| <= |after|
    && |after| <= (if |before| < at + n then at + n else |before|)
    && forall k :: 0 <= k < |before| && !(at <= k < at + n) ==> after[k] == before[k]
  }

  /** What a crash during WriteChunk can leave: the old manifest over data the
      write, if one is made, has reached in part or in full, or the new session. */
  ghost predicate CrashOfWrite(s: Session, index: nat, body: seq<byte>, t: Session)
    requires Fits(s.m, index, Some(body))
  {
    || t == s
    || (!OnDisk(s, index, body) && t.m == s.m && t.data.Some?
        && Torn(Bytes(s.data), t.data.value, index * s.m.chunkSize, |body|))
    || t == WithChunk(s, index, body)
  }

  /** The write changes none of the bytes the saved hash has consumed: the chunk is
      on disk already, the hash is not used any more, or has not come so far. */
  predicate SparesTheHash(s: Session, index: nat, body: seq<byte>)
    requires index < |s.m.received|
  {
    OnDisk(s, index, body) || s.m.hashStale || s.m.absorbed <= index
  }

  /** Under the old manifest, the bytes its hash has consumed are as they were. */
  ghost predicate ConsumedKept(s: Session, t: Session) {
    var n := s.m.At(s.m.absorbed);
    t.m == s.m && !s.m.hashStale ==>
      n <= |Bytes(s.data)| && n <= |Bytes(t.data)| && Bytes(t.data)[..n] == Bytes(s.data)[..n]
  }

  lemma TornKeeps(before: seq<byte>, after: seq<byte>, at: nat, n: nat, lo: nat, hi: nat)
    requires Torn(before, after, at, n) && lo <= hi <= |before| && (hi <= at || at + n <= lo)
    ensures after[lo..hi] == before[lo..hi]
  {
  }

  /** A crash at any point of a write leaves the manifest, the data and the hash in
      agreement, whatever the crash left, exactly when the write spares what the
      hash has consumed. Otherwise there is one that leaves other bytes under the
      same hash. */
  lemma CrashOfWriteExact(s: Session, index: nat, body: seq<byte>)
    requires SessionOk(s) && Fits(s.m, index, Some(body))
    ensures SparesTheHash(s, index, body) <==>
              forall t :: CrashOfWrite(s, index, body, t) ==> SessionOk(t) && ConsumedKept(s, t)
  {
    hide SessionOk, ConsumedKept, WithChunk, Stored, ExpectedChunkSize, ChunkCount;
    if SparesTheHash(s, index, body) {
      forall t | CrashOfWrite(s, index, body, t) ensures SessionOk(t) && ConsumedKept(s, t) {
        SparingCrash(s, index, body, t);
      }
    } else {
      var t := Session(s.m, Stored(s, index, body).data);
      RewriteIsTorn(s, index, body);
      assert CrashOfWrite(s, index, body, t);
      RewriteReachesHash(s, index, body);
    }
  }

  lemma SparingCrash(s: Session, index: nat, body: seq<byte>, t: Session)
    requires SessionOk(s) && Fits(s.m, index, Some(body)) && SparesTheHash(s, index, body)
    requires CrashOfWrite(s, index, body, t)
    ensures SessionOk(t) && ConsumedKept(s, t)
  {
    if t == s {
      hide WithChunk;
    } else if t.m == s.m && !OnDisk(s, index, body) && t.data.Some?
              && Torn(Bytes(s.data), t.data.value, index * s.m.chunkSize, |body|) {
      hide WithChunk, OnDisk;
      TornSessionOk(s, index, body, t);
    } else {
      WholeWriteKeeps(s, index, body);
    }
  }

  lemma WholeWriteKeeps(s: Session, index: nat, body: seq<byte>)
    requires SessionOk(s) && Fits(s.m, index, Some(body)) && SparesTheHash(s, index, body)
    ensures SessionOk(WithChunk(s, index, body)) && ConsumedKept(s, WithChunk(s, index, body))
  {
    hide WithChunk, Cut, ExpectedChunkSize, ChunkCount, WriteAt, FirstMissing, ReadAt, HashOk, DataOk;
    WithChunkOk(s, index, body);
    if !s.m.hashStale {
      ConsumedStays(s, index, body);
    }
  }

  lemma ConsumedStays(s: Session, index: nat, body: seq<byte>)
    requires SessionOk(s) && Fits(s.m, index, Some(body)) && SparesTheHash(s, index, body) && !s.m.hashStale
    ensures var n := s.m.At(s.m.absorbed); var data := Bytes(Stored(s, index, body).data);
            n <= |Bytes(s.data)| && n <= |data| && data[..n] == Bytes(s.data)[..n]
  {
    hide Cut, ExpectedChunkSize, ChunkCount, WriteAt;
    if !OnDisk(s, index, body) {
      WriteKeepsPrefix(s.m, Bytes(s.data), index, body, s.m.absorbed);
    }
  }

  lemma TornSessionOk(s: Session, index: nat, body: seq<byte>, t: Session)
    requires SessionOk(s) && Fits(s.m, index, Some(body)) && (s.m.hashStale || s.m.absorbed <= index)
    requires t.m == s.m && t.data.Some? && Torn(Bytes(s.data), t.data.value, index * s.m.chunkSize, |body|)
    ensures SessionOk(t) && ConsumedKept(s, t)
  {
    ChunkIsStretch(s.m.size, s.m.chunkSize, index);
    if !s.m.hashStale {
      CutMonotone(s.m.size, s.m.chunkSize, s.m.absorbed, index);
      TornKeeps(Bytes(s.data), t.data.value, index * s.m.chunkSize, |body|, 0, s.m.At(s.m.absorbed));
    }
  }

  lemma RewriteReachesHash(s: Session, index: nat, body: seq<byte>)
    requires SessionOk(s) && Fits(s.m, index, Some(body)) && !SparesTheHash(s, index, body)
    ensures !ConsumedKept(s, Session(s.m, Stored(s, index, body).data))
  {
    hide WriteAt, ReadAt, ExpectedChunkSize, ChunkCount;
    var m, data, file := s.m, Bytes(s.data), Stored(s, index, body).data.value;
    var n := m.At(m.absorbed);
    ChunkIsStretch(m.size, m.chunkSize, index);
    CutMonotone(m.size, m.chunkSize, index + 1, m.absorbed);
    StoredOk(s, index, body);
    if n <= |file| && file[..n] == data[..n] {
      StretchOfPrefix(file, data, n, m.At(index), m.At(index + 1));
      ReadIsStretch(data, index * m.chunkSize, body);
    }
  }

  lemma StretchOfPrefix(a: seq<byte>, b: seq<byte>, n: nat, lo: nat, hi: nat)
    requires lo <= hi <= n <= |a| && n <= |b| && a[..n] == b[..n]
    ensures a[lo..hi] == b[lo..hi]
  {
    assert a[lo..hi] == a[..n][lo..hi];
    assert b[lo..hi] == b[..n][lo..hi];
  }

  lemma ReadIsStretch(data: seq<byte>, at: nat, body: seq<byte>)
    requires at + |body| <= |data| && data[at..at + |body|] == body
    ensures ReadAt(data, at, |body|) == Some(body)
  {
  }

  /** For a page that sends a file this is always so: a crash at any point of any
      write, the first of a chunk or another, leaves a valid session that holds
      part of the file. */
  lemma CrashInWriteOfFile(s: Session, index: nat, body: seq<byte>, t: Session, file: seq<byte>)
    requires SessionOk(s) && HoldsPartOf(s, file)
    requires Fits(s.m, index, Some(body)) && body == PageSlice(file, s.m.chunkSize, index)
    requires CrashOfWrite(s, index, body, t)
    ensures SessionOk(t) && HoldsPartOf(t, file)
  {
    hide WithChunk, HashOk, DataOk, PageSlice, OnDisk;
    ReceivedIsOnDisk(s, index, body, file);
    SparingCrash(s, index, body, t) by {
      assert !s.m.received[index] ==> s.m.absorbed <= index;
    }
    if t == WithChunk(s, index, body) {
      WriteHoldsPart(s, index, body, file);
    } else if t != s {
      TornHoldsPart(s, index, body, t, file);
    }
  }

  /** A chunk of the file that has been received is on disk. */
  lemma ReceivedIsOnDisk(s: Session, index: nat, body: seq<byte>, file: seq<byte>)
    requires SessionOk(s) && HoldsPartOf(s, file) && Fits(s.m, index, Some(body))
    requires body == PageSlice(file, s.m.chunkSize, index) && s.m.size > 0
    ensures s.m.received[index] ==> OnDisk(s, index, body)
  {
    hide HashOk, PageSlice;
    if s.m.received[index] {
      PageSliceIsStretch(file, s.m.chunkSize, index);
      ChunkIsStretch(s.m.size, s.m.chunkSize, index);
      assert SameChunk(s.m, Bytes(s.data), file, index);
      ReadIsStretch(Bytes(s.data), index * s.m.chunkSize, body);
    }
  }

  lemma TornHoldsPart(s: Session, index: nat, body: seq<byte>, t: Session, file: seq<byte>)
    requires SessionOk(s) && HoldsPartOf(s, file) && Fits(s.m, index, Some(body)) && !s.m.received[index]
    requires t.m == s.m && t.data.Some? && Torn(Bytes(s.data), t.data.value, index * s.m.chunkSize, |body|)
    ensures HoldsPartOf(t, file)
  {
    hide HashOk;
    var m := s.m;
    ChunkIsStretch(m.size, m.chunkSize, index);
    forall i | 0 <= i < |m.received| && m.received[i] ensures SameChunk(m, t.data.value, file, i) {
      assert SameChunk(m, Bytes(s.data), file, i);
      if i < index {
        CutMonotone(m.size, m.chunkSize, i + 1, index);
      } else {
        CutMonotone(m.size, m.chunkSize, index + 1, i);
      }
      TornKeeps(Bytes(s.data), t.data.value, index * m.chunkSize, |body|, m.At(i), m.At(i + 1));
    }
  }

  /** Not so for a second write of a chunk the hash has consumed, with other
      bytes: the mark that the hash is stale is saved after the data. If a crash
      falls between the two, completing trusts the old hash and moves other
      bytes into place under it. */
  lemma CrashInRewrite(d: Disk, s: Session, index: nat, body: seq<byte>, t: Session)
    requires SessionOk(s) && HashedToTheEnd(s) && s.m.hash == Sha256Hex(Bytes(s.data))
    requires Fits(s.m, index, Some(body)) && !OnDisk(s, index, body)
    requires t == Session(s.m, Stored(s, index, body).data)
    requires Sanitize(s.m.name) in d.sessions && d.sessions[Sanitize(s.m.name)] == t
    ensures CrashOfWrite(s, index, body, t)
    ensures var dir := Sanitize(s.m.name);
            && Verdict(d, dir) == Assembles && Bytes(t.data) != Bytes(s.data)
            && AfterComplete(d, s.m.name) == WithoutSession(MovedIntoPlace(d, dir, s.m, Bytes(t.data)), dir)
  {
    hide Sanitize, Finish, HexDigest, Cut, ExpectedChunkSize, ChunkCount, WriteAt, Sha256Hex, HashOk, ReadAt, FullPass;
    SumAgrees(s);
    StoredOk(s, index, body);
    RewriteIsTorn(s, index, body);
    RewriteChanges(s, index, body);
  }

  ghost predicate HashedToTheEnd(s: Session) {
    s.m.AllReceived() && s.m.absorbed == s.m.Total() && !s.m.hashStale && s.m.hash != ""
  }

  lemma RewriteIsTorn(s: Session, index: nat, body: seq<byte>)
    requires Fits(s.m, index, Some(body)) && !OnDisk(s, index, body)
    ensures Torn(Bytes(s.data), Bytes(Stored(s, index, body).data), index * s.m.chunkSize, |body|)
  {
    hide ExpectedChunkSize, ChunkCount, ReadAt, WriteAt;
  }

  lemma RewriteChanges(s: Session, index: nat, body: seq<byte>)
    requires SessionOk(s) && Fits(s.m, index, Some(body)) && s.m.received[index] && !OnDisk(s, index, body)
    ensures Bytes(Stored(s, index, body).data) != Bytes(s.data)
  {
    hide HashOk, ExpectedChunkSize, ChunkCount, Cut;
    ChunkIsStretch(s.m.size, s.m.chunkSize, index);
  }

  // ----- Complete -----

  /** The disk after the rename, the hash not recorded yet. */
  function Renamed(d: Disk, dir: string): Disk
    requires dir in d.sessions
  {
    var s := d.sessions[dir];
    d.(archives := d.archives[dir := Resized(Bytes(s.data), s.m.size)],
       sessions := d.sessions[dir := Session(s.m, None)])
  }

  /** The disk after this much of the hash has been recorded, the session still
      there. */
  function Recorded(d: Disk, dir: string, part: string): Disk
    requires dir in d.sessions
  {
    var r := Renamed(d, dir);
    r.(sums := d.sums[dir := part])
  }

  /** The disk after the data of a mismatch has been removed, the old manifest still
      there. */
  function DataRemoved(d: Disk, dir: string): Disk
    requires dir in d.sessions
  {
    d.(sessions := d.sessions[dir := Session(d.sessions[dir].m, None)])
  }

  /** What a crash during Complete can leave. The hash is recorded by a plain write,
      which may stop half way. */
  ghost predicate CrashOfComplete(d: Disk, name: string, c: Disk)
    requires Sanitize(name) in d.sessions
  {
    var dir := Sanitize(name);
    || c == d
    || c == AfterComplete(d, name)
    || (Verdict(d, dir) == Mismatched && c == DataRemoved(d, dir))
    || (Verdict(d, dir) == Assembles && c == Renamed(d, dir))
    || (Verdict(d, dir) == Assembles && d.sessions[dir].m.hash != ""
        && exists part :: part <= d.sessions[dir].m.hash && c == Recorded(d, dir, part))
  }

  /** The archive is in place, but the hash it was announced with is not, or not in
      full, recorded beside it. */
  predicate RecordCut(d: Disk, dir: string, c: Disk)
    requires dir in d.sessions
  {
    dir in c.archives && d.sessions[dir].m.hash != "" && RecordedHash(c, dir) != d.sessions[dir].m.hash
  }

  /** The running hash covers the whole file. */
  predicate HashKeptUp(m: Manifest) { !m.hashStale && m.absorbed == m.Total() }

  /** The data of a mismatch is gone, and there is no hash to judge without it. */
  predicate Stuck(d: Disk, dir: string, c: Disk)
    requires dir in d.sessions
  {
    && dir in c.sessions && c.sessions[dir] == Session(d.sessions[dir].m, None) && dir !in c.archives
    && !HashKeptUp(d.sessions[dir].m)
  }

  /** Wherever Complete was cut short, completing again leaves the same archives;
      and it leaves the very disk Complete would have left exactly when the record
      of the hash was not cut and, after a mismatch, the running hash had kept
      up. */
  lemma CrashInCompleteExact(d: Disk, name: string, c: Disk)
    requires StoreOk(d) && Sanitize(name) in d.sessions && d.sessions[Sanitize(name)].m.AllReceived()
    requires CrashOfComplete(d, name, c)
    ensures AfterComplete(c, name).archives == AfterComplete(d, name).archives
    ensures AfterComplete(c, name) == AfterComplete(d, name) <==>
              !RecordCut(d, Sanitize(name), c) && !Stuck(d, Sanitize(name), c)
  {
    var dir := Sanitize(name);
    NothingThereYet(d, dir);
    Judged(d, dir);
    hide DiskOk, Apart, SumOf, Sanitize, Resized, Verdict, AfterComplete, CrashOfComplete, RecordCut, Stuck;
    if Verdict(d, dir) == Mismatched {
      CrashAfterMismatch(d, name, c);
    } else {
      CrashWhileAssembling(d, name, c);
    }
  }

  lemma NothingThereYet(d: Disk, dir: string)
    requires StoreOk(d) && dir in d.sessions
    ensures dir !in d.archives && dir !in d.sums
  {
    hide SessionOk, OneIdentity, Sanitize;
  }

  /** A complete session is judged, and its data is there. */
  lemma Judged(d: Disk, dir: string)
    requires StoreOk(d) && dir in d.sessions && d.sessions[dir].m.AllReceived()
    ensures Verdict(d, dir) == Mismatched || Verdict(d, dir) == Assembles
    ensures Verdict(d, dir) == Mismatched ==> d.sessions[dir].m.hash != ""
    ensures d.sessions[dir].data.Some? && |d.sessions[dir].m.received| == d.sessions[dir].m.Total() > 0
  {
    VerdictExact(d, dir);
    SumAgrees(d.sessions[dir]);
    CountBounds(d.sessions[dir].m.size, d.sessions[dir].m.chunkSize);
    hide HashOk, DataOk, OneIdentity, SumsOk, Sha256Hex, SumOf, Verdict, Sanitize, ChunkCount;
  }

  lemma CrashAfterMismatch(d: Disk, name: string, c: Disk)
    requires Sanitize(name) in d.sessions && Sanitize(name) !in d.archives && Sanitize(name) !in d.sums
    requires Verdict(d, Sanitize(name)) == Mismatched && d.sessions[Sanitize(name)].data.Some?
    requires var m := d.sessions[Sanitize(name)].m; |m.received| == m.Total() > 0 && m.AllReceived()
    requires CrashOfComplete(d, name, c)
    ensures AfterComplete(c, name).archives == AfterComplete(d, name).archives
    ensures AfterComplete(c, name) == AfterComplete(d, name) <==>
              !RecordCut(d, Sanitize(name), c) && !Stuck(d, Sanitize(name), c)
  {
    hide Sanitize, ChunkCount, HexDigest, Finish, FullPass, Resized;
    var dir, m := Sanitize(name), d.sessions[Sanitize(name)].m;
    assert m.received[0] && !Emptied(m).received[0];
    if c == DataRemoved(d, dir) {
      assert Verdict(c, dir) == if HashKeptUp(m) then Mismatched else Unreadable;
      assert HashKeptUp(m) ==> AfterComplete(c, name).sessions == AfterComplete(d, name).sessions;
    } else if c == AfterComplete(d, name) {
      assert Verdict(c, dir) == Missing;
    }
  }

  lemma CrashWhileAssembling(d: Disk, name: string, c: Disk)
    requires Sanitize(name) in d.sessions && Sanitize(name) !in d.archives && Sanitize(name) !in d.sums
    requires Verdict(d, Sanitize(name)) == Assembles && CrashOfComplete(d, name, c)
    ensures AfterComplete(c, name).archives == AfterComplete(d, name).archives
    ensures AfterComplete(c, name) == AfterComplete(d, name) <==>
              !RecordCut(d, Sanitize(name), c) && !Stuck(d, Sanitize(name), c)
  {
    hide Sanitize, SumOf, Resized;
    var dir := Sanitize(name);
    if c != d && dir in c.sessions {
      LeftoverVerdict(d, dir, c);
      hide Verdict;
      assert WithoutSession(c, dir).sessions == AfterComplete(d, name).sessions;
    }
  }

  /** Once the archive is in place, completing only ends the session. */
  lemma LeftoverVerdict(d: Disk, dir: string, c: Disk)
    requires dir in d.sessions && Verdict(d, dir) == Assembles && dir in c.sessions && dir in c.archives
    requires c.sessions[dir] == Session(d.sessions[dir].m, None)
    ensures Verdict(c, dir) == AlreadyInPlace
  {
    hide Resized, SumOf;
  }

  /** With its record cut the archive loses its identity: announced again under its
      name, the same content is stored a second time beside it. */
  lemma CutRecordForgets(lim: Limits, d: Disk, name: string, c: Disk)
    requires StoreOk(d) && Sanitize(name) in d.sessions && d.sessions[Sanitize(name)].m.AllReceived()
    requires CrashOfComplete(d, name, c) && RecordCut(d, Sanitize(name), c)
    requires var m := d.sessions[Sanitize(name)].m;
             Acceptable(lim, m.size, m.chunkSize) && !Assembled(d, m.size, m.hash)
    ensures var m := d.sessions[Sanitize(name)].m;
            var again := AfterComplete(c, name);
            && !Known(again, m.size, m.chunkSize, m.hash)
            && UploadName(again, name, m.hash) == Prefixed(m.hash, name)
            && Sanitize(Prefixed(m.hash, name)) in AfterBegin(lim, again, name, m.size, m.chunkSize, m.hash).sessions
  {
    hide DiskOk, Apart, SumOf, Sanitize, Prefixed, Resized, Verdict, CrashOfComplete, AfterBegin, Known, UploadName;
    var dir, m := Sanitize(name), d.sessions[Sanitize(name)].m;
    NothingThereYet(d, dir);
    Judged(d, dir);
    var part := CutWhere(d, name, c);
    LeftoverVerdict(d, dir, c);
    assert AfterComplete(c, name) == WithoutSession(c, dir);
    UnrecordedIsUnknown(d, dir, c, part);
    StoredBeside(lim, WithoutSession(c, dir), name, m.size, m.chunkSize, m.hash);
  }

  /** Unknown content announced under the name of an archive of another record is
      begun beside it. */
  lemma StoredBeside(lim: Limits, d: Disk, name: string, size: nat, chunkSize: nat, hash: string)
    requires Acceptable(lim, size, chunkSize) && !Known(d, size, chunkSize, hash) && hash != ""
    requires Sanitize(name) in d.archives && RecordedHash(d, Sanitize(name)) != hash
    ensures UploadName(d, name, hash) == Prefixed(hash, name)
    ensures Sanitize(Prefixed(hash, name)) in AfterBegin(lim, d, name, size, chunkSize, hash).sessions
  {
    hide Sanitize, Prefixed, Known;
  }

  /** Such a crash falls between the rename and the end of the record. */
  lemma CutWhere(d: Disk, name: string, c: Disk) returns (part: string)
    requires Sanitize(name) in d.sessions && Sanitize(name) !in d.archives && Sanitize(name) !in d.sums
    requires CrashOfComplete(d, name, c) && RecordCut(d, Sanitize(name), c)
    requires Verdict(d, Sanitize(name)) == Mismatched || Verdict(d, Sanitize(name)) == Assembles
    ensures part != d.sessions[Sanitize(name)].m.hash
    ensures c == Renamed(d, Sanitize(name)) || c == Recorded(d, Sanitize(name), part)
    ensures Verdict(d, Sanitize(name)) == Assembles
  {
    hide Sanitize, SumOf, Resized;
    var dir := Sanitize(name);
    part := RecordedHash(c, dir);
  }

  lemma UnrecordedIsUnknown(d: Disk, dir: string, c: Disk, part: string)
    requires DiskOk(d) && dir in d.sessions && dir !in d.sums && part != d.sessions[dir].m.hash
    requires c == Renamed(d, dir) || c == Recorded(d, dir, part)
    requires var m := d.sessions[dir].m; m.hash != "" && !Assembled(d, m.size, m.hash)
    ensures var m := d.sessions[dir].m; !Known(WithoutSession(c, dir), m.size, m.chunkSize, m.hash)
  {
    hide SessionOk, SumsOk, Sanitize, Resized;
    var m, again := d.sessions[dir].m, WithoutSession(c, dir);
    forall n | n in again.sums ensures !IsArchiveOf(again, n, m.size, m.hash) {
      if n != dir {
        assert !IsArchiveOf(d, n, m.size, m.hash);
      }
    }
    forall n | n in again.sessions ensures !IsSessionOf(again, n, m.size, m.chunkSize, m.hash) {
      assert !d.sessions[dir].m.SameFile(d.sessions[n].m);
    }
  }
}
