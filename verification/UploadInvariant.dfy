/** What every request keeps true of the disk: the manifest, the data file and
    the running hash agree, and content has one identity. */
module UploadInvariant {
  import opened Words
  import opened Wrappers
  import opened Blocks
  import opened Fips180
  import opened RunningHash
  import opened Hex
  import opened Chunks
  import opened Names
  import opened UploadDisk

  ghost predicate ManifestOk(m: Manifest) {
    && m.size > 0 && m.chunkSize > 0
    && |m.received| == m.Total()
    && m.absorbed <= m.Total()
    && (forall i :: 0 <= i < m.absorbed ==> m.received[i])
    && (m.hash == "" ==> m.absorbed == 0 && !m.hashStale)
  }

  /** The data file holds every chunk the manifest claims, and nothing past the
      announced size. */
  ghost predicate DataOk(m: Manifest, data: Option<seq<byte>>) {
    && |Bytes(data)| <= m.size
    && forall i :: 0 <= i < |m.received| && m.received[i] ==> data.Some? && m.At(i + 1) <= |data.value|
  }

  /** Unless it is marked stale, the saved hash state is that of exactly the
      first absorbed chunks, as they are on disk. */
  ghost predicate HashOk(m: Manifest, data: Option<seq<byte>>) {
    !m.hashStale ==>
      && m.At(m.absorbed) <= |Bytes(data)|
      && Restored(m.hashState) == ShaOf(Bytes(data)[..m.At(m.absorbed)])
  }

  ghost predicate SessionOk(s: Session) {
    ManifestOk(s.m) && DataOk(s.m, s.data) && HashOk(s.m, s.data)
  }

  /** No two sessions are the same announced content in the same chunks. */
  ghost predicate OneIdentity(d: Disk) {
    forall a, b :: a in d.sessions && b in d.sessions && a != b && d.sessions[a].m.hash != "" ==>
      !d.sessions[a].m.SameFile(d.sessions[b].m)
  }

  /** A recorded hash is the hash of the archive beside it. */
  ghost predicate SumsOk(d: Disk) {
    forall n :: n in d.sums ==>
        n in d.archives && Sanitize(n) == n && d.sums[n] != "" && d.sums[n] == Sha256Hex(d.archives[n])
  }

  /** No upload is under way under the name of a finished archive. */
  ghost predicate Apart(d: Disk) {
    forall n :: n in d.sessions ==> n !in d.archives
  }

  ghost predicate DiskOk(d: Disk) {
    && (forall n :: n in d.sessions ==> SessionOk(d.sessions[n]) && Sanitize(d.sessions[n].m.name) == n)
    && OneIdentity(d)
    && SumsOk(d)
  }

  // ----- The running hash -----

  lemma EmptyHash()
    ensures EMPTY == ShaOf([])
  {
    FoldNone(Compress, H0);
  }

  lemma NewSessionOk(name: string, size: nat, chunkSize: nat, hash: string)
    requires size > 0 && chunkSize > 0
    ensures SessionOk(Session(NewManifest(name, size, chunkSize, hash), None))
  {
    EmptyHash();
    CutEnds(size, chunkSize);
  }

  /** Consuming the next chunk from the file. */
  lemma NextChunkConsumed(m: Manifest, data: seq<byte>)
    requires m.size > 0 && m.chunkSize > 0 && m.absorbed < m.Total() && m.At(m.absorbed + 1) <= |data|
    ensures var i := m.absorbed;
            var chunk := ReadAt(data, i * m.chunkSize, ExpectedChunkSize(m.size, m.chunkSize, i));
            chunk.Some? && FeedSha(ShaOf(data[..m.At(i)]), chunk.value) == ShaOf(data[..m.At(i + 1)])
  {
    hide Feed, RunningOf;
    var i := m.absorbed;
    ChunkIsStretch(m.size, m.chunkSize, i);
    var chunk := data[m.At(i)..m.At(i + 1)];
    FeedExtends(Compress, H0, data[..m.At(i)], chunk);
    assert data[..m.At(i)] + chunk == data[..m.At(i + 1)];
  }

  /** Where the run of received chunks from i ends. */
  function FirstMissing(received: seq<bool>, i: nat): (j: nat)
    requires i <= |received|
    ensures i <= j <= |received| && (j < |received| ==> !received[j])
    ensures forall k :: i <= k < j ==> received[k]
    decreases |received| - i
  {
    if i < |received| && received[i] then FirstMissing(received, i + 1) else i
  }

  /** Feeding the hash never fails on a valid session, and catches up with every
      chunk received in a row. */
  lemma {:induction false} AbsorbFromOk(m: Manifest, h: RunningSha, data: seq<byte>)
    requires ManifestOk(m) && DataOk(m, Some(data)) && m.hash != ""
    requires m.At(m.absorbed) <= |data| && h == ShaOf(data[..m.At(m.absorbed)])
    ensures var r := AbsorbFrom(m, h, data);
            var j := FirstMissing(m.received, m.absorbed);
            && m.At(j) <= |data|
            && r == Some(m.(absorbed := j, hashState := Some(ShaOf(data[..m.At(j)]))))
    decreases |m.received| - m.absorbed
  {
    hide Feed, RunningOf;
    if m.absorbed < m.Total() && m.received[m.absorbed] {
      var i := m.absorbed;
      NextChunkConsumed(m, data);
      AbsorbFromOk(m.(absorbed := i + 1), ShaOf(data[..m.At(i + 1)]), data);
    }
  }

  lemma AbsorbedOk(m: Manifest, data: seq<byte>)
    requires ManifestOk(m) && DataOk(m, Some(data)) && HashOk(m, Some(data))
    ensures var r := Absorbed(m, data);
            && r.Some? && SessionOk(Session(r.value, Some(data)))
            && r.value.received == m.received && r.value.SameFile(m) && r.value.name == m.name
            && (m.hash != "" && !m.hashStale ==>
                r.value.absorbed == FirstMissing(m.received, m.absorbed) && !r.value.hashStale)
  {
    hide Feed, RunningOf;
    if !(m.hash == "" || m.hashStale || m.absorbed >= m.Total() || !m.received[m.absorbed]) {
      AbsorbFromOk(m, Restored(m.hashState), data);
    }
  }

  lemma WriteElsewhere(file: seq<byte>, body: seq<byte>, at: nat, lo: nat, hi: nat)
    requires lo <= hi <= |file| && (hi <= at || at + |body| <= lo)
    ensures WriteAt(file, body, at)[lo..hi] == file[lo..hi]
  {
  }

  /** A chunk is written inside its own stretch of the file. */
  lemma WriteStaysInside(m: Manifest, data: seq<byte>, index: nat, body: seq<byte>)
    requires ManifestOk(m) && |data| <= m.size
    requires index < m.Total() && |body| == ExpectedChunkSize(m.size, m.chunkSize, index)
    ensures var f := WriteAt(data, body, index * m.chunkSize);
            && m.At(index) <= m.At(index + 1) <= |f| <= m.size && |data| <= |f|
            && f[m.At(index)..m.At(index + 1)] == body
  {
    ChunkIsStretch(m.size, m.chunkSize, index);
  }

  lemma WriteKeepsChunk(m: Manifest, data: seq<byte>, index: nat, body: seq<byte>, i: nat)
    requires ManifestOk(m)
    requires index < m.Total() && |body| == ExpectedChunkSize(m.size, m.chunkSize, index)
    requires i != index && m.At(i + 1) <= |data|
    ensures var f := WriteAt(data, body, index * m.chunkSize);
            m.At(i) <= m.At(i + 1) <= |f| && f[m.At(i)..m.At(i + 1)] == data[m.At(i)..m.At(i + 1)]
  {
    ChunkIsStretch(m.size, m.chunkSize, index);
    CutMonotone(m.size, m.chunkSize, i, i + 1);
    if i < index {
      CutMonotone(m.size, m.chunkSize, i + 1, index);
    } else {
      CutMonotone(m.size, m.chunkSize, index + 1, i);
    }
    WriteElsewhere(data, body, index * m.chunkSize, m.At(i), m.At(i + 1));
  }

  lemma WriteKeepsPrefix(m: Manifest, data: seq<byte>, index: nat, body: seq<byte>, i: nat)
    requires ManifestOk(m)
    requires index < m.Total() && |body| == ExpectedChunkSize(m.size, m.chunkSize, index)
    requires i <= index && m.At(i) <= |data|
    ensures var f := WriteAt(data, body, index * m.chunkSize);
            m.At(i) <= |f| && f[..m.At(i)] == data[..m.At(i)]
  {
    ChunkIsStretch(m.size, m.chunkSize, index);
    CutMonotone(m.size, m.chunkSize, i, index);
    WriteElsewhere(data, body, index * m.chunkSize, 0, m.At(i));
  }

  /** The bytes of a chunk on disk, whatever was there before. */
  lemma StoredOk(s: Session, index: nat, body: seq<byte>)
    requires SessionOk(s) && Fits(s.m, index, Some(body))
    ensures SessionOk(Stored(s, index, body))
    ensures var s' := Stored(s, index, body);
            && s'.m.received == s.m.received[index := true] && s'.m.SameFile(s.m) && s'.m.name == s.m.name
            && s.m.At(index) <= s.m.At(index + 1) <= |s'.data.value|
            && s'.data.value[s.m.At(index)..s.m.At(index + 1)] == body
  {
    hide Cut, ExpectedChunkSize, WriteAt;
    var m, data, s' := s.m, Bytes(s.data), Stored(s, index, body);
    ChunkIsStretch(m.size, m.chunkSize, index);
    if OnDisk(s, index, body) {
      assert m.received[index := true] == m.received;
    } else {
      WriteStaysInside(m, data, index, body);
      if !s'.m.hashStale {
        WriteKeepsPrefix(m, data, index, body, m.absorbed);
      }
    }
  }

  /** A whole chunk leaves the session valid, holding that chunk, with the hash
      caught up. */
  lemma WithChunkOk(s: Session, index: nat, body: seq<byte>)
    requires SessionOk(s) && Fits(s.m, index, Some(body))
    ensures var s' := WithChunk(s, index, body);
            && SessionOk(s') && s'.m.SameFile(s.m) && s'.m.name == s.m.name
            && s'.m.received == s.m.received[index := true]
            && s'.data == Stored(s, index, body).data
            && (s'.m.hash != "" && !s'.m.hashStale ==> s'.m.absorbed == FirstMissing(s'.m.received, 0))
  {
    StoredOk(s, index, body);
    var t := Stored(s, index, body);
    AbsorbedOk(t.m, t.data.value);
  }

  // ----- The disk -----

  lemma ReplacedSession(d: Disk, dir: string, s: Session)
    requires DiskOk(d) && SessionOk(s) && Sanitize(s.m.name) == dir
    requires s.m.hash != "" ==>
               forall k :: k in d.sessions && k != dir ==> !s.m.SameFile(d.sessions[k].m)
    ensures DiskOk(d.(sessions := d.sessions[dir := s]))
  {
    hide SessionOk, Sanitize, Sha256Hex;
  }

  lemma UpdatedSession(d: Disk, dir: string, s: Session)
    requires DiskOk(d) && dir in d.sessions && SessionOk(s)
    requires s.m.SameFile(d.sessions[dir].m) && s.m.name == d.sessions[dir].m.name
    ensures DiskOk(d.(sessions := d.sessions[dir := s]))
  {
    hide SessionOk, Sanitize, Sha256Hex;
    ReplacedSession(d, dir, s);
  }

  lemma RemovedSession(d: Disk, dir: string)
    requires DiskOk(d)
    ensures DiskOk(WithoutSession(d, dir))
  {
    hide SessionOk, Sanitize, Sha256Hex;
  }

  lemma BeginOk(lim: Limits, d: Disk, name: string, size: int, chunkSize: int, hash: string)
    requires DiskOk(d)
    ensures DiskOk(AfterBegin(lim, d, name, size, chunkSize, hash))
  {
    hide Sha256Hex, Sanitize, HashOk, DataOk;
    if Acceptable(lim, size, chunkSize) && !Known(d, size, chunkSize, hash) && !AnsweredByName(d, name, hash) {
      var n := UploadName(d, name, hash);
      var dir := Sanitize(n);
      assert hash != "" ==> forall k :: k in d.sessions ==> !IsSessionOf(d, k, size, chunkSize, hash);
      if dir in d.sessions && Resumes(d.sessions[dir].m, size, chunkSize, hash) {
        if d.sessions[dir].m.hash == "" && hash != "" {
          AdoptedHashOk(d.sessions[dir], hash);
          ReplacedSession(d, dir, d.sessions[dir].(m := d.sessions[dir].m.(hash := hash)));
        }
      } else {
        NewSessionOk(n, size, chunkSize, hash);
        ReplacedSession(d, dir, Session(NewManifest(n, size, chunkSize, hash), None));
      }
    }
  }

  /** A session begun without a hash can be given one late: nothing has been
      consumed yet. */
  lemma AdoptedHashOk(s: Session, hash: string)
    requires SessionOk(s) && s.m.hash == ""
    ensures SessionOk(s.(m := s.m.(hash := hash)))
  {
  }

  lemma WriteOk(d: Disk, name: string, index: int, body: Option<seq<byte>>)
    requires DiskOk(d)
    ensures DiskOk(AfterWrite(d, name, index, body))
  {
    hide SessionOk, OneIdentity, SumsOk, WithChunk;
    var dir := Sanitize(name);
    if dir in d.sessions && Fits(d.sessions[dir].m, index, body) {
      WithChunkOk(d.sessions[dir], index, body.value);
      UpdatedSession(d, dir, WithChunk(d.sessions[dir], index, body.value));
    }
  }

  /** The running hash, when it has kept up, and a full pass over the data give
      the same sum. */
  lemma SumAgrees(s: Session)
    requires SessionOk(s) && s.m.AllReceived()
    ensures s.data.Some? && |s.data.value| == s.m.size
    ensures SumOf(s.m, s.data) == Some(Sha256Hex(s.data.value)) == Some(FullPass(s.data.value, s.m.size))
  {
    hide Finish, Digest, RunningOf, HexDigest;
    CutEnds(s.m.size, s.m.chunkSize);
    CountBounds(s.m.size, s.m.chunkSize);
    assert s.m.received[s.m.Total() - 1];
    var data := s.data.value;
    assert data[..s.m.size] == data;
    FinishIsDigest(data);
  }

  /** A pass reads no further than the announced size. */
  lemma PassStops(data: seq<byte>, more: seq<byte>)
    ensures FullPass(data + more, |data|) == Sha256Hex(data)
  {
    assert (data + more)[..|data|] == data;
  }

  lemma MovedOk(d: Disk, dir: string, m: Manifest, data: seq<byte>)
    requires DiskOk(d) && |data| == m.size && Sanitize(dir) == dir
    requires if m.hash == "" then dir !in d.archives else m.hash == Sha256Hex(data)
    ensures DiskOk(MovedIntoPlace(d, dir, m, data))
  {
    hide SessionOk, Sanitize, Sha256Hex;
    assert Resized(data, m.size) == data;
  }

  lemma CompleteOk(d: Disk, name: string)
    requires DiskOk(d) && Apart(d)
    ensures DiskOk(AfterComplete(d, name))
  {
    hide SessionOk, Sanitize, Sha256Hex, FullPass, SumOf;
    var dir := Sanitize(name);
    if dir in d.sessions {
      var s := d.sessions[dir];
      match Verdict(d, dir) {
        case Mismatched =>
          EmptiedOk(s);
          UpdatedSession(d, dir, Session(Emptied(s.m), None));
        case Assembles =>
          SumAgrees(s);
          SanitizeTwice(name);
          MovedOk(d, dir, s.m, s.data.value);
          RemovedSession(MovedIntoPlace(d, dir, s.m, s.data.value), dir);
        case _ =>
          RemovedSession(d, dir);
      }
    }
  }

  /** After a mismatch the session is a valid empty one again. */
  lemma EmptiedOk(s: Session)
    requires SessionOk(s)
    ensures SessionOk(Session(Emptied(s.m), None))
  {
    EmptyHash();
    CutEnds(s.m.size, s.m.chunkSize);
  }
}
