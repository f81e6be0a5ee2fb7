/** What each request does and is answered, in the fields of the store: what is
    announced again keeps its chunks or starts afresh, what is aborted is gone, and
    what the browser is told is what is there. */
module UploadAnswers {
  import opened Words
  import opened Wrappers
  import opened Hex
  import opened Chunks
  import opened Names
  import opened UploadDisk
  import opened UploadInvariant
  import opened UploadRuns
  import opened UploadTransfer
  import opened UploadStore

  /** Nothing has been received there. */
  ghost predicate Fresh(s: Session, size: nat, chunkSize: nat, hash: string) {
    && s.m.size == size && s.m.chunkSize == chunkSize && s.m.hash == hash
    && |s.m.received| == ChunkCount(size, chunkSize) && (forall i :: 0 <= i < |s.m.received| ==> !s.m.received[i])
    && s.data.None? && s.m.absorbed == 0 && s.m.hashState.None? && !s.m.hashStale
  }

  /** An announcement that is neither finished, nor under way, nor answered by an
      archive's name goes on where it is resumed: with the chunks that are there when
      sizes agree and no two hashes differ, an unnamed side taking the other's; and
      from nothing otherwise. */
  lemma AnnouncementExact(lim: Limits, d: Disk, name: string, size: int, chunkSize: int, hash: string)
    requires 0 < size <= lim.maxFile && 0 < chunkSize <= lim.maxChunk
    requires !Known(d, size, chunkSize, hash) && !AnsweredByName(d, name, hash)
    ensures var d', dir := AfterBegin(lim, d, name, size, chunkSize, hash), Sanitize(UploadName(d, name, hash));
            && d'.archives == d.archives && d'.sums == d.sums && d'.sessions.Keys == d.sessions.Keys + {dir}
            && (forall n :: n in d.sessions && n != dir ==> d'.sessions[n] == d.sessions[n])
            && if dir in d.sessions && d.sessions[dir].m.size == size && d.sessions[dir].m.chunkSize == chunkSize
                   && (hash == "" || d.sessions[dir].m.hash == "" || d.sessions[dir].m.hash == hash) then
                 var was := d.sessions[dir];
                 d'.sessions[dir] == was.(m := was.m.(hash := if was.m.hash == "" then hash else was.m.hash))
               else
                 Fresh(d'.sessions[dir], size, chunkSize, hash)
                 && d'.sessions[dir].m.name == UploadName(d, name, hash)
  {
    hide Sanitize, Known, AnsweredByName, UploadName;
  }

  /** Where it goes: under the announced name, or, when that is a finished archive of
      other content, under that name behind the first twelve characters of the
      hash. */
  lemma NameExact(d: Disk, name: string, hash: string)
    ensures var taken := Sanitize(name) in d.archives && hash != ""
                         && !(Sanitize(name) in d.sums && d.sums[Sanitize(name)] == hash);
            && UploadName(d, name, hash) ==
               (if taken then (if |hash| < 12 then hash else hash[..12]) + "-" + name else name)
            && (AnsweredByName(d, name, hash) <==> Sanitize(name) in d.archives && !taken)
  {
    hide Sanitize;
    if |hash| < 12 {
      assert hash[..|hash|] == hash;
    }
  }

  /** Content is known by its hash alone: an archive of this size or a session of
      this size and chunk size has it. */
  lemma KnownExact(d: Disk, size: nat, chunkSize: nat, hash: string)
    ensures Known(d, size, chunkSize, hash) <==>
              hash != ""
              && ((exists n :: n in d.sums && d.sums[n] == hash && n in d.archives && |d.archives[n]| == size)
                  || (exists n :: n in d.sessions && d.sessions[n].m.hash == hash && d.sessions[n].m.size == size
                               && d.sessions[n].m.chunkSize == chunkSize))
  {
    if n :| n in d.sums && d.sums[n] == hash && n in d.archives && |d.archives[n]| == size {
      assert IsArchiveOf(d, n, size, hash);
    }
    if n :| n in d.sessions && d.sessions[n].m.hash == hash && d.sessions[n].m.size == size
            && d.sessions[n].m.chunkSize == chunkSize {
      assert IsSessionOf(d, n, size, chunkSize, hash);
    }
  }

  // ----- What the browser is told -----

  /** How many of the first n chunks have been received. */
  function ReceivedUpTo(received: seq<bool>, n: nat): (c: nat)
    requires n <= |received|
  {
    if n == 0 then 0 else ReceivedUpTo(received, n - 1) + (if received[n - 1] then 1 else 0)
  }

  lemma {:induction false} ReceivedAndMissing(received: seq<bool>, n: nat)
    requires n <= |received|
    ensures ReceivedUpTo(received, n) + |MissingFrom(received, 0)| == |MissingFrom(received, n)| + n
  {
    hide MissingFrom;
    if n > 0 {
      ReceivedAndMissing(received, n - 1);
      MissingStep(received, n - 1);
    }
  }

  /** A session is reported as it is: what was announced, how many chunks there are
      and have been received, and which are missing, in order. */
  lemma ViewExact(m: Manifest)
    requires |m.received| == m.Total()
    ensures var v := ViewOf(m);
            && v.name == m.name && v.size == m.size && v.chunkSize == m.chunkSize && v.hash == m.hash
            && v.total == |m.received| && v.received == ReceivedUpTo(m.received, |m.received|) && !v.complete
            && (forall i :: i in v.missing <==> 0 <= i < |m.received| && !m.received[i])
            && (forall j, k :: 0 <= j < k < |v.missing| ==> v.missing[j] < v.missing[k])
  {
    hide ChunkCount;
    ReceivedAndMissing(m.received, |m.received|);
    NoneMissing(m.received);
  }

  /** And a finished archive as one that is complete. */
  lemma StatusExact(d: Disk, name: string)
    requires StoreOk(d)
    ensures var dir, r := Sanitize(name), StatusReply(d, name);
            && (dir in d.sessions ==> SessionShapeOk(d, dir) && r == Told(ViewOf(d.sessions[dir].m)))
            && (dir in d.archives ==>
                r == Told(View(name, |d.archives[dir]|, 0, if dir in d.sums then d.sums[dir] else "", 1, 1, [], true)))
            && (dir !in d.sessions && dir !in d.archives ==> r == Refused(NotFound))
  {
    hide Sanitize, SessionOk, OneIdentity, SumsOk, ViewOf;
    if Sanitize(name) in d.sessions {
      SessionShape(d, Sanitize(name));
    }
  }

  ghost predicate SessionShapeOk(d: Disk, dir: string)
    requires dir in d.sessions
  {
    |d.sessions[dir].m.received| == d.sessions[dir].m.Total()
  }

  // ----- Abort -----

  /** What Status answers on a valid disk. */
  ghost predicate Answers(d: Disk, name: string, reply: Reply) {
    DiskOk(d) && StatusReply(d, name) == reply
  }

  /** The session under dir is gone, and everything else is as it was. */
  ghost predicate OnlyGone(d: Disk, d': Disk, dir: string) {
    && d'.sessions.Keys == d.sessions.Keys - {dir} && d'.archives == d.archives && d'.sums == d.sums
    && forall n :: n in d.sessions && n != dir ==> d'.sessions[n] == d.sessions[n]
  }

  /** What is said of a name without a session. */
  function WithoutUpload(d: Disk, name: string): Reply {
    var dir := Sanitize(name);
    if dir in d.archives then
      Told(View(name, |d.archives[dir]|, 0, if dir in d.sums then d.sums[dir] else "", 1, 1, [], true))
    else Refused(NotFound)
  }

  /** After an abort the session is gone and everything else is as it was; the name
      is answered by its archive or not found. */
  lemma AbortExact(lim: Limits, d: Disk, name: string)
    requires StoreOk(d)
    ensures OnlyGone(d, Run(lim, d, [Abort(name)]), Sanitize(name)) && StoreOk(Run(lim, d, [Abort(name)]))
    ensures Answers(Run(lim, d, [Abort(name)]), name, WithoutUpload(d, name))
  {
    hide Sanitize, DiskOk, Apart, Run, StatusReply;
    var d' := AfterAbort(d, name);
    RunAbort(lim, d, name);
    StepOk(lim, d, Abort(name));
    StatusExact(d', name);
  }

  lemma RunAbort(lim: Limits, d: Disk, name: string)
    ensures Run(lim, d, [Abort(name)]) == AfterAbort(d, name) == After(lim, d, Abort(name))
  {
    assert [Abort(name)][1..] == [];
  }

  /** Announced afresh, it starts with every chunk missing: nothing of the aborted
      session comes back. */
  lemma AbortedStartsAfresh(lim: Limits, d: Disk, name: string, again: string, size: int, chunkSize: int, hash: string)
    requires StoreOk(d) && 0 < size <= lim.maxFile && 0 < chunkSize <= lim.maxChunk
    requires var d1 := Run(lim, d, [Abort(name)]);
             && !Known(d1, size, chunkSize, hash) && !AnsweredByName(d1, again, hash)
             && Sanitize(UploadName(d1, again, hash)) == Sanitize(name)
    ensures var d2, dir := Run(lim, d, [Abort(name), Begin(again, size, chunkSize, hash)]), Sanitize(name);
            && dir in d2.sessions && Fresh(d2.sessions[dir], size, chunkSize, hash)
            && (forall i :: 0 <= i < ChunkCount(size, chunkSize) ==> i in ViewOf(d2.sessions[dir].m).missing)
            && ViewOf(d2.sessions[dir].m).received == 0
  {
    var d1 := Run(lim, d, [Abort(name)]);
    AbortExact(lim, d, name);
    AnnouncementExact(lim, d1, again, size, chunkSize, hash);
    var d2 := AfterBegin(lim, d1, again, size, chunkSize, hash);
    RunTwo(lim, d, name, again, size, chunkSize, hash);
    var m := d2.sessions[Sanitize(name)].m;
    ViewExact(m);
    NoneReceived(m.received, |m.received|);
    hide Sanitize, StoreOk, Run, ChunkCount, Known, AnsweredByName, UploadName, AfterBegin, ViewOf;
  }

  lemma {:induction false} NoneReceived(received: seq<bool>, n: nat)
    requires n <= |received| && forall i :: 0 <= i < |received| ==> !received[i]
    ensures ReceivedUpTo(received, n) == 0
  {
    if n > 0 {
      NoneReceived(received, n - 1);
    }
  }

  lemma RunTwo(lim: Limits, d: Disk, name: string, again: string, size: int, chunkSize: int, hash: string)
    ensures Run(lim, d, [Abort(name), Begin(again, size, chunkSize, hash)]) ==
              AfterBegin(lim, Run(lim, d, [Abort(name)]), again, size, chunkSize, hash)
  {
    var a, b := Abort(name), Begin(again, size, chunkSize, hash);
    assert [a, b] == [a] + [b] && [b] == [b] + [];
    RunStep(lim, d, a, [b]);
    RunStep(lim, After(lim, d, a), b, []);
    RunAbort(lim, d, name);
    hide AfterBegin, AfterAbort, Run;
    RunNothing(lim, After(lim, After(lim, d, a), b));
  }

  // ----- Complete -----

  /** A session whose data has been moved into place already, as a crash leaves it,
      is answered with the archive and removed. */
  lemma LeftoverExact(d: Disk, name: string)
    requires Sanitize(name) in d.sessions && d.sessions[Sanitize(name)].data.None?
    requires Sanitize(name) in d.archives
    requires forall i :: 0 <= i < |d.sessions[Sanitize(name)].m.received| ==> d.sessions[Sanitize(name)].m.received[i]
    ensures CompleteReply(d, name) == InPlace(Sanitize(name))
    ensures OnlyGone(d, AfterComplete(d, name), Sanitize(name))
  {
    hide Sanitize;
  }

  /** The answer to a completion. */
  lemma CompletionExact(d: Disk, name: string)
    requires StoreOk(d)
    ensures var dir, r := Sanitize(name), CompleteReply(d, name);
            if dir !in d.sessions then
              r == if dir in d.archives then InPlace(dir) else NotCompleted(NotFound)
            else
              var s := d.sessions[dir];
              if exists i :: 0 <= i < |s.m.received| && !s.m.received[i] then
                && r.NotCompleted? && r.problem.Incomplete? && r.problem.chunk < |s.m.received|
                && !s.m.received[r.problem.chunk]
                && (forall i :: 0 <= i < r.problem.chunk ==> s.m.received[i])
                && AfterComplete(d, name) == d
              else
                var sum := Sha256Hex(Bytes(s.data));
                if s.m.hash != "" && sum != s.m.hash then
                  && r == NotCompleted(Mismatch(sum))
                  && AfterComplete(d, name).archives == d.archives && AfterComplete(d, name).sums == d.sums
                  && dir in AfterComplete(d, name).sessions && AfterComplete(d, name).sessions[dir].m.name == s.m.name
                  && Fresh(AfterComplete(d, name).sessions[dir], s.m.size, s.m.chunkSize, s.m.hash)
                else r == InPlace(dir)
  {
    hide Sanitize, SumOf, Sha256Hex, HashOk, OneIdentity, SumsOk;
    var dir := Sanitize(name);
    if dir in d.sessions {
      VerdictExact(d, dir);
      if d.sessions[dir].m.AllReceived() {
        SumAgrees(d.sessions[dir]);
      } else {
        assert exists i :: 0 <= i < |d.sessions[dir].m.received| && !d.sessions[dir].m.received[i];
      }
    }
  }

  // ----- Write -----

  /** A body that is no whole chunk of a session changes nothing: it is refused when
      there is no session, no such chunk, or it is longer than a chunk, and answered
      with what is there otherwise. */
  lemma RefusedWrite(d: Disk, name: string, index: int, body: Option<seq<byte>>)
    requires StoreOk(d)
    requires var dir := Sanitize(name);
             dir in d.sessions ==>
               var m := d.sessions[dir].m;
               !(0 <= index < |m.received| && body.Some? && |body.value| == m.At(index + 1) - m.At(index))
    ensures AfterWrite(d, name, index, body) == d
    ensures WriteReply(d, name, index, body) ==
              if Sanitize(name) !in d.sessions then Refused(NotFound)
              else if !(0 <= index < |d.sessions[Sanitize(name)].m.received|) then Refused(OutOfRange)
              else if body.Some? && |body.value| > d.sessions[Sanitize(name)].m.chunkSize then Refused(TooLarge)
              else StatusReply(d, name)
  {
    hide Sanitize, HashOk, DataOk, OneIdentity, SumsOk, StatusReply, Cut, ExpectedChunkSize, ChunkCount;
    var dir := Sanitize(name);
    if dir in d.sessions && 0 <= index < |d.sessions[dir].m.received| {
      var m := d.sessions[dir].m;
      ChunkIsStretch(m.size, m.chunkSize, index);
    }
  }

  /** A whole chunk is kept: it is received, in its place in the data, with every
      other received chunk as it was; and the answer shows it. */
  lemma KeptWrite(d: Disk, name: string, index: nat, body: seq<byte>)
    requires StoreOk(d) && IsChunkOf(d, Sanitize(name), index, body)
    ensures OnlyChanged(d, AfterWrite(d, name, index, Some(body)), Sanitize(name))
    ensures ChunkKept(d.sessions[Sanitize(name)], AfterWrite(d, name, index, Some(body)).sessions[Sanitize(name)],
              index, body)
    ensures AnswersWithStatus(d, name, index, body)
  {
    hide Sanitize, OneIdentity, SumsOk, StatusReply, Cut, ExpectedChunkSize, ChunkCount, HashOk, DataOk, WithChunk;
    var s := d.sessions[Sanitize(name)];
    ChunkIsStretch(s.m.size, s.m.chunkSize, index);
    WriteOk(d, name, index, Some(body));
    WholeChunkKept(s, index, body);
  }

  ghost predicate IsChunkOf(d: Disk, dir: string, index: nat, body: seq<byte>) {
    && dir in d.sessions && index < |d.sessions[dir].m.received|
    && |body| == d.sessions[dir].m.At(index + 1) - d.sessions[dir].m.At(index)
  }

  ghost predicate OnlyChanged(d: Disk, d': Disk, dir: string) {
    && d'.sessions.Keys == d.sessions.Keys && d'.archives == d.archives && d'.sums == d.sums && dir in d.sessions
    && forall n :: n in d.sessions && n != dir ==> d'.sessions[n] == d.sessions[n]
  }

  ghost predicate AnswersWithStatus(d: Disk, name: string, index: nat, body: seq<byte>) {
    var d' := AfterWrite(d, name, index, Some(body));
    DiskOk(d) && DiskOk(d') && WriteReply(d, name, index, Some(body)) == StatusReply(d', name)
  }

  ghost predicate ChunkKept(s: Session, t: Session, index: nat, body: seq<byte>) {
    && index < |s.m.received| && t.m.received == s.m.received[index := true]
    && t.m.SameFile(s.m) && t.m.name == s.m.name
    && SameChunk(s.m, Bytes(t.data), Bytes(t.data), index)
    && Bytes(t.data)[s.m.At(index)..s.m.At(index + 1)] == body
    && forall i :: 0 <= i < |s.m.received| && s.m.received[i] && i != index ==>
         SameChunk(s.m, Bytes(t.data), Bytes(s.data), i)
  }

  lemma WholeChunkKept(s: Session, index: nat, body: seq<byte>)
    requires SessionOk(s) && Fits(s.m, index, Some(body))
    ensures ChunkKept(s, WithChunk(s, index, body), index, body)
  {
    hide HashOk, WithChunk, ExpectedChunkSize, ChunkCount, Cut, WriteAt;
    WithChunkOk(s, index, body);
    StoredOk(s, index, body);
    var t := WithChunk(s, index, body);
    forall i | 0 <= i < |s.m.received| && s.m.received[i] && i != index
      ensures SameChunk(s.m, Bytes(t.data), Bytes(s.data), i)
    {
      CutMonotone(s.m.size, s.m.chunkSize, i, i + 1);
      if !OnDisk(s, index, body) {
        WriteKeepsChunk(s.m, Bytes(s.data), index, body, i);
      }
    }
  }
}
