/** The upload store: its operations, in place, and what they answer. */
module UploadStore {
  import opened Words
  import opened Wrappers
  import opened Blocks
  import opened RunningHash
  import opened Hex
  import opened Chunks
  import opened Names
  import opened UploadDisk
  import opened UploadInvariant
  import opened UploadRuns
  import opened UploadTransfer

  datatype Problem =
    | NotPositive
    | TooLarge
    | NotFound
    | OutOfRange
    | Incomplete(chunk: nat)
    | Mismatch(got: string)
    | CannotRead

  /** What the browser is told about one upload. */
  datatype View = View(name: string, size: nat, chunkSize: nat, hash: string, total: nat, received: nat,
                       missing: seq<nat>, complete: bool)

  datatype Reply = Told(view: View) | Refused(problem: Problem)

  datatype Completion = InPlace(dir: string) | NotCompleted(problem: Problem)

  function ViewOf(m: Manifest): View
    requires |m.received| == m.Total()
  {
    var missing := MissingFrom(m.received, 0);
    MissingFits(m.received, 0);
    View(m.name, m.size, m.chunkSize, m.hash, m.Total(), m.Total() - |missing|, missing, false)
  }

  lemma {:induction false} MissingFits(received: seq<bool>, i: nat)
    requires i <= |received|
    ensures |MissingFrom(received, i)| <= |received| - i
    decreases |received| - i
  {
    if i < |received| {
      MissingFits(received, i + 1);
    }
  }

  lemma MissingStep(received: seq<bool>, i: nat)
    requires i < |received|
    ensures MissingFrom(received, i) == (if received[i] then [] else [i]) + MissingFrom(received, i + 1)
  {
  }

  lemma NoneMissing(received: seq<bool>)
    ensures MissingFrom(received, |received|) == []
  {
  }

  function AssembledView(name: string, size: nat, hash: string): View {
    View(name, size, 0, hash, 1, 1, [], true)
  }

  /** A session answers for itself; without one, the archive of that name. */
  function StatusReply(d: Disk, name: string): Reply
    requires DiskOk(d)
  {
    var dir := Sanitize(name);
    if dir in d.sessions then Told(ViewOf(d.sessions[dir].m))
    else if dir in d.archives then Told(AssembledView(name, |d.archives[dir]|, RecordedHash(d, dir)))
    else Refused(NotFound)
  }

  /** The answer to an announcement: refused out of bounds; otherwise the finished
      archive of this content if there is one, else the session of it, else the
      archive of this name, else the session the upload now goes on in. */
  ghost predicate BeginAnswers(lim: Limits, d: Disk, name: string, size: int, chunkSize: int, hash: string,
                               reply: Reply)
    requires DiskOk(d)
  {
    if size <= 0 then reply == Refused(NotPositive)
    else if size > lim.maxFile || chunkSize <= 0 || chunkSize > lim.maxChunk then reply == Refused(TooLarge)
    else if hash != "" && Assembled(d, size, hash) then
      exists n :: IsArchiveOf(d, n, size, hash) && reply == Told(AssembledView(n, size, hash))
    else if hash != "" && InProgress(d, size, chunkSize, hash) then
      exists n :: IsSessionOf(d, n, size, chunkSize, hash) && reply == Told(ViewOf(d.sessions[n].m))
    else if AnsweredByName(d, name, hash) then
      reply == Told(AssembledView(name, |d.archives[Sanitize(name)]|, hash))
    else
      GoneOnView(AfterBegin(lim, d, name, size, chunkSize, hash), Sanitize(UploadName(d, name, hash)), reply)
  }

  ghost predicate GoneOnView(d: Disk, dir: string, reply: Reply) {
    dir in d.sessions && |d.sessions[dir].m.received| == d.sessions[dir].m.Total()
        && reply == Told(ViewOf(d.sessions[dir].m))
  }

  function WriteReply(d: Disk, name: string, index: int, body: Option<seq<byte>>): Reply
    requires DiskOk(d)
  {
    var dir := Sanitize(name);
    if dir !in d.sessions then Refused(NotFound)
    else
      var m := d.sessions[dir].m;
      if index < 0 || index >= m.Total() then Refused(OutOfRange)
      else if body.Some? && |body.value| > m.chunkSize then Refused(TooLarge)
      else
        WriteOk(d, name, index, body);
        StatusReply(AfterWrite(d, name, index, body), name)
  }

  function CompleteReply(d: Disk, name: string): Completion {
    var dir := Sanitize(name);
    if dir !in d.sessions then
      if dir in d.archives then InPlace(dir) else NotCompleted(NotFound)
    else
      match Verdict(d, dir)
      case Missing => NotCompleted(Incomplete(FirstMissing(d.sessions[dir].m.received, 0)))
      case AlreadyInPlace => InPlace(dir)
      case Mismatched => NotCompleted(Mismatch(SumOf(d.sessions[dir].m, d.sessions[dir].data).value))
      case Unreadable => NotCompleted(CannotRead)
      case Assembles => InPlace(dir)
  }

  lemma SessionShape(d: Disk, dir: string)
    requires DiskOk(d) && dir in d.sessions
    ensures |d.sessions[dir].m.received| == d.sessions[dir].m.Total() && Sanitize(d.sessions[dir].m.name) == dir
  {
    hide HashOk, DataOk, OneIdentity, SumsOk, Sanitize, ChunkCount;
  }

  class Store {
    const lim: Limits
    var sessions: map<string, Session>
    var archives: map<string, seq<byte>>
    var sums: map<string, string>

    function State(): Disk reads this { Disk(sessions, archives, sums) }

    ghost predicate Valid() reads this { StoreOk(State()) }

    constructor (maxChunk: int, maxFile: int)
      ensures Valid() && State() == Disk(map[], map[], map[])
      ensures lim.maxChunk == if maxChunk <= 0 then 64 * 1024 * 1024 else maxChunk
      ensures lim.maxFile == if maxFile <= 0 then 1024 * 1024 * 1024 * 1024 else maxFile
    {
      lim := Limits(if maxChunk <= 0 then 64 * 1024 * 1024 else maxChunk,
                    if maxFile <= 0 then 1024 * 1024 * 1024 * 1024 else maxFile);
      sessions, archives, sums := map[], map[], map[];
      new;
      EmptyStoreOk();
    }

    /** A finished archive of this content, under any name. */
    method FindAssembled(size: nat, hash: string) returns (found: Option<string>)
      ensures found.Some? ==> IsArchiveOf(State(), found.value, size, hash)
      ensures found.None? <==> !Assembled(State(), size, hash)
    {
      var todo := sums.Keys;
      found := None;
      while todo != {}
        invariant todo <= sums.Keys
        invariant forall n :: n in sums && n !in todo ==> !IsArchiveOf(State(), n, size, hash)
        decreases |todo|
      {
        var n :| n in todo;
        if sums[n] == hash && n in archives && |archives[n]| == size {
          assert IsArchiveOf(State(), n, size, hash);
          return Some(n);
        }
        todo := todo - {n};
      }
    }

    /** An upload in progress of this content, by the name in its manifest. */
    method FindSession(size: nat, chunkSize: nat, hash: string) returns (found: Option<string>)
      requires Valid()
      ensures found.Some? ==> IsSessionOf(State(), Sanitize(found.value), size, chunkSize, hash)
      ensures found.None? <==> !InProgress(State(), size, chunkSize, hash)
    {
      hide Sanitize, SessionOk, OneIdentity, SumsOk;
      var todo := sessions.Keys;
      found := None;
      while todo != {}
        invariant todo <= sessions.Keys
        invariant forall n :: n in sessions && n !in todo ==> !IsSessionOf(State(), n, size, chunkSize, hash)
        decreases |todo|
      {
        var n :| n in todo;
        var m := sessions[n].m;
        if m.hash == hash && m.size == size && m.chunkSize == chunkSize {
          assert IsSessionOf(State(), n, size, chunkSize, hash);
          return Some(m.name);
        }
        todo := todo - {n};
      }
    }

    /** The chunks counted off one by one. */
    method Report(m: Manifest) returns (view: View)
      requires |m.received| == m.Total()
      ensures view == ViewOf(m)
    {
      hide MissingFrom, ChunkCount;
      var count, missing, i := 0, [], 0;
      while i < |m.received|
        invariant i <= |m.received| && count + |missing| == i
        invariant missing + MissingFrom(m.received, i) == MissingFrom(m.received, 0)
      {
        MissingStep(m.received, i);
        if m.received[i] {
          count := count + 1;
        } else {
          missing := missing + [i];
        }
        i := i + 1;
      }
      NoneMissing(m.received);
      assert missing == MissingFrom(m.received, 0);
      view := View(m.name, m.size, m.chunkSize, m.hash, m.Total(), count, missing, false);
    }

    method Status(name: string) returns (reply: Reply)
      requires Valid()
      ensures reply == StatusReply(State(), name)
    {
      var dir := Sanitize(name);
      if dir in sessions {
        var view := Report(sessions[dir].m);
        return Told(view);
      }
      if dir in archives {
        return Told(AssembledView(name, |archives[dir]|, if dir in sums then sums[dir] else ""));
      }
      return Refused(NotFound);
    }

    method Begin(name: string, size: int, chunkSize: int, hash: string) returns (reply: Reply)
      requires Valid()
      modifies this`sessions
      ensures State() == AfterBegin(lim, old(State()), name, size, chunkSize, hash)
      ensures BeginAnswers(lim, old(State()), name, size, chunkSize, hash, reply)
      ensures NameFree(lim, old(State()), Request.Begin(name, size, chunkSize, hash)) ==> Valid()
    {
      hide SessionOk, OneIdentity, SumsOk, Sanitize, ViewOf, Prefixed, GoneOn, GoneOnView;
      ghost var d := State();
      BeginOk(lim, d, name, size, chunkSize, hash);
      ApartIffNameFree(lim, d, Request.Begin(name, size, chunkSize, hash));
      hide DiskOk, Apart, Known;
      if size <= 0 {
        return Refused(NotPositive);
      }
      if size > lim.maxFile {
        return Refused(TooLarge);
      }
      if chunkSize <= 0 || chunkSize > lim.maxChunk {
        return Refused(TooLarge);
      }
      if hash != "" {
        var found := FindAssembled(size, hash);
        if found.Some? {
          return Told(AssembledView(found.value, size, hash));
        }
        found := FindSession(size, chunkSize, hash);
        if found.Some? {
          reply := Status(found.value);
          return;
        }
      }
      var n := name;
      if Sanitize(name) in archives {
        if hash == "" || (if Sanitize(name) in sums then sums[Sanitize(name)] else "") == hash {
          return Told(AssembledView(name, |archives[Sanitize(name)]|, hash));
        }
        n := Prefixed(hash, name);
      }
      reply := GoOn(n, size, chunkSize, hash);
    }

    method GoOn(n: string, size: nat, chunkSize: nat, hash: string) returns (reply: Reply)
      requires Valid()
      modifies this`sessions
      ensures State() == GoneOn(old(State()), n, size, chunkSize, hash)
      ensures GoneOnView(State(), Sanitize(n), reply)
    {
      hide DiskOk, Apart, Sanitize, ChunkCount, ViewOf;
      var dir := Sanitize(n);
      if dir in sessions {
        SessionShape(State(), dir);
        var existing := sessions[dir].m;
        if existing.size == size && existing.chunkSize == chunkSize
            && (hash == "" || existing.hash == "" || existing.hash == hash) {
          if existing.hash == "" && hash != "" {
            existing := existing.(hash := hash);
            sessions := sessions[dir := sessions[dir].(m := existing)];
          }
          var view := Report(existing);
          return Told(view);
        }
        sessions := map k | k in sessions && k != dir :: sessions[k];
      }
      var m := NewManifest(n, size, chunkSize, hash);
      sessions := sessions[dir := Session(m, None)];
      var view := Report(m);
      return Told(view);
    }

    /** The hash is fed the chunk in memory, and the later ones read back from the
        data file. */
    static method Absorb(m: Manifest, data: seq<byte>, index: nat, body: seq<byte>) returns (fed: Option<Manifest>)
      requires m.chunkSize > 0 && |m.received| == m.Total()
      requires index < m.Total() && |body| == ExpectedChunkSize(m.size, m.chunkSize, index)
      requires ReadAt(data, index * m.chunkSize, |body|) == Some(body)
      ensures fed == Absorbed(m, data)
    {
      hide Feed, ExpectedChunkSize, ChunkCount, ReadAt;
      if m.hash == "" || m.hashStale || m.absorbed >= m.Total() || !m.received[m.absorbed] {
        return Some(m);
      }
      var h := Restored(m.hashState);
      var n := m;
      while n.absorbed < n.Total() && n.received[n.absorbed]
        invariant n == m.(absorbed := n.absorbed)
        invariant AbsorbFrom(n, h, data) == Absorbed(m, data)
        decreases |n.received| - n.absorbed
      {
        var i := n.absorbed;
        var chunk := body;
        if i != index {
          var read := ReadAt(data, i * n.chunkSize, ExpectedChunkSize(n.size, n.chunkSize, i));
          if read.None? {
            return None;
          }
          chunk := read.value;
        }
        h := FeedSha(h, chunk);
        n := n.(absorbed := i + 1);
      }
      return Some(n.(hashState := Some(h)));
    }

    /** The bytes put in the data file, unless they are there already. */
    static method PutInFile(s: Session, index: nat, body: seq<byte>) returns (t: Session)
      requires s.m.chunkSize > 0 && index < |s.m.received|
      ensures t == Stored(s, index, body)
      ensures ReadAt(t.data.value, index * s.m.chunkSize, |body|) == Some(body)
    {
      hide WriteAt;
      var file, m, write := Bytes(s.data), s.m, true;
      if m.received[index] {
        if ReadAt(file, index * m.chunkSize, |body|) == Some(body) {
          write := false;
        } else if index < m.absorbed {
          m := m.(hashStale := true);
        }
      }
      if write {
        file := WriteAt(file, body, index * m.chunkSize);
        m := m.(received := m.received[index := true]);
      }
      t := Session(m, Some(file));
    }

    method WriteChunk(name: string, index: int, body: Option<seq<byte>>) returns (reply: Reply)
      requires Valid()
      modifies this`sessions
      ensures State() == AfterWrite(old(State()), name, index, body)
      ensures reply == WriteReply(old(State()), name, index, body)
      ensures Valid()
    {
      hide HashOk, DataOk, OneIdentity, SumsOk, Sanitize, ViewOf, ExpectedChunkSize, ChunkCount, Stored, Absorbed;
      ghost var d := State();
      StepOk(lim, d, Write(name, index, body));
      var dir := Sanitize(name);
      if dir !in sessions {
        return Refused(NotFound);
      }
      var s := sessions[dir];
      if index < 0 || index >= s.m.Total() {
        return Refused(OutOfRange);
      }
      if body.None? {
        reply := Status(name);
        return;
      }
      ChunkIsStretch(s.m.size, s.m.chunkSize, index);
      if |body.value| > s.m.chunkSize {
        return Refused(TooLarge);
      }
      if |body.value| != ExpectedChunkSize(s.m.size, s.m.chunkSize, index) {
        reply := Status(name);
        return;
      }
      WithChunkOk(s, index, body.value);
      StoredOk(s, index, body.value);
      var t := PutInFile(s, index, body.value);
      StoredChunks(s, index, body.value);
      var fed := Absorb(t.m, t.data.value, index, body.value);
      AbsorbedOk(t.m, t.data.value);
      sessions := sessions[dir := Session(fed.value, t.data)];
      var view := Report(fed.value);
      return Told(view);
    }

    /** The running hash if it kept up, a pass over the data if not. */
    static method Sum(m: Manifest, data: Option<seq<byte>>) returns (sum: Option<string>)
      ensures sum == SumOf(m, data)
    {
      if !m.hashStale && m.absorbed == m.Total() {
        return Some(HexDigest(Finish(Restored(m.hashState))));
      }
      if data.None? {
        return None;
      }
      return Some(FullPass(data.value, m.size));
    }

    method Complete(name: string) returns (reply: Completion)
      modifies this
      ensures State() == AfterComplete(old(State()), name)
      ensures reply == CompleteReply(old(State()), name)
      ensures old(Valid()) ==> Valid()
    {
      hide DiskOk, Sanitize, SumOf, Resized, Emptied;
      if StoreOk(State()) {
        StepOk(lim, State(), Request.Complete(name));
      }
      var dir := Sanitize(name);
      if dir !in sessions {
        return if dir in archives then InPlace(dir) else NotCompleted(NotFound);
      }
      var m, data := sessions[dir].m, sessions[dir].data;
      var i := 0;
      while i < |m.received|
        invariant i <= |m.received| && FirstMissing(m.received, i) == FirstMissing(m.received, 0)
        invariant forall k :: 0 <= k < i ==> m.received[k]
      {
        if !m.received[i] {
          return NotCompleted(Incomplete(i));
        }
        i := i + 1;
      }
      if data.None? && dir in archives {
        sessions := map k | k in sessions && k != dir :: sessions[k];
        return InPlace(dir);
      }
      if m.hash != "" {
        var sum := Sum(m, data);
        if sum.None? {
          return NotCompleted(CannotRead);
        }
        if sum.value != m.hash {
          sessions := sessions[dir := Session(Emptied(m), None)];
          return NotCompleted(Mismatch(sum.value));
        }
      }
      if data.None? {
        return NotCompleted(CannotRead);
      }
      archives := archives[dir := Resized(data.value, m.size)];
      if m.hash != "" {
        sums := sums[dir := m.hash];
      }
      sessions := map k | k in sessions && k != dir :: sessions[k];
      return InPlace(dir);
    }

    method Abort(name: string)
      requires Valid()
      modifies this`sessions
      ensures State() == AfterAbort(old(State()), name) && Valid()
      ensures Sanitize(name) !in sessions && archives == old(archives) && sums == old(sums)
      ensures forall n :: n != Sanitize(name) ==>
                (n in sessions <==> n in old(sessions)) && (n in sessions ==> sessions[n] == old(sessions)[n])
    {
      hide HashOk, DataOk, OneIdentity, SumsOk, Sanitize;
      StepOk(lim, State(), Request.Abort(name));
      sessions := map k | k in sessions && k != Sanitize(name) :: sessions[k];
    }
  }

  lemma StoredChunks(s: Session, index: nat, body: seq<byte>)
    requires index < |s.m.received|
    ensures var m := Stored(s, index, body).m;
            m.chunkSize == s.m.chunkSize && m.size == s.m.size && |m.received| == |s.m.received|
  {
    hide OnDisk, WriteAt;
  }
}
