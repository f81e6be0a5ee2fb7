/** What an upload store keeps on disk for one person, and what each request
    makes of it. */
module UploadDisk {
  import opened Words
  import opened Wrappers
  import opened RunningHash
  import opened Hex
  import opened Chunks
  import opened Names

  /** A session as its manifest records it. hashState is the running hash, None
      until a chunk has been consumed. */
  datatype Manifest = Manifest(
    name: string, size: nat, chunkSize: nat, hash: string, received: seq<bool>,
    absorbed: nat, hashState: Option<RunningSha>, hashStale: bool)
  {
    function Total(): nat { ChunkCount(size, chunkSize) }

    /** Where chunk i starts. */
    function At(i: nat): nat { Cut(size, chunkSize, i) }

    predicate AllReceived() { forall i :: 0 <= i < |received| ==> received[i] }

    predicate SameFile(other: Manifest) {
      hash == other.hash && size == other.size && chunkSize == other.chunkSize
    }
  }

  /** The directory of one upload: its manifest and its data file. */
  datatype Session = Session(m: Manifest, data: Option<seq<byte>>)

  /** The archives, the hashes recorded beside them, and the sessions, each by
      the sanitized name. */
  datatype Disk = Disk(sessions: map<string, Session>, archives: map<string, seq<byte>>, sums: map<string, string>)

  datatype Limits = Limits(maxChunk: nat, maxFile: nat)

  // ----- Files -----

  function Bytes(data: Option<seq<byte>>): seq<byte> { if data.Some? then data.value else [] }

  /** A write past the end leaves a hole, which reads as zeros. */
  function WriteAt(file: seq<byte>, body: seq<byte>, at: nat): (f: seq<byte>)
    ensures |f| == if |file| < at + |body| then at + |body| else |file|
    ensures f[at..at + |body|] == body
    ensures forall k :: 0 <= k < at && k < |file| ==> f[k] == file[k]
    ensures forall k :: at + |body| <= k < |file| ==> f[k] == file[k]
    ensures forall k :: |file| <= k < at ==> f[k] == 0
  {
    var grown := if |file| < at then file + seq(at - |file|, _ => 0) else file;
    grown[..at] + body + (if at + |body| < |file| then file[at + |body|..] else [])
  }

  /** None when the file ends before the last byte asked for. */
  function ReadAt(file: seq<byte>, at: nat, n: nat): Option<seq<byte>> {
    if at + n <= |file| then Some(file[at..at + n]) else None
  }

  function Resized(file: seq<byte>, size: nat): (f: seq<byte>)
    ensures |f| == size && forall k :: 0 <= k < size ==> f[k] == if k < |file| then file[k] else 0
  {
    if size <= |file| then file[..size] else file + seq(size - |file|, _ => 0)
  }

  // ----- Begin -----

  function NewManifest(name: string, size: nat, chunkSize: nat, hash: string): Manifest {
    Manifest(name, size, chunkSize, hash, seq(ChunkCount(size, chunkSize), _ => false), 0, None, false)
  }

  predicate Acceptable(lim: Limits, size: int, chunkSize: int) {
    0 < size <= lim.maxFile && 0 < chunkSize <= lim.maxChunk
  }

  /** A finished archive of this content, under any name. */
  predicate IsArchiveOf(d: Disk, name: string, size: nat, hash: string) {
    name in d.sums && d.sums[name] == hash && name in d.archives && |d.archives[name]| == size
  }

  predicate Assembled(d: Disk, size: nat, hash: string) {
    exists n :: n in d.sums && IsArchiveOf(d, n, size, hash)
  }

  /** An upload in progress of this content, under any name. */
  predicate IsSessionOf(d: Disk, dir: string, size: nat, chunkSize: nat, hash: string) {
    dir in d.sessions && d.sessions[dir].m.hash == hash && d.sessions[dir].m.size == size
        && d.sessions[dir].m.chunkSize == chunkSize
  }

  predicate InProgress(d: Disk, size: nat, chunkSize: nat, hash: string) {
    exists n :: n in d.sessions && IsSessionOf(d, n, size, chunkSize, hash)
  }

  predicate Known(d: Disk, size: nat, chunkSize: nat, hash: string) {
    hash != "" && (Assembled(d, size, hash) || InProgress(d, size, chunkSize, hash))
  }

  function RecordedHash(d: Disk, name: string): string {
    if name in d.sums then d.sums[name] else ""
  }

  function Prefixed(hash: string, name: string): string {
    hash[..if |hash| < 12 then |hash| else 12] + "-" + name
  }

  /** The archive under this name is not known to be the announced content. */
  predicate Collides(d: Disk, name: string, hash: string) {
    hash != "" && Sanitize(name) in d.archives && RecordedHash(d, Sanitize(name)) != hash
  }

  /** The announcement is answered with the archive that has this name. */
  predicate AnsweredByName(d: Disk, name: string, hash: string) {
    Sanitize(name) in d.archives && !Collides(d, name, hash)
  }

  /** The name the upload goes on under. */
  function UploadName(d: Disk, name: string, hash: string): string {
    if Collides(d, name, hash) then Prefixed(hash, name) else name
  }

  predicate Resumes(m: Manifest, size: nat, chunkSize: nat, hash: string) {
    m.size == size && m.chunkSize == chunkSize && (hash == "" || m.hash == "" || m.hash == hash)
  }

  /** A session that can go on is kept, and takes the hash if it had none; any
      other makes room for a new one. */
  function GoneOn(d: Disk, n: string, size: nat, chunkSize: nat, hash: string): Disk {
    var dir := Sanitize(n);
    if dir in d.sessions && Resumes(d.sessions[dir].m, size, chunkSize, hash) then
      var s := d.sessions[dir];
      if s.m.hash == "" && hash != "" then d.(sessions := d.sessions[dir := s.(m := s.m.(hash := hash))]) else d
    else
      d.(sessions := d.sessions[dir := Session(NewManifest(n, size, chunkSize, hash), None)])
  }

  function AfterBegin(lim: Limits, d: Disk, name: string, size: int, chunkSize: int, hash: string): Disk {
    if !Acceptable(lim, size, chunkSize) || Known(d, size, chunkSize, hash) || AnsweredByName(d, name, hash) then d
    else GoneOn(d, UploadName(d, name, hash), size, chunkSize, hash)
  }

  // ----- WriteChunk -----

  /** The running hash fed every chunk that is next in line and has been
      received, read back from the data file. None when one cannot be read. */
  function AbsorbFrom(m: Manifest, h: RunningSha, data: seq<byte>): Option<Manifest>
    requires m.chunkSize > 0
    decreases |m.received| - m.absorbed
  {
    if m.absorbed < m.Total() && m.absorbed < |m.received| && m.received[m.absorbed] then
      var i := m.absorbed;
      match ReadAt(data, i * m.chunkSize, ExpectedChunkSize(m.size, m.chunkSize, i))
      case None => None
      case Some(chunk) => AbsorbFrom(m.(absorbed := i + 1), FeedSha(h, chunk), data)
    else Some(m.(hashState := Some(h)))
  }

  function Restored(state: Option<RunningSha>): RunningSha { if state.Some? then state.value else EMPTY }

  function Absorbed(m: Manifest, data: seq<byte>): Option<Manifest>
    requires m.chunkSize > 0
  {
    if m.hash == "" || m.hashStale || m.absorbed >= m.Total() || m.absorbed >= |m.received|
        || !m.received[m.absorbed] then Some(m)
    else AbsorbFrom(m, Restored(m.hashState), data)
  }

  /** A whole body for a chunk of this session. */
  predicate Fits(m: Manifest, index: int, body: Option<seq<byte>>) {
    0 <= index < m.Total() && index < |m.received| && m.chunkSize > 0 && body.Some?
        && |body.value| == ExpectedChunkSize(m.size, m.chunkSize, index)
  }

  /** The chunk is on disk already, byte for byte. */
  predicate OnDisk(s: Session, index: nat, body: seq<byte>)
    requires index < |s.m.received|
  {
    s.m.received[index] && ReadAt(Bytes(s.data), index * s.m.chunkSize, |body|) == Some(body)
  }

  /** The session once the bytes are in the data file, before the hash. */
  function Stored(s: Session, index: nat, body: seq<byte>): (s': Session)
    requires index < |s.m.received|
    ensures s'.data.Some?
  {
    var file := Bytes(s.data);
    if OnDisk(s, index, body) then s.(data := Some(file))
    else
      Session(s.m.(received := s.m.received[index := true],
                   hashStale := s.m.hashStale || (s.m.received[index] && index < s.m.absorbed)),
              Some(WriteAt(file, body, index * s.m.chunkSize)))
  }

  /** The session after a whole chunk. When the hash cannot read a chunk back,
      the bytes stay written and the old manifest stays. */
  function WithChunk(s: Session, index: nat, body: seq<byte>): Session
    requires index < |s.m.received| && s.m.chunkSize > 0
  {
    var s' := Stored(s, index, body);
    match Absorbed(s'.m, s'.data.value)
    case Some(m) => Session(m, s'.data)
    case None => Session(s.m, s'.data)
  }

  /** body is None when the connection broke before the body was read. */
  function AfterWrite(d: Disk, name: string, index: int, body: Option<seq<byte>>): Disk {
    var dir := Sanitize(name);
    if dir in d.sessions && Fits(d.sessions[dir].m, index, body) then
      d.(sessions := d.sessions[dir := WithChunk(d.sessions[dir], index, body.value)])
    else d
  }

  // ----- Complete and Abort -----

  /** The hash of the first size bytes of the data file. */
  function FullPass(data: seq<byte>, size: nat): string {
    Sha256Hex(if size <= |data| then data[..size] else data)
  }

  /** The hash Complete compares; None when there is no file to read. */
  function SumOf(m: Manifest, data: Option<seq<byte>>): Option<string> {
    if !m.hashStale && m.absorbed == m.Total() then Some(HexDigest(Finish(Restored(m.hashState))))
    else if data.None? then None
    else Some(FullPass(data.value, m.size))
  }

  function Emptied(m: Manifest): Manifest {
    m.(received := seq(m.Total(), _ => false), absorbed := 0, hashState := None, hashStale := false)
  }

  function WithoutSession(d: Disk, dir: string): Disk {
    d.(sessions := map k | k in d.sessions && k != dir :: d.sessions[k])
  }

  /** The data file renamed to its final name, and its hash recorded. */
  function MovedIntoPlace(d: Disk, dir: string, m: Manifest, data: seq<byte>): Disk {
    d.(archives := d.archives[dir := Resized(data, m.size)],
       sums := if m.hash == "" then d.sums else d.sums[dir := m.hash])
  }

  datatype Outcome = Missing | AlreadyInPlace | Mismatched | Unreadable | Assembles

  /** What completing this session comes to. */
  function Verdict(d: Disk, dir: string): Outcome
    requires dir in d.sessions
  {
    var s := d.sessions[dir];
    if !s.m.AllReceived() then Missing
    else if s.data.None? && dir in d.archives then AlreadyInPlace
    else if s.m.hash != "" && SumOf(s.m, s.data).None? then Unreadable
    else if s.m.hash != "" && SumOf(s.m, s.data).value != s.m.hash then Mismatched
    else if s.data.None? then Unreadable
    else Assembles
  }

  function AfterComplete(d: Disk, name: string): Disk {
    var dir := Sanitize(name);
    if dir !in d.sessions then d
    else
      var s := d.sessions[dir];
      match Verdict(d, dir)
      case Missing => d
      case AlreadyInPlace => WithoutSession(d, dir)
      case Mismatched => d.(sessions := d.sessions[dir := Session(Emptied(s.m), None)])
      case Unreadable => d
      case Assembles => WithoutSession(MovedIntoPlace(d, dir, s.m, s.data.value), dir)
  }

  function AfterAbort(d: Disk, name: string): Disk { WithoutSession(d, Sanitize(name)) }
}
