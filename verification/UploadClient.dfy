/** The page's half of an upload, over a connection that may fail at every
    request. */
module UploadClient {
  import opened Words
  import opened Wrappers
  import opened Hex
  import opened Chunks
  import opened Names
  import opened JsNumbers
  import opened WizardSha256
  import opened UploadDisk
  import opened UploadInvariant
  import opened UploadRuns
  import opened UploadTransfer
  import opened UploadStore

  const CHUNK_SIZE: nat := 16 * 1024 * 1024
  const MAX_RETRIES: nat := 5
  const MAX_PASSES: nat := 100

  /** What becomes of one request without a body. */
  datatype Call = Call(reaches: bool, answered: bool)

  /** What becomes of one chunk request: whether it reaches the server, whether
      its body breaks off with an error or is cut short in silence, and whether
      the answer comes back. */
  datatype Fate = Fate(reaches: bool, broken: bool, cut: nat, answered: bool)

  function BodyOf(f: Fate, blob: seq<byte>): (body: Option<seq<byte>>)
    ensures body.None? <==> f.broken
    ensures body.Some? ==> body.value <= blob && (body.value == blob || |body.value| == f.cut < |blob|)
  {
    if f.broken then None else Some(if f.cut < |blob| then blob[..f.cut] else blob)
  }

  /** The chunk arrives whole and the page learns of it. */
  predicate Good(f: Fate) { f.reaches && !f.broken && f.cut >= CHUNK_SIZE && f.answered }

  /** The page is told that the chunk arrived, though it need not have arrived
      whole. */
  predicate Silent(f: Fate) { f.reaches && f.answered && !Good(f) }

  /** How many of the first n requests failed in silence. */
  function Silences(net: nat -> Fate, n: nat): nat {
    if n == 0 then 0 else Silences(net, n - 1) + (if Silent(net(n - 1)) then 1 else 0)
  }

  /** A chunk request gets through at least once in every five. */
  ghost predicate Steady(net: nat -> Fate) { forall t: nat :: GoodSoon(net, t) }

  /** And fewer requests fail in silence than there are passes. */
  ghost predicate Fair(net: nat -> Fate) {
    Steady(net) && forall n: nat :: Silences(net, n) < MAX_PASSES
  }

  /** Such is a connection that loses four requests of five. */
  lemma LossyIsFair(net: nat -> Fate)
    requires forall t: nat :: net(t) == if t % 5 == 4 then Fate(true, false, CHUNK_SIZE, true)
                                        else Fate(false, false, 0, false)
    ensures Fair(net)
  {
    forall t: nat ensures GoodSoon(net, t) {
      var k := t + (4 - t % 5);
      assert k % 5 == 4 && Good(net(k));
    }
    forall n: nat ensures Silences(net, n) < MAX_PASSES {
      NoSilences(net, n);
    }
  }

  lemma {:induction false} NoSilences(net: nat -> Fate, n: nat)
    requires forall t: nat :: !Silent(net(t))
    ensures Silences(net, n) == 0
  {
    if n > 0 {
      NoSilences(net, n - 1);
    }
  }

  lemma {:induction false} SilencesGrow(net: nat -> Fate, a: nat, b: nat)
    requires a <= b
    ensures Silences(net, a) <= Silences(net, b)
    decreases b
  {
    if a < b {
      SilencesGrow(net, a, b - 1);
    }
  }

  ghost predicate GoodSoon(net: nat -> Fate, t: nat) {
    exists k: nat :: t <= k < t + MAX_RETRIES && Good(net(k))
  }

  ghost predicate AllAnswered(calls: nat -> Call) {
    forall t: nat :: calls(t).reaches && calls(t).answered
  }

  /** A request that sends a chunk of the file, or the beginning of one. */
  predicate Sends(r: Request, name: string, file: seq<byte>) {
    && r.Write? && r.name == name
    && 0 <= r.index < ChunkCount(|file|, CHUNK_SIZE)
    && (r.body.Some? ==> r.body.value <= PageSlice(file, CHUNK_SIZE, r.index))
  }

  ghost predicate AllSends(rs: seq<Request>, name: string, file: seq<byte>) {
    forall r :: r in rs ==> Sends(r, name, file)
  }

  /** The session under way is one of this very content. */
  predicate Target(d: Disk, dir: string, file: seq<byte>) {
    IsSessionOf(d, dir, |file|, CHUNK_SIZE, Sha256Hex(file))
  }

  function Announced(name: string, file: seq<byte>): Request {
    Begin(name, |file|, CHUNK_SIZE, Sha256Hex(file))
  }

  /** Where the upload goes on: in the session of this content, or else under its
      own name or the one made up for it. */
  predicate GoesOnIn(d: Disk, name: string, file: seq<byte>, dir: string) {
    var hash := Sha256Hex(file);
    && !Assembled(d, |file|, hash)
    && if InProgress(d, |file|, CHUNK_SIZE, hash) then Target(d, dir, file)
       else !AnsweredByName(d, name, hash) && dir == Sanitize(UploadName(d, name, hash))
  }

  /** What was received there, if the upload resumes it, is from this file. */
  ghost predicate Ours(d: Disk, name: string, file: seq<byte>) {
    exists dir :: GoesOnIn(d, name, file, dir) && OursIn(d, dir, file)
  }

  ghost predicate OursIn(d: Disk, dir: string, file: seq<byte>) {
    dir in d.sessions && Resumes(d.sessions[dir].m, |file|, CHUNK_SIZE, Sha256Hex(file)) ==>
      Faithful(d, dir, file, CHUNK_SIZE)
  }

  /** Nothing of this content is known, and the name it goes under is unused. */
  predicate NewHere(d: Disk, name: string, file: seq<byte>) {
    var hash := Sha256Hex(file);
    && !Known(d, |file|, CHUNK_SIZE, hash) && !AnsweredByName(d, name, hash)
    && Sanitize(UploadName(d, name, hash)) !in d.sessions
  }

  /** A session of this content that holds part of the file is under way. */
  ghost predicate UnderWay(d: Disk, dir: string, file: seq<byte>) {
    Target(d, dir, file) && !Assembled(d, |file|, Sha256Hex(file)) && Faithful(d, dir, file, CHUNK_SIZE)
  }

  /** A new upload is ours to send, and so is one that was broken off. */
  lemma NewOrUnderWay(d: Disk, name: string, dir: string, file: seq<byte>)
    requires DiskOk(d) && (NewHere(d, name, file) || UnderWay(d, dir, file))
    ensures Ours(d, name, file)
    ensures forall n :: GoesOnIn(d, name, file, n) ==>
              n == if NewHere(d, name, file) then Sanitize(UploadName(d, name, Sha256Hex(file))) else dir
  {
    hide Sanitize, Sha256Hex, Prefixed, SessionOk, SumsOk, Faithful;
    HexDigestIsNotEmpty(file);
    if NewHere(d, name, file) {
      var n := Sanitize(UploadName(d, name, Sha256Hex(file)));
      assert GoesOnIn(d, name, file, n) && OursIn(d, n, file);
    } else {
      assert GoesOnIn(d, name, file, dir) && OursIn(d, dir, file);
    }
  }

  // ----- Runs of requests, one more at a time -----

  lemma {:induction false} RunConcat(lim: Limits, d: Disk, a: seq<Request>, b: seq<Request>)
    ensures Run(lim, d, a + b) == Run(lim, Run(lim, d, a), b)
    decreases |a|
  {
    hide After;
    if a == [] {
      assert a + b == b;
    } else {
      assert a + b == [a[0]] + (a[1..] + b);
      RunStep(lim, d, a[0], a[1..] + b);
      RunConcat(lim, After(lim, d, a[0]), a[1..], b);
    }
  }

  lemma RunOneMore(lim: Limits, d: Disk, a: seq<Request>, r: Request)
    ensures Run(lim, d, a + [r]) == After(lim, Run(lim, d, a), r)
  {
    hide After, Run;
    RunConcat(lim, d, a, [r]);
    assert [r] + [] == [r];
    RunStep(lim, Run(lim, d, a), r, []);
    RunNothing(lim, After(lim, Run(lim, d, a), r));
  }

  /** What sending chunks of the file makes of its session. */
  lemma SendsKeep(lim: Limits, d: Disk, rs: seq<Request>, name: string, file: seq<byte>)
    requires StoreOk(d) && Target(d, Sanitize(name), file) && AllSends(rs, name, file)
    ensures var d' := Run(lim, d, rs);
            && StoreOk(d') && Keeps(d, d') && Target(d', Sanitize(name), file)
            && Grew(d.sessions[Sanitize(name)].m, d', Sanitize(name))
            && (Faithful(d, Sanitize(name), file, CHUNK_SIZE) ==> Faithful(d', Sanitize(name), file, CHUNK_SIZE))
  {
    hide StoreOk, Run, NamesFree, Sanitize, Faithful, Keeps, ChunkCount, PageSlice, Sha256Hex;
    WritesNeedNoNames(lim, d, rs);
    RunKeepsArchives(lim, d, rs);
    MissingOnlyShrinks(lim, d, rs, Sanitize(name));
    if Faithful(d, Sanitize(name), file, CHUNK_SIZE) {
      forall r | r in rs ensures Honest(r, Sanitize(name), file, CHUNK_SIZE) {
        assert Sends(r, name, file);
      }
      RunFaithful(lim, d, rs, Sanitize(name), file, CHUNK_SIZE);
    }
  }

  // ----- The answers -----

  lemma BeginTold(lim: Limits, d: Disk, name: string, file: seq<byte>, view: View)
    requires StoreOk(d) && NameFree(lim, d, Announced(name, file)) && |file| > 0
    requires BeginAnswers(lim, d, name, |file|, CHUNK_SIZE, Sha256Hex(file), Told(view))
    ensures var d', dir := AfterBegin(lim, d, name, |file|, CHUNK_SIZE, Sha256Hex(file)), Sanitize(view.name);
            if view.complete then
              && dir in d'.archives && dir !in d'.sessions
              && Sha256Hex(d'.archives[dir]) == Sha256Hex(file)
            else
              && Target(d', dir, file) && |d'.sessions[dir].m.received| == d'.sessions[dir].m.Total()
              && view == ViewOf(d'.sessions[dir].m)
  {
    hide SessionOk, OneIdentity, Sanitize, Prefixed, Sha256Hex, ChunkCount, MissingFrom;
    var hash := Sha256Hex(file);
    HexDigestIsNotEmpty(file);
    BeginOk(lim, d, name, |file|, CHUNK_SIZE, hash);
    ApartIffNameFree(lim, d, Announced(name, file));
    var d' := AfterBegin(lim, d, name, |file|, CHUNK_SIZE, hash);
    if Sanitize(view.name) in d'.sessions {
      SessionShape(d', Sanitize(view.name));
    }
  }

  lemma OursBegins(lim: Limits, d: Disk, name: string, file: seq<byte>, view: View)
    requires StoreOk(d) && NameFree(lim, d, Announced(name, file)) && Ours(d, name, file)
    requires BeginAnswers(lim, d, name, |file|, CHUNK_SIZE, Sha256Hex(file), Told(view))
    ensures var d', dir := AfterBegin(lim, d, name, |file|, CHUNK_SIZE, Sha256Hex(file)), Sanitize(view.name);
            !view.complete && GoesOnIn(d, name, file, dir) && Faithful(d', dir, file, CHUNK_SIZE)
  {
    hide SessionOk, SumsOk, Sanitize, Prefixed, Sha256Hex, ChunkCount, MissingFrom;
    HexDigestIsNotEmpty(file);
    var dir :| GoesOnIn(d, name, file, dir) && OursIn(d, dir, file);
    if InProgress(d, |file|, CHUNK_SIZE, Sha256Hex(file)) {
      KnownResumesUnderAnyName(lim, d, name, |file|, CHUNK_SIZE, Sha256Hex(file));
    }
  }

  lemma BeginWithinBounds(lim: Limits, d: Disk, name: string, file: seq<byte>, reply: Reply)
    requires DiskOk(d) && BeginAnswers(lim, d, name, |file|, CHUNK_SIZE, Sha256Hex(file), reply)
    ensures reply.Told? <==> Acceptable(lim, |file|, CHUNK_SIZE)
  {
    hide DiskOk, Known, Assembled, InProgress, AnsweredByName, GoneOn, AfterBegin, Sanitize, Sha256Hex, ViewOf;
  }

  /** What completing the upload gives. */
  lemma EndTold(lim: Limits, d: Disk, name: string, file: seq<byte>)
    requires StoreOk(d) && Target(d, Sanitize(name), file)
    ensures var d', dir := AfterComplete(d, name), Sanitize(name);
            && StoreOk(d') && Keeps(d, d')
            && (CompleteReply(d, name).InPlace? ==>
                dir in d'.archives && Sha256Hex(d'.archives[dir]) == Sha256Hex(file))
            && (Faithful(d, dir, file, CHUNK_SIZE) && CompleteReply(d, name).InPlace? ==> d'.archives[dir] == file)
            && (Faithful(d, dir, file, CHUNK_SIZE) && d.sessions[dir].m.AllReceived() ==>
                CompleteReply(d, name).InPlace?)
  {
    hide StoreOk, Sanitize, Sha256Hex, SumOf, Faithful, Keeps, Verdict;
    var dir := Sanitize(name);
    HexDigestIsNotEmpty(file);
    StepOk(lim, d, Complete(name));
    StepKeeps(lim, d, Complete(name));
    VerdictExact(d, dir);
    NeverLeftOver(d, dir);
    if Verdict(d, dir) == Assembles {
      CompletedArchive(lim, d, name);
    }
    if Faithful(d, dir, file, CHUNK_SIZE) {
      FaithfulEnd(lim, d, name, file);
    }
  }

  lemma NeverLeftOver(d: Disk, dir: string)
    requires StoreOk(d) && dir in d.sessions
    ensures Verdict(d, dir) != AlreadyInPlace && Verdict(d, dir) != Unreadable
  {
    hide Sanitize, HashOk, OneIdentity, SumsOk, SumOf, Sha256Hex;
    if d.sessions[dir].m.AllReceived() {
      SumAgrees(d.sessions[dir]);
    }
  }

  lemma FaithfulEnd(lim: Limits, d: Disk, name: string, file: seq<byte>)
    requires StoreOk(d) && Sanitize(name) in d.sessions && Faithful(d, Sanitize(name), file, CHUNK_SIZE)
    ensures Faithful(AfterComplete(d, name), Sanitize(name), file, CHUNK_SIZE)
    ensures d.sessions[Sanitize(name)].m.AllReceived() ==> Bytes(d.sessions[Sanitize(name)].data) == file
    ensures Sanitize(name) in AfterComplete(d, name).archives ==>
              AfterComplete(d, name).archives[Sanitize(name)] == file
  {
    hide HashOk, OneIdentity, SumsOk, Sanitize, Sha256Hex, Verdict, AfterComplete;
    CompleteFaithful(lim, d, Complete(name), Sanitize(name), file, CHUNK_SIZE);
    assert After(lim, d, Complete(name)) == AfterComplete(d, name);
    if d.sessions[Sanitize(name)].m.AllReceived() {
      AllPartsAreTheFile(d.sessions[Sanitize(name)], file);
    }
  }

  // ----- The page -----

  /** One chunk, retried. The requests the server saw are in rs. */
  method PutChunk(store: Store, name: string, index: nat, blob: seq<byte>, net: nat -> Fate, at: nat,
                  ghost file: seq<byte>)
    returns (sent: bool, next: nat, ghost rs: seq<Request>)
    requires store.Valid() && index < ChunkCount(|file|, CHUNK_SIZE) && blob == PageSlice(file, CHUNK_SIZE, index)
    modifies store`sessions
    ensures store.Valid() && store.State() == Run(store.lim, old(store.State()), rs) && AllSends(rs, name, file)
    ensures at < next <= at + 5
    ensures Steady(net) && Target(old(store.State()), Sanitize(name), file) && |file| > 0 ==>
              sent && (Received(store.State(), Sanitize(name), index) || Silences(net, next) > Silences(net, at))
  {
    hide DiskOk, Apart, Run, Sanitize, PageSlice, ChunkCount, AfterWrite, Target, Sha256Hex, Received;
    hide AllSends, Sends, Silences, Steady, WriteReply;
    ghost var d := store.State();
    NothingSent(name, file);
    ghost var fair := Steady(net) && Target(d, Sanitize(name), file) && |file| > 0;
    RunNothing(store.lim, d);
    next, rs := at, [];
    var attempt := 0;
    while attempt < MAX_RETRIES
      invariant attempt <= MAX_RETRIES && next == at + attempt
      invariant store.Valid() && store.State() == Run(store.lim, d, rs) && AllSends(rs, name, file)
      invariant fair ==> forall k :: at <= k < next ==> !Good(net(k))
    {
      var f := net(next);
      next := next + 1;
      if f.reaches {
        ghost var before, r := store.State(), Write(name, index, BodyOf(f, blob));
        var reply := store.WriteChunk(name, index, BodyOf(f, blob));
        RunOneMore(store.lim, d, rs, r);
        SendsPart(name, index, file, f);
        OneMoreSent(rs, r, name, file);
        if fair && Good(f) {
          SendsKeep(store.lim, d, rs, name, file);
          GoodDelivers(store.lim, before, name, index, file, f);
        }
        rs := rs + [r];
        if f.answered && reply.Told? {
          SilenceCounts(net, at, next);
          return true, next, rs;
        }
      }
      attempt := attempt + 1;
    }
    if fair {
      OneInFive(net, at);
    }
    return false, next, rs;
  }

  lemma NothingSent(name: string, file: seq<byte>)
    ensures AllSends([], name, file)
  {
  }

  lemma OneMoreSent(rs: seq<Request>, r: Request, name: string, file: seq<byte>)
    requires AllSends(rs, name, file) && Sends(r, name, file)
    ensures AllSends(rs + [r], name, file)
  {
    hide Sends;
  }

  lemma SendsPart(name: string, index: nat, file: seq<byte>, f: Fate)
    requires index < ChunkCount(|file|, CHUNK_SIZE)
    ensures Sends(Write(name, index, BodyOf(f, PageSlice(file, CHUNK_SIZE, index))), name, file)
  {
    hide PageSlice, ChunkCount;
  }

  lemma SilenceCounts(net: nat -> Fate, at: nat, next: nat)
    requires at < next
    ensures Silences(net, next) > Silences(net, at) || !Silent(net(next - 1))
  {
    SilencesGrow(net, at, next - 1);
  }

  lemma OneInFive(net: nat -> Fate, at: nat)
    requires Steady(net)
    ensures exists k :: at <= k < at + 5 && Good(net(k))
  {
    assert GoodSoon(net, at);
  }

  lemma SliceFits(file: seq<byte>, index: nat)
    ensures |PageSlice(file, CHUNK_SIZE, index)| <= CHUNK_SIZE
  {
  }

  lemma GoodDelivers(lim: Limits, d: Disk, name: string, index: nat, file: seq<byte>, f: Fate)
    requires StoreOk(d) && Target(d, Sanitize(name), file) && index < ChunkCount(|file|, CHUNK_SIZE) && Good(f)
              && |file| > 0
    ensures var body := BodyOf(f, PageSlice(file, CHUNK_SIZE, index));
            Received(AfterWrite(d, name, index, body), Sanitize(name), index) && WriteReply(d, name, index, body).Told?
  {
    hide OneIdentity, SumsOk, Sanitize, Sha256Hex, HashOk, DataOk, AfterWrite;
    var body := BodyOf(f, PageSlice(file, CHUNK_SIZE, index));
    PageSliceIsStretch(file, CHUNK_SIZE, index);
    SliceFits(file, index);
    WriteOnlyAdds(lim, d, Write(name, index, body), Sanitize(name));
    assert After(lim, d, Write(name, index, body)) == AfterWrite(d, name, index, body);
  }

  /** One pass over the chunks the server misses. */
  method SendMissing(store: Store, name: string, missing: seq<nat>, file: seq<byte>, net: nat -> Fate, at: nat)
    returns (sent: bool, next: nat, ghost rs: seq<Request>)
    requires store.Valid() && Target(store.State(), Sanitize(name), file) && |file| > 0
    requires forall i :: i in missing ==> i < ChunkCount(|file|, CHUNK_SIZE)
    modifies store`sessions
    ensures store.Valid() && store.State() == Run(store.lim, old(store.State()), rs) && AllSends(rs, name, file)
    ensures next >= at
    ensures Steady(net) ==>
              && sent
              && ((forall i :: i in missing ==> Received(store.State(), Sanitize(name), i))
                  || Silences(net, next) > Silences(net, at))
  {
    hide StoreOk, Run, Sanitize, PageSlice, ChunkCount, Target, Sha256Hex, Received, Steady, Grew, Faithful, Sends,
        Silences;
    ghost var d := store.State();
    RunNothing(store.lim, d);
    next, rs := at, [];
    var k := 0;
    while k < |missing|
      invariant k <= |missing|
      invariant store.Valid() && store.State() == Run(store.lim, d, rs) && AllSends(rs, name, file)
      invariant Target(store.State(), Sanitize(name), file)
      invariant next >= at && Silences(net, next) >= Silences(net, at)
      invariant Steady(net) ==>
                  || (forall j :: 0 <= j < k ==> Received(store.State(), Sanitize(name), missing[j]))
                  || Silences(net, next) > Silences(net, at)
    {
      ghost var before := store.State();
      var index := missing[k];
      assert index in missing;
      ghost var ws;
      ghost var from := next;
      sent, next, ws := PutChunk(store, name, index, PageSlice(file, CHUNK_SIZE, index), net, next, file);
      RunConcat(store.lim, d, rs, ws);
      rs := rs + ws;
      SendsKeep(store.lim, before, ws, name, file);
      StaysReceived(before, store.State(), Sanitize(name), file);
      SilencesGrow(net, from, next);
      if !sent {
        return;
      }
      k := k + 1;
    }
    sent := true;
  }

  lemma StaysReceived(d: Disk, d': Disk, dir: string, file: seq<byte>)
    requires Target(d, dir, file) && Grew(d.sessions[dir].m, d', dir)
    ensures forall i :: Received(d, dir, i) ==> Received(d', dir, i)
  {
  }

  ghost predicate AllThere(d: Disk, dir: string) {
    dir in d.sessions && d.sessions[dir].m.AllReceived()
  }

  lemma NothingMissing(d: Disk, dir: string)
    requires dir in d.sessions && |d.sessions[dir].m.received| == d.sessions[dir].m.Total()
    requires ViewOf(d.sessions[dir].m).missing == []
    ensures AllThere(d, dir)
  {
    hide ChunkCount;
    var m := d.sessions[dir].m;
    forall i | 0 <= i < |m.received| ensures m.received[i] {
      assert i !in ViewOf(m).missing;
    }
  }

  /** A pass that gives the server every chunk it missed leaves none missing. */
  lemma PassCompletes(d: Disk, d': Disk, dir: string)
    requires dir in d.sessions && |d.sessions[dir].m.received| == d.sessions[dir].m.Total()
              && Grew(d.sessions[dir].m, d', dir)
    requires forall i :: i in ViewOf(d.sessions[dir].m).missing ==> Received(d', dir, i)
    ensures AllThere(d', dir)
  {
    hide ChunkCount;
    var m := d'.sessions[dir].m;
    forall i | 0 <= i < |m.received| ensures m.received[i] {
      if !d.sessions[dir].m.received[i] {
        assert i in ViewOf(d.sessions[dir].m).missing;
        assert Received(d', dir, i);
      }
    }
  }

  lemma FairBounds(net: nat -> Fate, n: nat)
    requires Fair(net)
    ensures Steady(net) && Silences(net, n) < MAX_PASSES
  {
  }

  /** After a pass everything is there, unless a request of it failed in silence. */
  lemma AfterPass(net: nat -> Fate, d: Disk, d': Disk, dir: string, from: nat, at: nat)
    requires dir in d.sessions && |d.sessions[dir].m.received| == d.sessions[dir].m.Total()
              && Grew(d.sessions[dir].m, d', dir)
    requires (forall i :: i in ViewOf(d.sessions[dir].m).missing ==> Received(d', dir, i))
              || Silences(net, at) > Silences(net, from)
    ensures AllThere(d', dir) || (!AllThere(d, dir) && Silences(net, at) > Silences(net, from))
  {
    hide ViewOf, Grew, Received, AllThere, ChunkCount, Silences;
    if AllThere(d, dir) {
      StaysThere(d, d', dir);
    } else if forall i :: i in ViewOf(d.sessions[dir].m).missing ==> Received(d', dir, i) {
      PassCompletes(d, d', dir);
    }
  }

  lemma StaysThere(d: Disk, d': Disk, dir: string)
    requires AllThere(d, dir) && Grew(d.sessions[dir].m, d', dir)
    ensures AllThere(d', dir)
  {
  }

  lemma StatusTold(d: Disk, name: string, file: seq<byte>)
    requires DiskOk(d) && Target(d, Sanitize(name), file)
    ensures Sanitize(name) in d.sessions
    ensures var m := d.sessions[Sanitize(name)].m;
            |m.received| == m.Total() && StatusReply(d, name) == Told(ViewOf(m)) && !ViewOf(m).complete
    ensures forall i :: i in ViewOf(d.sessions[Sanitize(name)].m).missing ==> i < ChunkCount(|file|, CHUNK_SIZE)
  {
    hide SessionOk, Sanitize, ChunkCount, Sha256Hex;
    SessionShape(d, Sanitize(name));
  }

  /** The passes, and the completion. */
  method SendAll(store: Store, name: string, first: View, file: seq<byte>, calls: nat -> Call, net: nat -> Fate)
    returns (done: bool)
    requires store.Valid() && Target(store.State(), Sanitize(name), file) && |file| > 0
    requires Told(first) == StatusReply(store.State(), name)
    modifies store
    ensures store.Valid() && Keeps(old(store.State()), store.State())
    ensures done ==> Sanitize(name) in store.archives && Sha256Hex(store.archives[Sanitize(name)]) == Sha256Hex(file)
    ensures Faithful(old(store.State()), Sanitize(name), file, CHUNK_SIZE) && done ==>
              store.archives[Sanitize(name)] == file
    ensures Faithful(old(store.State()), Sanitize(name), file, CHUNK_SIZE) && AllAnswered(calls) && Fair(net) ==> done
  {
    hide DiskOk, Apart, AfterComplete, CompleteReply, Run, Sanitize, StatusReply, Verdict;
    hide PageSlice, ChunkCount, Target, Sha256Hex, Received, Fair, Grew, Faithful, Sends, Keeps, ViewOf, AllThere,
        Silences;
    ghost var d := store.State();
    ghost var dir, faithful := Sanitize(name), Faithful(d, Sanitize(name), file, CHUNK_SIZE);
    KeepsItself(d);
    StatusTold(d, name, file);
    var pass, at, call := 0, 0, 1;
    while pass < MAX_PASSES
      invariant store.Valid() && Target(store.State(), dir, file) && Keeps(d, store.State())
      invariant pass == 0 ==> store.State() == d
      invariant faithful ==> Faithful(store.State(), dir, file, CHUNK_SIZE)
      invariant pass <= MAX_PASSES
      invariant Fair(net) ==> AllThere(store.State(), dir) || Silences(net, at) >= pass
    {
      var view := first;
      ghost var before := store.State();
      StatusTold(before, name, file);
      if pass > 0 {
        var c := calls(call);
        call := call + 1;
        var reply := Refused(NotFound);
        if c.reaches {
          reply := store.Status(name);
        }
        if !c.reaches || !c.answered || reply.Refused? {
          return false;
        }
        view := reply.view;
      }
      if view.complete {
        break;
      }
      if view.missing == [] {
        NothingMissing(before, dir);
        break;
      }
      var sent; ghost var rs;
      ghost var from := at;
      sent, at, rs := SendMissing(store, name, view.missing, file, net, at);
      SendsKeep(store.lim, before, rs, name, file);
      KeepsTransitive(d, before, store.State());
      if Fair(net) {
        FairBounds(net, at);
      }
      if !sent {
        return false;
      }
      if Fair(net) {
        AfterPass(net, before, store.State(), dir, from, at);
      }
      pass := pass + 1;
    }
    if Fair(net) {
      FairBounds(net, at);
    }
    var c := calls(call);
    ghost var before := store.State();
    if !c.reaches {
      return false;
    }
    EndTold(store.lim, before, name, file);
    var ended := store.Complete(name);
    KeepsTransitive(d, before, store.State());
    if Fair(net) {
      AllThereIs(before, dir);
    }
    return c.answered && ended.InPlace?;
  }

  /** Completing an upload that has ended gives its archive again. */
  lemma NothingToComplete(d: Disk, name: string)
    requires Sanitize(name) !in d.sessions && Sanitize(name) in d.archives
    ensures AfterComplete(d, name) == d && CompleteReply(d, name) == InPlace(Sanitize(name))
  {
    hide Sanitize;
  }

  lemma AllThereIs(d: Disk, dir: string)
    requires AllThere(d, dir)
    ensures dir in d.sessions && d.sessions[dir].m.AllReceived()
  {
  }

  lemma KeepsItself(d: Disk)
    ensures Keeps(d, d)
  {
  }

  /** The whole upload. Whatever the store held and whatever the connection does,
      a success leaves an archive with the file's SHA-256; and where nothing was
      received before, or only parts of this file, the file itself, byte for byte,
      in the session it was sent to before. Over a fair connection such an upload
      within the limits succeeds, new or resumed. */
  method Upload(store: Store, name: string, file: seq<byte>, calls: nat -> Call, net: nat -> Fate)
    returns (done: bool, ghost dir: string)
    requires store.Valid() && NameFree(store.lim, store.State(), Announced(name, file)) && |file| + 128 <= MAX_SAFE
    modifies store
    ensures store.Valid() && Keeps(old(store.State()), store.State())
    ensures done ==> dir in store.archives && Sha256Hex(store.archives[dir]) == Sha256Hex(file)
    ensures done && Ours(old(store.State()), name, file) ==>
              GoesOnIn(old(store.State()), name, file, dir) && store.archives[dir] == file
    ensures Ours(old(store.State()), name, file) && Acceptable(store.lim, |file|, CHUNK_SIZE)
              && AllAnswered(calls) && Fair(net) ==>
              done
  {
    hide DiskOk, Apart, NameFree, BeginAnswers, AfterBegin, AfterComplete, CompleteReply, Run, Sanitize, Known,
        AnsweredByName, UploadName;
    hide Ours, GoesOnIn, PageSlice, ChunkCount, Target, Sha256Hex, Received, Fair, Grew, Faithful, Sends, Keeps;
    ghost var d0, lim := store.State(), store.lim;
    dir := "";
    KeepsItself(d0);
    var hash := HashFile(file);
    if !calls(0).reaches {
      return false, dir;
    }
    StepKeeps(lim, d0, Announced(name, file));
    var reply := store.Begin(name, |file|, CHUNK_SIZE, hash);
    BeginWithinBounds(lim, d0, name, file, reply);
    if !calls(0).answered || reply.Refused? {
      return false, dir;
    }
    var view := reply.view;
    BeginTold(lim, d0, name, file, view);
    ghost var ours, d1 := Ours(d0, name, file), store.State();
    if ours {
      OursBegins(lim, d0, name, file, view);
    }
    dir := Sanitize(view.name);
    if view.complete {
      if !calls(1).reaches {
        return false, dir;
      }
      var ended := store.Complete(view.name);
      NothingToComplete(d1, view.name);
      return calls(1).answered && ended.InPlace?, dir;
    }
    StatusTold(d1, view.name, file);
    done := SendAll(store, view.name, view, file, calls, net);
    KeepsTransitive(d0, d1, store.State());
  }
}
