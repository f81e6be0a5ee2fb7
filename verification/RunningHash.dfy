/** A SHA-256 computed piece by piece. */
module RunningHash {
  import opened Words
  import opened Blocks
  import opened Fips180

  type RunningSha = Running<Eight>

  const EMPTY: RunningSha := Running(H0, [], 0)

  /** The running hash that has consumed exactly this message. */
  function ShaOf(message: seq<byte>): (r: RunningSha) {
    RunningOf(Compress, H0, message)
  }

  function FeedSha(r: RunningSha, data: seq<byte>): RunningSha {
    Feed(Compress, r, data)
  }

  /** The digest of everything consumed, from what is kept alone. */
  function Finish(r: RunningSha): Eight {
    Fold(Compress, r.state, r.tail + Padding(r.length))
  }

  /** Finishing gives the digest of the message consumed. */
  lemma FinishIsDigest(message: seq<byte>)
    ensures Finish(ShaOf(message)) == Digest(message)
  {
    var m := Whole(|message|);
    var last := message[m..] + Padding(|message|);
    assert message + Padding(|message|) == message[..m] + last;
    FoldConcat(Compress, H0, message[..m], last);
  }

  /** Every way of cutting a message into pieces gives its digest. */
  lemma AnyCutGivesDigest(pieces: seq<seq<byte>>)
    ensures FeedAll(Compress, EMPTY, pieces) == ShaOf(Concat(pieces))
    ensures Finish(ShaOf(Concat(pieces))) == Digest(Concat(pieces))
  {
    AnyCut(Compress, H0, pieces);
    FinishIsDigest(Concat(pieces));
  }
}
