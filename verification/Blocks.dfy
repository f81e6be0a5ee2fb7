/** Messages consumed in blocks of 64 bytes by an iterated step, and the same
    consumption piece by piece. Nothing here depends on what the step does. */
module Blocks {
  import opened Words

  type Block = b: seq<byte> | |b| == 64 witness seq(64, _ => 0)

  /** Step over every whole block of data, in order, from v. */
  function Fold<S>(step: (S, Block) -> S, v: S, data: seq<byte>): S
    decreases |data|
  {
    if |data| < 64 then v else Fold(step, step(v, data[..64]), data[64..])
  }

  lemma {:induction false} FoldConcat<S>(step: (S, Block) -> S, v: S, a: seq<byte>, b: seq<byte>)
    requires |a| % 64 == 0
    ensures Fold(step, v, a + b) == Fold(step, Fold(step, v, a), b)
    decreases |a|
  {
    if |a| < 64 {
      assert a + b == b;
    } else {
      assert (a + b)[..64] == a[..64];
      assert (a + b)[64..] == a[64..] + b;
      FoldConcat(step, step(v, a[..64]), a[64..], b);
    }
  }

  lemma FoldNone<S>(step: (S, Block) -> S, v: S)
    ensures Fold(step, v, []) == v
  {
  }

  lemma FoldFirst<S>(step: (S, Block) -> S, v: S, data: seq<byte>)
    requires |data| == 64
    ensures Fold(step, v, data) == step(v, data)
  {
    assert data[..64] == data;
  }

  lemma FoldOneMore<S>(step: (S, Block) -> S, v: S, data: seq<byte>, n: nat)
    requires n % 64 == 0 && n + 64 <= |data|
    ensures (n + 64) % 64 == 0
    ensures Fold(step, v, data[..n + 64]) == step(Fold(step, v, data[..n]), data[n..n + 64])
  {
    assert data[..n + 64] == data[..n] + data[n..n + 64];
    FoldConcat(step, v, data[..n], data[n..n + 64]);
    FoldFirst(step, Fold(step, v, data[..n]), data[n..n + 64]);
  }

  /** What is kept between two pieces: the step applied to the whole blocks so
      far, the bytes that do not fill a block yet, and how many bytes there
      have been. */
  datatype Running<S> = Running(state: S, tail: seq<byte>, length: nat) {
    predicate Valid() { |tail| == length % 64 }
  }

  /** The bytes of n that fill whole blocks. */
  function Whole(n: nat): (m: nat)
    ensures m <= n < m + 64 && m % 64 == 0
  {
    n - n % 64
  }

  lemma WholeIsUnique(n: nat, m: nat)
    requires m % 64 == 0 && m <= n < m + 64
    ensures Whole(n) == m && n % 64 == n - m
  {
  }

  lemma WholeOfSum(m: nat, n: nat)
    requires m % 64 == 0
    ensures Whole(m + n) == m + Whole(n) && (m + n) % 64 == n % 64
  {
  }

  /** How many bytes are left over after more of them have come. */
  lemma NextTail(length: nat, tail: nat, more: nat, n: nat)
    requires tail == length % 64 && n % 64 == 0 && n <= tail + more < n + 64
    ensures (length + more) % 64 == tail + more - n
  {
    WholeOfSum(Whole(length), tail + more);
    WholeIsUnique(tail + more, n);
  }

  /** What is kept after exactly this message. */
  function RunningOf<S>(step: (S, Block) -> S, v: S, message: seq<byte>): (r: Running<S>)
    ensures r.Valid()
  {
    var n := Whole(|message|);
    Running(Fold(step, v, message[..n]), message[n..], |message|)
  }

  /** What is kept after one more piece, from what was kept before alone. */
  function Feed<S>(step: (S, Block) -> S, r: Running<S>, data: seq<byte>): Running<S> {
    var pending := r.tail + data;
    var n := Whole(|pending|);
    Running(Fold(step, r.state, pending[..n]), pending[n..], r.length + |data|)
  }

  /** The piece cut where the last whole block ends. */
  lemma FeedCutAt<S>(step: (S, Block) -> S, r: Running<S>, data: seq<byte>, n: nat)
    requires n % 64 == 0 && n <= |r.tail + data| < n + 64
    ensures var pending := r.tail + data;
            Feed(step, r, data) == Running(Fold(step, r.state, pending[..n]), pending[n..], r.length + |data|)
  {
    WholeIsUnique(|r.tail + data|, n);
  }

  /** Consuming one more piece is consuming the longer message. */
  lemma FeedExtends<S>(step: (S, Block) -> S, v: S, message: seq<byte>, data: seq<byte>)
    ensures Feed(step, RunningOf(step, v, message), data) == RunningOf(step, v, message + data)
  {
    hide Whole, Fold;
    var m, all := Whole(|message|), message + data;
    var pending := message[m..] + data;
    var n := Whole(|pending|);
    WholeOfSum(m, |pending|);
    assert all[..m + n] == message[..m] + pending[..n];
    assert all[m + n..] == pending[n..];
    FoldConcat(step, v, message[..m], pending[..n]);
  }

  function Concat(pieces: seq<seq<byte>>): seq<byte> {
    if pieces == [] then [] else Concat(pieces[..|pieces| - 1]) + pieces[|pieces| - 1]
  }

  function FeedAll<S>(step: (S, Block) -> S, r: Running<S>, pieces: seq<seq<byte>>): Running<S> {
    if pieces == [] then r else Feed(step, FeedAll(step, r, pieces[..|pieces| - 1]), pieces[|pieces| - 1])
  }

  /** However a message is cut into pieces, what is kept is the same. */
  lemma {:induction false} AnyCut<S>(step: (S, Block) -> S, v: S, pieces: seq<seq<byte>>)
    ensures FeedAll(step, Running(v, [], 0), pieces) == RunningOf(step, v, Concat(pieces))
  {
    if pieces != [] {
      AnyCut(step, v, pieces[..|pieces| - 1]);
      FeedExtends(step, v, Concat(pieces[..|pieces| - 1]), pieces[|pieces| - 1]);
    }
  }
}
