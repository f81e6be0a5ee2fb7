/** How a file is cut into chunks, by the server and by the page. */
module Chunks {

  /** Where chunk i starts, and where the one before it ends. */
  function Cut(size: nat, chunkSize: nat, i: nat): nat {
    if i * chunkSize < size then i * chunkSize else size
  }

  function ChunkCount(size: nat, chunkSize: nat): nat {
    if chunkSize == 0 then 0
    else
      var n := (size + chunkSize - 1) / chunkSize;
      if n == 0 then 1 else n
  }

  function ExpectedChunkSize(size: nat, chunkSize: nat, index: nat): nat
    requires chunkSize > 0
  {
    if index < ChunkCount(size, chunkSize) - 1 then chunkSize
    else if size % chunkSize != 0 then size % chunkSize
    else chunkSize
  }

  lemma CountBounds(size: nat, chunkSize: nat)
    requires size > 0 && chunkSize > 0
    ensures var n := ChunkCount(size, chunkSize); n > 0 && (n - 1) * chunkSize < size <= n * chunkSize
  {
    var a := size + chunkSize - 1;
    var n := a / chunkSize;
    assert a == n * chunkSize + a % chunkSize;
    assert (n - 1) * chunkSize == n * chunkSize - chunkSize;
  }

  lemma ProductMonotone(i: nat, j: nat, c: nat)
    requires i <= j
    ensures i * c <= j * c
  {
  }

  /** A chunk is the stretch between two cuts, whether it is described by the
      server's offset and expected size or by the page's slice. */
  lemma ChunkIsStretch(size: nat, chunkSize: nat, i: nat)
    requires size > 0 && chunkSize > 0 && i < ChunkCount(size, chunkSize)
    ensures i * chunkSize == Cut(size, chunkSize, i) < Cut(size, chunkSize, i + 1)
    ensures i * chunkSize + ExpectedChunkSize(size, chunkSize, i) == Cut(size, chunkSize, i + 1)
    ensures Cut(size, chunkSize, i + 1) ==
              (if i * chunkSize + chunkSize < size then i * chunkSize + chunkSize else size)
    ensures 0 < ExpectedChunkSize(size, chunkSize, i) <= chunkSize
  {
    CountBounds(size, chunkSize);
    var n := ChunkCount(size, chunkSize);
    ProductMonotone(i, n - 1, chunkSize);
    assert (i + 1) * chunkSize == i * chunkSize + chunkSize;
    if i < n - 1 {
      ProductMonotone(i + 1, n - 1, chunkSize);
    } else {
      LastChunk(size, chunkSize, i);
    }
  }

  lemma LastChunk(size: nat, chunkSize: nat, i: nat)
    requires chunkSize > 0 && i * chunkSize < size <= (i + 1) * chunkSize
    ensures size - i * chunkSize == if size % chunkSize != 0 then size % chunkSize else chunkSize
  {
    var q, r := size / chunkSize, size % chunkSize;
    assert size == q * chunkSize + r;
    assert (i + 1) * chunkSize == i * chunkSize + chunkSize;
    assert (q + 1) * chunkSize == q * chunkSize + chunkSize;
    assert (i + 2) * chunkSize == i * chunkSize + 2 * chunkSize;
    if q < i {
      ProductMonotone(q + 1, i, chunkSize);
    }
    if q > i + 1 {
      ProductMonotone(i + 2, q, chunkSize);
    }
  }

  lemma CutEnds(size: nat, chunkSize: nat)
    requires size > 0 && chunkSize > 0
    ensures Cut(size, chunkSize, 0) == 0 && Cut(size, chunkSize, ChunkCount(size, chunkSize)) == size
  {
    CountBounds(size, chunkSize);
  }

  lemma CutMonotone(size: nat, chunkSize: nat, i: nat, j: nat)
    requires i <= j
    ensures Cut(size, chunkSize, i) <= Cut(size, chunkSize, j) <= size
  {
    ProductMonotone(i, j, chunkSize);
  }

  predicate InChunk(size: nat, chunkSize: nat, i: nat, p: nat) {
    Cut(size, chunkSize, i) <= p < Cut(size, chunkSize, i + 1)
  }

  /** The chunks partition the file: every byte lies in exactly one. */
  lemma ChunksPartition(size: nat, chunkSize: nat, p: nat)
    requires chunkSize > 0 && p < size
    ensures exists i :: 0 <= i < ChunkCount(size, chunkSize) && InChunk(size, chunkSize, i, p)
    ensures forall i, j :: 0 <= i && 0 <= j && InChunk(size, chunkSize, i, p) && InChunk(size, chunkSize, j, p) ==>
              i == j
  {
    var i, n := p / chunkSize, ChunkCount(size, chunkSize);
    assert p == i * chunkSize + p % chunkSize;
    assert (i + 1) * chunkSize == i * chunkSize + chunkSize;
    CountBounds(size, chunkSize);
    if i >= n {
      ProductMonotone(n, i, chunkSize);
    }
    assert InChunk(size, chunkSize, i, p);
    forall j, k | 0 <= j && 0 <= k && InChunk(size, chunkSize, j, p) && InChunk(size, chunkSize, k, p) ensures j == k {
      if j < k {
        CutMonotone(size, chunkSize, j + 1, k);
      } else if k < j {
        CutMonotone(size, chunkSize, k + 1, j);
      }
    }
  }
}
