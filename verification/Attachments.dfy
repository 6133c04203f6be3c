/** Attachments: a file sealed in chunks, each bound to its attachment, its
    place and whether it is the last one. */
module Attachments {
  import opened Wrappers
  import opened Text
  import opened Crypto
  import Aad

  /** 1 MiB of plaintext a chunk. */
  const CHUNK: nat := 0x10_0000

  /** The largest file whose chunks a u32 can number: (2^32 - 1) MiB. */
  const LIMIT: nat := 0xF_FFFF_FFF0_0000

  /** Where chunk `i` starts. */
  function Offset(i: nat): nat { i * 0x10_0000 }

  function AsU32(n: nat): (r: nat)
    ensures r < 0x1_0000_0000
    ensures n < 0x1_0000_0000 ==> r == n
  {
    n % 0x1_0000_0000
  }

  /** The chunks a file takes, one at least; the count is cut to 32 bits. */
  function ChunkCount(size: nat): (n: nat)
    ensures n < 0x1_0000_0000
    ensures size <= LIMIT ==> n > 0 && Offset(n - 1) <= size <= Offset(n)
    ensures size > LIMIT ==> Offset(n) < size
  {
    var n := (size + 0xF_FFFF) / 0x10_0000;
    AsU32(if n < 1 then 1 else n)
  }

  function SealedSize(size: nat): nat { size + ChunkCount(size) * 41 }

  function AadOf(id: string, index: nat, last: bool): string { Aad.Of(Aad.Attachment(id, index, last)) }

  /** The plaintext of chunk `i` of `data`. */
  function Slice(data: seq<byte>, i: nat): (s: seq<byte>)
    requires Offset(i) <= |data|
    ensures |s| <= CHUNK
  {
    data[Offset(i)..Min(Offset(i + 1), |data|)]
  }

  function SealChunk(key: Key, id: string, index: nat, last: bool, plain: seq<byte>, nonce: nat): (c: Blob)
    ensures Size(c) == |plain| + OVERHEAD
  {
    Seal(key, Bytes(plain), AadOf(id, index, last), nonce)
  }

  function SealAttachment(key: Key, id: string, data: seq<byte>, nonce: nat -> nat): (chunks: seq<Blob>)
    ensures |chunks| == ChunkCount(|data|)
    ensures forall i :: 0 <= i < |chunks| ==>
                          Offset(i) <= |data|
                          && chunks[i] == SealChunk(key, id, i, i + 1 == |chunks|, Slice(data, i), nonce(i))
  {
    var count := ChunkCount(|data|);
    seq(count, i requires 0 <= i < count => SealChunk(key, id, i, i + 1 == count, Slice(data, i), nonce(i)))
  }

  /** One chunk opened in its place. */
  function OpenChunk(key: Key, id: string, index: nat, last: bool, blob: Blob): Result<seq<byte>, CryptoError> {
    var r := Open(key, blob, AadOf(id, index, last));
    if r.Err? then Err(r.error)
    else if r.value.Bytes? then Ok(r.value.data)
    else Err(Format)
  }

  /** The first `n` chunks opened and joined, in a file of `|chunks|`. */
  function OpenFirst(key: Key, id: string, chunks: seq<Blob>, n: nat): Result<seq<byte>, CryptoError>
    requires n <= |chunks|
  {
    if n == 0 then Ok([])
    else
      var before := OpenFirst(key, id, chunks, n - 1);
      if before.Err? then before
      else
        var c := OpenChunk(key, id, AsU32(n - 1), n == |chunks|, chunks[n - 1]);
        if c.Err? then c else Ok(before.value + c.value)
  }

  method OpenAttachment(key: Key, id: string, chunks: seq<Blob>) returns (r: Result<seq<byte>, CryptoError>)
    ensures chunks == [] ==> r == Err(Format)
    ensures chunks != [] ==> r == OpenFirst(key, id, chunks, |chunks|)
  {
    if chunks == [] {
      return Err(Format);
    }
    var out: seq<byte> := [];
    for i := 0 to |chunks|
      invariant OpenFirst(key, id, chunks, i) == Ok(out)
    {
      var c := OpenChunk(key, id, AsU32(i), i + 1 == |chunks|, chunks[i]);
      if c.Err? {
        FirstError(key, id, chunks, i + 1);
        return Err(c.error);
      }
      out := out + c.value;
    }
    return Ok(out);
  }

  lemma {:induction false} FirstError(key: Key, id: string, chunks: seq<Blob>, n: nat)
    requires n <= |chunks| && OpenFirst(key, id, chunks, n).Err?
    ensures OpenFirst(key, id, chunks, |chunks|) == OpenFirst(key, id, chunks, n)
    decreases |chunks| - n
  {
    if n < |chunks| {
      FirstError(key, id, chunks, n + 1);
    }
  }

  /** What `open_attachment` answers, as a function. */
  function Opened(key: Key, id: string, chunks: seq<Blob>): Result<seq<byte>, CryptoError> {
    if chunks == [] then Err(Format) else OpenFirst(key, id, chunks, |chunks|)
  }

  function Min(a: nat, b: nat): nat { if a < b then a else b }

  // ---- theorems --------------------------------------------------------------------

  lemma OpensSealed(key: Key, id: string, index: nat, last: bool, plain: seq<byte>, nonce: nat)
    ensures OpenChunk(key, id, index, last, SealChunk(key, id, index, last, plain, nonce)) == Ok(plain)
  {}

  function Upto(data: seq<byte>, i: nat): nat { Min(Offset(i), |data|) }

  lemma SliceExtends(data: seq<byte>, i: nat)
    requires Offset(i) <= |data|
    ensures data[..Upto(data, i)] + Slice(data, i) == data[..Upto(data, i + 1)]
    ensures |Slice(data, i)| == Upto(data, i + 1) - Upto(data, i)
  {}

  lemma {:induction false} OpensPrefix(key: Key, id: string, data: seq<byte>, chunks: seq<Blob>, n: nat)
    requires n <= |chunks| < 0x1_0000_0000
    requires forall i :: 0 <= i < |chunks| ==>
                           Offset(i) <= |data| && OpenChunk(key, id, i, i + 1 == |chunks|, chunks[i]) == Ok(Slice(data, i))
    ensures OpenFirst(key, id, chunks, n) == Ok(data[..Upto(data, n)])
  {
    if n > 0 {
      OpensPrefix(key, id, data, chunks, n - 1);
      SliceExtends(data, n - 1);
    }
  }

  /** A file comes back from its chunks exactly when a u32 can number them. */
  lemma RoundTrip(key: Key, id: string, data: seq<byte>, nonce: nat -> nat)
    ensures Opened(key, id, SealAttachment(key, id, data, nonce)) == Ok(data) <==> |data| <= LIMIT
  {
    var chunks := SealAttachment(key, id, data, nonce);
    forall i | 0 <= i < |chunks|
      ensures OpenChunk(key, id, i, i + 1 == |chunks|, chunks[i]) == Ok(Slice(data, i))
    {
      OpensSealed(key, id, i, i + 1 == |chunks|, Slice(data, i), nonce(i));
    }
    OpensPrefix(key, id, data, chunks, |chunks|);
    var m := Upto(data, |chunks|);
    if |data| <= LIMIT {
      assert m == |data| && data[..m] == data;
    } else {
      assert |data[..m]| < |data|;
    }
  }

  function TotalSize(chunks: seq<Blob>): nat {
    if chunks == [] then 0 else TotalSize(chunks[..|chunks| - 1]) + Size(chunks[|chunks| - 1])
  }

  lemma {:induction false} SizeOfPrefix(data: seq<byte>, chunks: seq<Blob>, n: nat)
    requires n <= |chunks|
    requires forall i :: 0 <= i < |chunks| ==> Offset(i) <= |data| && Size(chunks[i]) == |Slice(data, i)| + OVERHEAD
    ensures TotalSize(chunks[..n]) == Upto(data, n) + n * 41
  {
    if n > 0 {
      SizeOfPrefix(data, chunks, n - 1);
      assert chunks[..n][..n - 1] == chunks[..n - 1];
      SliceExtends(data, n - 1);
    }
  }

  /** What the server stores is what it was told to expect. */
  lemma TotalIsSealedSize(key: Key, id: string, data: seq<byte>, nonce: nat -> nat)
    requires |data| <= LIMIT
    ensures TotalSize(SealAttachment(key, id, data, nonce)) == SealedSize(|data|)
  {
    var chunks := SealAttachment(key, id, data, nonce);
    SizeOfPrefix(data, chunks, |chunks|);
    assert chunks[..|chunks|] == chunks;
  }

  /** Several files sealed under one key, by attachment id. */
  ghost predicate FromPool(key: Key, pool: map<string, seq<byte>>, nonces: string -> nat -> nat, blob: Blob) {
    exists id :: id in pool && NulFree(id) && |pool[id]| <= LIMIT && blob in SealAttachment(key, id, pool[id], nonces(id))
  }

  /** Whatever sequence is drawn from the sealed chunks of any files, it opens
      under an id only if it is that file, whole and in order. */
  lemma OnlyWholeFilesOpen(key: Key, pool: map<string, seq<byte>>, nonces: string -> nat -> nat, id: string, chunks: seq<Blob>)
    requires NulFree(id)
    requires forall i :: 0 <= i < |chunks| ==> FromPool(key, pool, nonces, chunks[i])
    requires Opened(key, id, chunks).Ok?
    ensures id in pool && chunks == SealAttachment(key, id, pool[id], nonces(id))
    ensures Opened(key, id, chunks) == Ok(pool[id])
  {
    ChunkInPlace(key, pool, nonces, id, chunks, 0);
    var whole := SealAttachment(key, id, pool[id], nonces(id));
    forall i | 0 <= i < |chunks|
      ensures AsU32(i) < |whole| && chunks[i] == whole[AsU32(i)] && (i + 1 == |chunks| <==> AsU32(i) + 1 == |whole|)
    {
      ChunkInPlace(key, pool, nonces, id, chunks, i);
    }
    AllInPlace(chunks, whole);
    RoundTrip(key, id, pool[id], nonces(id));
  }

  /** Chunks each in their place, the last of them last: the same chunks. */
  lemma AllInPlace(chunks: seq<Blob>, whole: seq<Blob>)
    requires chunks != [] && |whole| <= 0xFFFF_FFFF
    requires forall i :: 0 <= i < |chunks| ==>
               AsU32(i) < |whole| && chunks[i] == whole[AsU32(i)] && (i + 1 == |chunks| <==> AsU32(i) + 1 == |whole|)
    ensures chunks == whole
  {
    assert AsU32(0) < |whole|;
    var n := |whole|;
    assert AsU32(n - 1) == n - 1;
    assert |chunks| <= n;
    assert AsU32(|chunks| - 1) + 1 == n;
    assert forall i :: 0 <= i < |chunks| ==> AsU32(i) == i;
  }

  /** The chunk that opens at position `i` is chunk `i` of that very file, and
      the last of it exactly when it is the last here. */
  lemma ChunkInPlace(key: Key, pool: map<string, seq<byte>>, nonces: string -> nat -> nat, id: string,
                     chunks: seq<Blob>, i: nat)
    requires NulFree(id) && i < |chunks|
    requires FromPool(key, pool, nonces, chunks[i])
    requires Opened(key, id, chunks).Ok?
    ensures id in pool && |pool[id]| <= LIMIT
    ensures var whole := SealAttachment(key, id, pool[id], nonces(id));
            && AsU32(i) < |whole|
            && chunks[i] == whole[AsU32(i)]
            && (i + 1 == |chunks| <==> AsU32(i) + 1 == |whole|)
  {
    OpensAt(key, id, chunks, i);
    var other :| other in pool && NulFree(other) && |pool[other]| <= LIMIT
                 && chunks[i] in SealAttachment(key, other, pool[other], nonces(other));
    var whole := SealAttachment(key, other, pool[other], nonces(other));
    var j :| 0 <= j < |whole| && whole[j] == chunks[i];
    OpensOnlyInPlace(key, id, AsU32(i), i + 1 == |chunks|, other, j, j + 1 == |whole|, Slice(pool[other], j), nonces(other)(j));
  }

  lemma OpensOnlyInPlace(key: Key, id: string, index: nat, last: bool,
                         id': string, index': nat, last': bool, plain: seq<byte>, nonce: nat)
    requires NulFree(id) && NulFree(id')
    requires OpenChunk(key, id, index, last, SealChunk(key, id', index', last', plain, nonce)).Ok?
    ensures id == id' && index == index' && last == last'
  {
    Aad.Separation(Aad.Attachment(id, index, last), Aad.Attachment(id', index', last'));
  }

  lemma {:induction false} OpensAt(key: Key, id: string, chunks: seq<Blob>, i: nat)
    requires i < |chunks| && Opened(key, id, chunks).Ok?
    ensures OpenChunk(key, id, AsU32(i), i + 1 == |chunks|, chunks[i]).Ok?
  {
    if OpenFirst(key, id, chunks, i + 1).Err? {
      FirstError(key, id, chunks, i + 1);
    }
  }

  lemma CountInFigures(size: nat)
    requires size <= 0xF_FFFF_FFF0_0000
    ensures var n := ChunkCount(size); if size == 0 then n == 1 else (n - 1) * 1048576 < size <= n * 1048576
  {}

  /** Every chunk but the last holds 1 MiB, the last holds the rest. */
  lemma SliceInFigures(data: seq<byte>, i: nat)
    requires |data| <= 0xF_FFFF_FFF0_0000 && i < ChunkCount(|data|)
    ensures i * 1048576 <= |data| && (i + 1 < ChunkCount(|data|) ==> (i + 1) * 1048576 <= |data|)
    ensures Slice(data, i) == if i + 1 == ChunkCount(|data|) then data[i * 1048576..] else data[i * 1048576..(i + 1) * 1048576]
  {
    CountInFigures(|data|);
  }

  lemma AadInFigures(id: string, index: nat, last: bool)
    ensures AadOf(id, index, last) == "guivault/v1/attachment\0" + id + "\0" + Decimal(index) + "\0" + (if last then "1" else "0")
  {}

  /** The chunks in figures: 1 MiB each, but the last, which is never empty
      unless the file is; each sealed under the attachment, its place and
      whether it is the last one. */
  lemma SealedInFigures(key: Key, id: string, data: seq<byte>, nonce: nat -> nat, i: nat)
    requires |data| <= 0xF_FFFF_FFF0_0000
    ensures var n := |SealAttachment(key, id, data, nonce)|;
            && (if data == [] then n == 1 else (n - 1) * 1048576 < |data| <= n * 1048576)
            && (i < n ==>
                  && i * 1048576 <= |data| && (i + 1 < n ==> (i + 1) * 1048576 <= |data|)
                  && SealAttachment(key, id, data, nonce)[i]
                     == Sealed(key,
                               "guivault/v1/attachment\0" + id + "\0" + Decimal(i) + "\0" + (if i + 1 == n then "1" else "0"),
                               Bytes(if i + 1 == n then data[i * 1048576..] else data[i * 1048576..(i + 1) * 1048576]),
                               nonce(i)))
  {
    CountInFigures(|data|);
    var n := ChunkCount(|data|);
    if i < n {
      SliceInFigures(data, i);
      AadInFigures(id, i, i + 1 == n);
    }
  }

  // ---- what the store accepts --------------------------------------------------------

  /** The announcement of an attachment: a total size and a number of chunks. */
  predicate Consistent(size: int, chunks: int) {
    var plain := size - chunks * 41;
    chunks >= 1 && plain >= 0 && ChunkCount(plain) == chunks
  }

  /** An announcement is accepted exactly when it comes from some plaintext
      length, which it then determines: up to what a u32 can number, as many
      chunks of 1 MiB as that length takes. */
  lemma ConsistentMeans(size: int, chunks: int)
    ensures Consistent(size, chunks) <==>
            chunks >= 1 && exists plain: nat :: SealedSize(plain) == size && ChunkCount(plain) == chunks
    ensures forall a: nat, b: nat ::
              SealedSize(a) == SealedSize(b) == size && ChunkCount(a) == ChunkCount(b) == chunks ==> a == b
    ensures size - 41 * chunks <= 0xF_FFFF_FFF0_0000 ==>
              (Consistent(size, chunks) <==>
                 chunks >= 1 && ((chunks - 1) * 1048576 < size - 41 * chunks <= chunks * 1048576 || (size == 41 && chunks == 1)))
  {
    var plain := size - chunks * 41;
    if Consistent(size, chunks) {
      assert SealedSize(plain) == size && ChunkCount(plain) == chunks;
    }
  }
}
