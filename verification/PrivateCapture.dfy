/** Captures returned in chunks, each an encoded stretch of the same bytes. */
module PrivateCapture {
  import opened Results
  import opened Base64
  import Texts

  const MAX_BYTES: nat := 524288
  const CHUNK_BYTES: nat := 4096

  datatype Row = Row(request: string, index: int, count: int, total: int, root: string, chunk: string)

  predicate RootText(s: string) {
    Texts.HexText(s, 64)
  }

  // ----- splitting -----

  function Count(total: nat): nat {
    CeilDiv(total, CHUNK_BYTES)
  }

  function From(index: nat, total: nat): nat {
    if index * CHUNK_BYTES < total then index * CHUNK_BYTES else total
  }

  function Part(bytes: Bytes, index: nat): Bytes {
    bytes[From(index, |bytes|)..From(index + 1, |bytes|)]
  }

  function ChunkOf(bytes: Bytes, index: nat, request: string, sha: Bytes -> string): Row {
    Row(request, index, Count(|bytes|), |bytes|, sha(bytes), Encode(Part(bytes, index)))
  }

  function SealChunk(bytes: Bytes, index: int, request: string, sha: Bytes -> string): Result<Row> {
    if bytes == [] || |bytes| > MAX_BYTES || index < 0 then Err("chunk_input")
    else if index >= Count(|bytes|) then Err("chunk_index")
    else Ok(ChunkOf(bytes, index, request, sha))
  }

  function Chunks(bytes: Bytes, request: string, sha: Bytes -> string): (r: seq<Row>)
    ensures |r| == Count(|bytes|)
  {
    seq(Count(|bytes|), i requires 0 <= i < Count(|bytes|) => ChunkOf(bytes, i, request, sha))
  }

  // ----- assembling -----

  predicate Bound(row: Row, first: Row, index: nat) {
    row.index == index && row.count == first.count && row.total == first.total && row.root == first.root
  }

  /** How long a chunk must be. */
  function SizeOf(index: nat, total: nat): int {
    if CHUNK_BYTES < total - index * CHUNK_BYTES then CHUNK_BYTES else total - index * CHUNK_BYTES
  }

  function Gather(rows: seq<Row>, first: Row, index: nat): Result<Bytes>
    requires index <= |rows| && first.total >= 0
    decreases |rows| - index
  {
    if index == |rows| then Ok([])
    else if !Bound(rows[index], first, index) then Err("chunk_binding")
    else
      var bytes :- Decode(rows[index].chunk, CHUNK_BYTES);
      if |bytes| != SizeOf(index, first.total) then Err("chunk_size")
      else
        var rest :- Gather(rows, first, index + 1);
        Ok(bytes + rest)
  }

  predicate Shaped(row: Row, request: string) {
    row.request == request && RootText(row.root)
  }

  function Assembled(rows: seq<Row>, request: string, sha: Bytes -> string): Result<Bytes> {
    if rows == [] || |rows| > Count(MAX_BYTES) then Err("chunk_count")
    else if exists i :: 0 <= i < |rows| && !Shaped(rows[i], request) then Err("chunk_shape")
    else
      var first := rows[0];
      if first.total < 1 || first.total > MAX_BYTES || first.count != Count(first.total) || |rows| != first.count
      then Err("chunk_incomplete")
      else
        var result :- Gather(rows, first, 0);
        if |result| != first.total || sha(result) != first.root then Err("chunk_root") else Ok(result)
  }

  lemma {:induction false} GatherSnoc(rows: seq<Row>, first: Row, index: nat, k: nat, head: Bytes)
    requires index <= k <= |rows| && first.total >= 0
    requires forall i :: index <= i < k ==> Accepted(rows[i], first, i)
    requires head == Joined(rows, index, k)
    ensures Gather(rows, first, index) ==
            var rest := Gather(rows, first, k); if rest.Err? then rest else Ok(head + rest.value)
    decreases k - index
  {
    hide Decode;
    if index == k {
      var rest := Gather(rows, first, k);
      assert rest.Ok? ==> [] + rest.value == rest.value;
    } else {
      var one := Decode(rows[index].chunk, CHUNK_BYTES).value;
      GatherSnoc(rows, first, index + 1, k, Joined(rows, index + 1, k));
      var rest := Gather(rows, first, k);
      assert rest.Ok? ==> one + (Joined(rows, index + 1, k) + rest.value) == head + rest.value;
    }
  }

  predicate Accepted(row: Row, first: Row, index: nat)
    requires first.total >= 0
  {
    && Bound(row, first, index)
    && var bytes := Decode(row.chunk, CHUNK_BYTES); bytes.Ok? && |bytes.value| == SizeOf(index, first.total)
  }

  function Decoded(row: Row): Bytes {
    var bytes := Decode(row.chunk, CHUNK_BYTES);
    if bytes.Ok? then bytes.value else []
  }

  function Joined(rows: seq<Row>, index: nat, k: nat): Bytes
    requires index <= k <= |rows|
    decreases k - index
  {
    if index == k then [] else Decoded(rows[index]) + Joined(rows, index + 1, k)
  }

  lemma {:induction false} JoinedSnoc(rows: seq<Row>, index: nat, k: nat)
    requires index <= k < |rows|
    ensures Joined(rows, index, k + 1) == Joined(rows, index, k) + Decoded(rows[k])
    decreases k - index
  {
    hide Decoded;
    if index < k {
      JoinedSnoc(rows, index + 1, k);
    }
  }

  method AssembleChunks(rows: seq<Row>, request: string, sha: Bytes -> string) returns (r: Result<Bytes>)
    ensures r == Assembled(rows, request, sha)
  {
    hide Decode, RootText, Count;
    if rows == [] || |rows| > Count(MAX_BYTES) {
      return Err("chunk_count");
    }
    if exists i :: 0 <= i < |rows| && !Shaped(rows[i], request) {
      return Err("chunk_shape");
    }
    var first := rows[0];
    if first.total < 1 || first.total > MAX_BYTES || first.count != Count(first.total) || |rows| != first.count {
      return Err("chunk_incomplete");
    }
    var result :- GatherAll(rows, first);
    if |result| != first.total || sha(result) != first.root {
      return Err("chunk_root");
    }
    return Ok(result);
  }

  method GatherAll(rows: seq<Row>, first: Row) returns (r: Result<Bytes>)
    requires first.total >= 0
    ensures r == Gather(rows, first, 0)
  {
    hide Decode;
    var result: Bytes := [];
    for index := 0 to |rows|
      invariant forall i :: 0 <= i < index ==> Accepted(rows[i], first, i)
      invariant result == Joined(rows, 0, index)
    {
      GatherSnoc(rows, first, 0, index, result);
      if !Bound(rows[index], first, index) {
        return Err("chunk_binding");
      }
      var bytes :- Decode(rows[index].chunk, CHUNK_BYTES);
      if |bytes| != SizeOf(index, first.total) {
        return Err("chunk_size");
      }
      JoinedSnoc(rows, 0, index);
      result := result + bytes;
    }
    GatherSnoc(rows, first, 0, |rows|, result);
    assert result + [] == result;
    return Ok(result);
  }

  // ----- sizes -----

  lemma CountFits(total: nat, index: nat)
    requires index <= Count(total)
    ensures index < Count(total) <==> index * CHUNK_BYTES < total
    ensures From(index, total) == if index == Count(total) then total else index * CHUNK_BYTES
  {
  }

  /** The size that each chunk is checked for is the size of its part. */
  lemma SizeIsPart(total: nat, index: nat)
    requires index < Count(total)
    ensures SizeOf(index, total) == From(index + 1, total) - From(index, total)
  {
    CountFits(total, index);
    CountFits(total, index + 1);
  }

  /** The sizes of the chunks alone force the length of the whole. */
  lemma {:induction false} SizesForceTotal(rows: seq<Row>, first: Row, index: nat)
    requires first.total >= 0 && index <= |rows| == Count(first.total) && Gather(rows, first, index).Ok?
    ensures |Gather(rows, first, index).value| == first.total - From(index, first.total)
    decreases |rows| - index
  {
    hide Decode, Count, From, SizeOf;
    CountFits(first.total, index);
    if index < |rows| {
      SizesForceTotal(rows, first, index + 1);
      SizeIsPart(first.total, index);
    }
  }

  // ----- the round trip -----

  lemma PartFits(bytes: Bytes, index: nat)
    requires index < Count(|bytes|)
    ensures |Part(bytes, index)| == SizeOf(index, |bytes|) <= CHUNK_BYTES
    ensures bytes[From(index, |bytes|)..] == Part(bytes, index) + bytes[From(index + 1, |bytes|)..]
  {
    SizeIsPart(|bytes|, index);
  }

  lemma {:induction false} ChunksGather(bytes: Bytes, request: string, sha: Bytes -> string, index: nat)
    requires bytes != [] && index <= Count(|bytes|)
    ensures Count(|bytes|) > 0
    ensures var rows := Chunks(bytes, request, sha); Gather(rows, rows[0], index) == Ok(bytes[From(index, |bytes|)..])
    decreases Count(|bytes|) - index
  {
    hide Decode, Encode, Count, From, SizeOf, Part;
    CountFits(|bytes|, 0);
    CountFits(|bytes|, index);
    if index == Count(|bytes|) {
      assert bytes[|bytes|..] == [];
    } else {
      ChunksGather(bytes, request, sha, index + 1);
      PartFits(bytes, index);
      DecodesExactly(Encode(Part(bytes, index)), CHUNK_BYTES, Part(bytes, index));
    }
  }

  /** Where a chunk stands in what is gathered from a later start. */
  lemma {:induction false} GatheredPart(rows: seq<Row>, first: Row, index: nat, i: nat)
    requires first.total >= 0 && index <= i < |rows| == Count(first.total) && Gather(rows, first, index).Ok?
    ensures var v := Gather(rows, first, index).value; var n := first.total;
      && Bound(rows[i], first, i) && |v| == n - From(index, n)
      && From(index, n) <= From(i, n) <= From(i + 1, n) <= n
      && Decode(rows[i].chunk, CHUNK_BYTES) == Ok(v[From(i, n) - From(index, n)..From(i + 1, n) - From(index, n)])
    decreases i - index
  {
    hide Decode, Count, From, SizeOf;
    var v, n := Gather(rows, first, index).value, first.total;
    SizesForceTotal(rows, first, index);
    SizesForceTotal(rows, first, index + 1);
    SizeIsPart(n, index);
    FromGrows(n, index, i);
    var one, rest := Decode(rows[index].chunk, CHUNK_BYTES).value, Gather(rows, first, index + 1).value;
    assert v == one + rest;
    if index == i {
      assert v[..|one|] == one;
    } else {
      GatheredPart(rows, first, index + 1, i);
      FromGrows(n, index + 1, i);
      SliceBehind(one, rest, From(i, n) - From(index + 1, n), From(i + 1, n) - From(index + 1, n));
    }
  }

  lemma FromGrows(n: nat, i: nat, j: nat)
    requires i <= j
    ensures From(i, n) <= From(j, n) <= From(j + 1, n) <= n
  {
  }

  lemma SliceBehind(a: Bytes, b: Bytes, i: nat, j: nat)
    requires i <= j <= |b|
    ensures (a + b)[|a| + i..|a| + j] == b[i..j]
  {
  }

  /** A set of chunks is assembled exactly when it is all the chunks, in order, of bytes within the limit, and to
      those bytes. */
  lemma AssemblesExactly(rows: seq<Row>, request: string, sha: Bytes -> string, bytes: Bytes)
    ensures Assembled(rows, request, sha) == Ok(bytes) <==>
            1 <= |bytes| <= 524288 && RootText(sha(bytes)) && rows == Chunks(bytes, request, sha)
  {
    if Assembled(rows, request, sha) == Ok(bytes) {
      AssembledIsChunks(rows, request, sha);
    }
    if 1 <= |bytes| <= MAX_BYTES && RootText(sha(bytes)) && rows == Chunks(bytes, request, sha) {
      ChunksAssemble(bytes, request, sha);
    }
  }

  lemma ChunksAssemble(bytes: Bytes, request: string, sha: Bytes -> string)
    requires 1 <= |bytes| <= MAX_BYTES && RootText(sha(bytes))
    ensures Assembled(Chunks(bytes, request, sha), request, sha) == Ok(bytes)
  {
    hide RootText, Encode, Gather, Part;
    ChunksGather(bytes, request, sha, 0);
    CountFits(|bytes|, 0);
    assert bytes[0..] == bytes;
  }

  lemma AssembledIsChunks(rows: seq<Row>, request: string, sha: Bytes -> string)
    requires Assembled(rows, request, sha).Ok?
    ensures var bytes := Assembled(rows, request, sha).value;
      1 <= |bytes| <= MAX_BYTES && RootText(sha(bytes)) && rows == Chunks(bytes, request, sha)
  {
    hide RootText, Encode, Gather, Count, From, Decode;
    var bytes, first := Assembled(rows, request, sha).value, rows[0];
    forall i | 0 <= i < |rows| ensures rows[i] == ChunkOf(bytes, i, request, sha) {
      assert Shaped(rows[i], request);
      GatheredPart(rows, first, 0, i);
      CountFits(first.total, 0);
      DecodesExactly(rows[i].chunk, CHUNK_BYTES, Part(bytes, i));
    }
    assert rows == Chunks(bytes, request, sha);
  }

  /** Sealing every chunk and assembling them gives back the bytes. */
  lemma SealedAssemble(bytes: Bytes, request: string, sha: Bytes -> string)
    requires 1 <= |bytes| <= MAX_BYTES && RootText(sha(bytes))
    ensures forall i: nat :: i < Count(|bytes|) ==>
              SealChunk(bytes, i, request, sha) == Ok(Chunks(bytes, request, sha)[i])
    ensures Assembled(Chunks(bytes, request, sha), request, sha) == Ok(bytes)
  {
    hide RootText, Encode, Count, Part;
    AssemblesExactly(Chunks(bytes, request, sha), request, sha, bytes);
  }
}
