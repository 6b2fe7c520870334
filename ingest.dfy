/** Storing a document's chunks: embedding them batch by batch (`generate_embeddings`) and the
    guards around the insertion into the vector store (`insert_to_milvus`). The embedding
    model is the parameter `encode`; the store reports its entity count as `entitiesAfter`. */
module Ingest {
  import opened Wrappers
  import opened Text

  type Vector = seq<real>

  /** `batch_size` of `generate_embeddings`. */
  const BatchSize: nat := 32

  /** `texts[i:j]` with Python's clamping of the end index. */
  function Slice(texts: seq<string>, i: nat, j: nat): (r: seq<string>)
    requires i <= j && i <= |texts|
    ensures |r| <= j - i
    ensures r == texts[i..(if j <= |texts| then j else |texts|)]
  {
    texts[i..(if j <= |texts| then j else |texts|)]
  }

  /** The batches `texts[i:i + 32]` for `i` in `range(start, len(texts), 32)`. */
  function BatchesFrom(texts: seq<string>, start: nat): seq<seq<string>>
    decreases |texts| - start
  {
    if start >= |texts| then [] else [Slice(texts, start, start + BatchSize)] + BatchesFrom(texts, start + BatchSize)
  }

  function Batches(texts: seq<string>): seq<seq<string>> {
    BatchesFrom(texts, 0)
  }

  /** The model's output for each batch, in batch order. */
  function EncodeEach(batches: seq<seq<string>>, encode: seq<string> -> seq<Vector>): (r: seq<seq<Vector>>)
    ensures |r| == |batches| && forall k :: 0 <= k < |r| ==> r[k] == encode(batches[k])
  {
    seq(|batches|, k requires 0 <= k < |batches| => encode(batches[k]))
  }

  /** What `generate_embeddings` returns: the per-batch outputs, concatenated in order. */
  function Embeddings(texts: seq<string>, encode: seq<string> -> seq<Vector>): seq<Vector> {
    Flatten(EncodeEach(Batches(texts), encode))
  }

  lemma EncodeEachCons(b: seq<string>, rest: seq<seq<string>>, encode: seq<string> -> seq<Vector>)
    ensures Flatten(EncodeEach([b] + rest, encode)) == encode(b) + Flatten(EncodeEach(rest, encode))
  {
    var e := EncodeEach([b] + rest, encode);
    assert e[1..] == EncodeEach(rest, encode);
  }

  /** `generate_embeddings`: `all_embeddings.extend(...)` once per batch of 32. */
  method GenerateEmbeddings(texts: seq<string>, encode: seq<string> -> seq<Vector>) returns (all: seq<Vector>)
    ensures all == Embeddings(texts, encode)
  {
    all := [];
    var i: nat := 0;
    while i < |texts|
      invariant Embeddings(texts, encode) == all + Flatten(EncodeEach(BatchesFrom(texts, i), encode))
      decreases |texts| - i
    {
      var batch := Slice(texts, i, i + BatchSize);
      var vectors := encode(batch);
      EncodeEachCons(batch, BatchesFrom(texts, i + BatchSize), encode);
      all := all + vectors;
      i := i + BatchSize;
    }
    assert BatchesFrom(texts, i) == [];
  }

  /** There are `ceil(n / 32)` batches. */
  lemma {:induction false} BatchesFromCount(texts: seq<string>, start: nat)
    requires start <= |texts|
    ensures |BatchesFrom(texts, start)| == (|texts| - start + BatchSize - 1) / BatchSize
    decreases |texts| - start
  {
    if start < |texts| {
      if start + BatchSize <= |texts| {
        BatchesFromCount(texts, start + BatchSize);
      } else {
        assert BatchesFrom(texts, start + BatchSize) == [];
      }
    }
  }

  lemma BatchCount(texts: seq<string>)
    ensures |Batches(texts)| == (|texts| + BatchSize - 1) / BatchSize
  {
    BatchesFromCount(texts, 0);
  }

  /** The batches are the texts cut into consecutive pieces: none is lost, repeated or
      reordered. */
  lemma {:induction false} BatchesFromFlatten(texts: seq<string>, start: nat)
    requires start <= |texts|
    ensures Flatten(BatchesFrom(texts, start)) == texts[start..]
    decreases |texts| - start
  {
    if start < |texts| {
      var b := Slice(texts, start, start + BatchSize);
      var rest := BatchesFrom(texts, start + BatchSize);
      FlattenCons(b, rest);
      if start + BatchSize <= |texts| {
        BatchesFromFlatten(texts, start + BatchSize);
        assert texts[start..] == b + texts[start + BatchSize..];
      } else {
        assert rest == [];
        assert b == texts[start..];
      }
    }
  }

  /** No batch is empty and none holds more than 32 texts. */
  lemma {:induction false} BatchesFromSizes(texts: seq<string>, start: nat)
    ensures forall b :: b in BatchesFrom(texts, start) ==> 0 < |b| <= BatchSize
    decreases |texts| - start
  {
    if start < |texts| {
      BatchesFromSizes(texts, start + BatchSize);
    }
  }

  lemma BatchesShape(texts: seq<string>)
    ensures Flatten(Batches(texts)) == texts
    ensures forall b :: b in Batches(texts) ==> 0 < |b| <= BatchSize
  {
    BatchesFromFlatten(texts, 0);
    BatchesFromSizes(texts, 0);
  }

  lemma {:induction false} FlattenEncodedLength(batches: seq<seq<string>>, encode: seq<string> -> seq<Vector>)
    requires forall b :: b in batches ==> |encode(b)| == |b|
    ensures |Flatten(EncodeEach(batches, encode))| == |Flatten(batches)|
  {
    if batches != [] {
      EncodeEachCons(batches[0], batches[1..], encode);
      assert [batches[0]] + batches[1..] == batches;
      FlattenEncodedLength(batches[1..], encode);
    }
  }

  /** With a model that returns one vector per text, there is one embedding per text. */
  lemma EmbeddingsLength(texts: seq<string>, encode: seq<string> -> seq<Vector>)
    requires forall b: seq<string> :: |encode(b)| == |b|
    ensures |Embeddings(texts, encode)| == |texts|
  {
    BatchesShape(texts);
    FlattenEncodedLength(Batches(texts), encode);
  }

  const EmptyInputMessage := "文本或向量为空"
  const EmptyAfterInsertMessage := "插入后集合仍为空"

  const MismatchHead := "文本数量 ("
  const MismatchMid := ") 与向量数量 ("
  const MismatchTail := ") 不匹配"

  /** `f"文本数量 ({len(texts)}) 与向量数量 ({len(embeddings)}) 不匹配"`. */
  function MismatchMessage(texts: nat, vectors: nat): string {
    MismatchHead + (NatToString(texts) + (MismatchMid + (NatToString(vectors) + MismatchTail)))
  }

  /** `insert_to_milvus`: the guards before the insertion, and the entity count the store
      reports after the flush; on success that count is returned. */
  function InsertToMilvus(texts: seq<string>, embeddings: seq<Vector>, entitiesAfter: nat): (r: Result<nat, string>)
    ensures r.Ok? <==> texts != [] && embeddings != [] && |texts| == |embeddings| && entitiesAfter > 0
    ensures r.Ok? ==> r.value == entitiesAfter
  {
    if texts == [] || embeddings == [] then Err(EmptyInputMessage)
    else if |texts| != |embeddings| then Err(MismatchMessage(|texts|, |embeddings|))
    else if entitiesAfter == 0 then Err(EmptyAfterInsertMessage)
    else Ok(entitiesAfter)
  }

  /** Each rejection carries its own message, and a length mismatch names both lengths. */
  lemma InsertRejections(texts: seq<string>, embeddings: seq<Vector>, entitiesAfter: nat)
    ensures (texts == [] || embeddings == []) ==> InsertToMilvus(texts, embeddings, entitiesAfter) == Err(EmptyInputMessage)
    ensures texts != [] && embeddings != [] && |texts| != |embeddings| ==>
      InsertToMilvus(texts, embeddings, entitiesAfter) == Err(MismatchMessage(|texts|, |embeddings|))
    ensures texts != [] && |texts| == |embeddings| && entitiesAfter == 0 ==>
      InsertToMilvus(texts, embeddings, entitiesAfter) == Err(EmptyAfterInsertMessage)
  {
  }

  /** The mismatch message determines both lengths. */
  lemma MismatchMessageInjective(n: nat, m: nat, n': nat, m': nat)
    requires MismatchMessage(n, m) == MismatchMessage(n', m')
    ensures n == n' && m == m'
  {
    var s, s', t, t' := NatToString(n), NatToString(n'), NatToString(m), NatToString(m');
    var tail, tail' := MismatchMid + (t + MismatchTail), MismatchMid + (t' + MismatchTail);
    DropPrefix(MismatchHead, s + tail);
    DropPrefix(MismatchHead, s' + tail');
    DigitsThenParen(s, tail, s', tail');
    NatToStringInjective(n, n');
    DropPrefix(MismatchMid, t + MismatchTail);
    DropPrefix(MismatchMid, t' + MismatchTail);
    DigitsThenParen(t, MismatchTail, t', MismatchTail);
    NatToStringInjective(m, m');
  }

  lemma DropPrefix(head: string, rest: string)
    ensures (head + rest)[|head|..] == rest
  {
  }

  /** The length of the run of decimal digits `x` starts with. */
  function DigitRun(x: string): nat {
    if x != [] && '0' <= x[0] <= '9' then 1 + DigitRun(x[1..]) else 0
  }

  lemma {:induction false} DigitRunBeforeParen(s: string, rest: string)
    requires forall i :: 0 <= i < |s| ==> '0' <= s[i] <= '9'
    requires rest != [] && rest[0] == ')'
    ensures DigitRun(s + rest) == |s|
  {
    if s == [] {
      assert s + rest == rest;
    } else {
      assert (s + rest)[1..] == s[1..] + rest;
      DigitRunBeforeParen(s[1..], rest);
    }
  }

  /** Two digit strings, each followed by something starting with `)`, can only be joined
      equally if the digit strings are equal. */
  lemma DigitsThenParen(s: string, rest: string, s': string, rest': string)
    requires forall i :: 0 <= i < |s| ==> '0' <= s[i] <= '9'
    requires forall i :: 0 <= i < |s'| ==> '0' <= s'[i] <= '9'
    requires rest != [] && rest[0] == ')' && rest' != [] && rest'[0] == ')'
    requires s + rest == s' + rest'
    ensures s == s' && rest == rest'
  {
    DigitRunBeforeParen(s, rest);
    DigitRunBeforeParen(s', rest');
    assert s == (s + rest)[..|s|] && s' == (s' + rest')[..|s|];
    assert rest == (s + rest)[|s|..] && rest' == (s' + rest')[|s|..];
  }
}
