/**
 * Adaptive embedding batches against a server that may turn requests down for their size:
 * greedy packing, halving, truncating, and what can be said of the vectors that come back.
 */
module Embeddings {
  import opened Events
  import opened Sorting

  const MAX_EMBED_BATCH_CHARS: nat := 6000
  const MIN_EMBED_INPUT_CHARS: nat := 512

  type Vector = seq<real>

  /** One row of a reply, tagged with the input it answers. */
  datatype Row = Row(index: int, vector: Vector)

  /** `status` is absent when the request failed without an HTTP status. */
  datatype Reply = Ok(data: seq<Row>) | Refused(status: Option<int>)

  /** The reply to the n-th request; the same batch may fare differently the next time. */
  type Server = (nat, seq<string>) -> Reply

  datatype Result = Vectors(vectors: seq<Vector>) | Failed(status: Option<int>)

  /** A result, and the number of the next request. */
  datatype Outcome = Outcome(result: Result, next: nat)

  predicate TooLarge(status: Option<int>) {
    status == Some(400) || status == Some(413)
  }

  predicate ByIndex(a: Row, b: Row) {
    a.index < b.index
  }

  function VectorsOf(data: seq<Row>): (vectors: seq<Vector>)
    ensures |vectors| == |data|
  {
    seq(|data|, i requires 0 <= i < |data| => data[i].vector)
  }

  /** One request. */
  function Batch(server: Server, n: nat, texts: seq<string>): Result {
    match server(n, texts)
    case Ok(data) => Vectors(VectorsOf(SortBy(data, ByIndex)))
    case Refused(status) => Failed(status)
  }

  function Half(text: string): (half: string)
    requires |text| > MIN_EMBED_INPUT_CHARS
    ensures half < text && |half| >= MIN_EMBED_INPUT_CHARS
  {
    var n := if |text| / 2 < MIN_EMBED_INPUT_CHARS then MIN_EMBED_INPUT_CHARS else |text| / 2;
    text[..n]
  }

  function Middle(n: nat): (mid: nat)
    requires n > 1
    ensures 0 < mid < n
  {
    (n + 1) / 2
  }

  /** Halve the batch while it is too large, then the one text that is left. */
  function Packed(server: Server, n: nat, texts: seq<string>): Outcome
    requires texts != []
    decreases |texts|, |texts[0]|
  {
    var r := Batch(server, n, texts);
    if r.Vectors? || !TooLarge(r.status) then Outcome(r, n + 1)
    else if |texts| > 1 then
      var mid := Middle(|texts|);
      var left := Packed(server, n + 1, texts[..mid]);
      if left.result.Failed? then left
      else
        var right := Packed(server, left.next, texts[mid..]);
        if right.result.Failed? then right
        else Outcome(Vectors(left.result.vectors + right.result.vectors), right.next)
    else if |texts[0]| > MIN_EMBED_INPUT_CHARS then Packed(server, n + 1, [Half(texts[0])])
    else Outcome(r, n + 1)
  }

  // --- packing into requests ----------------------------------------------------------------

  function Chars(batch: seq<string>): nat {
    if batch == [] then 0 else Chars(batch[..|batch| - 1]) + |batch[|batch| - 1]|
  }

  function Flatten(batches: seq<seq<string>>): seq<string> {
    if batches == [] then [] else Flatten(batches[..|batches| - 1]) + batches[|batches| - 1]
  }

  predicate AllNonEmpty(batches: seq<seq<string>>) {
    forall i :: 0 <= i < |batches| ==> batches[i] != []
  }

  datatype Packing = Packing(closed: seq<seq<string>>, batch: seq<string>)

  /** Greedy: a text joins the open batch unless that would push it over the limit. */
  function Pack(texts: seq<string>): (p: Packing)
    ensures texts != [] <==> p.batch != []
    ensures AllNonEmpty(p.closed)
  {
    if texts == [] then Packing([], [])
    else
      var p := Pack(texts[..|texts| - 1]);
      var text := texts[|texts| - 1];
      if p.batch != [] && Chars(p.batch) + |text| > MAX_EMBED_BATCH_CHARS then Packing(p.closed + [p.batch], [text])
      else Packing(p.closed, p.batch + [text])
  }

  /** Packing loses no text and keeps the order. */
  lemma {:induction false} PackKeepsAll(texts: seq<string>)
    ensures Flatten(Pack(texts).closed) + Pack(texts).batch == texts
  {
    hide Chars, Flatten;
    if texts == [] {
      NothingFlat();
    } else {
      var n := |texts| - 1;
      PackKeepsAll(texts[..n]);
      var p := Pack(texts[..n]);
      assert texts == texts[..n] + [texts[n]];
      if p.batch != [] && Chars(p.batch) + |texts[n]| > MAX_EMBED_BATCH_CHARS {
        OneMoreFlat(p.closed, p.batch);
        assert Pack(texts) == Packing(p.closed + [p.batch], [texts[n]]);
      } else {
        assert Pack(texts) == Packing(p.closed, p.batch + [texts[n]]);
        assert Flatten(p.closed) + (p.batch + [texts[n]]) == (Flatten(p.closed) + p.batch) + [texts[n]];
      }
    }
  }

  lemma NothingFlat()
    ensures Flatten([]) == [] && Flatten([]) + [] == []
  {
  }

  lemma OneMoreFlat(batches: seq<seq<string>>, batch: seq<string>)
    ensures Flatten(batches + [batch]) == Flatten(batches) + batch
  {
    assert (batches + [batch])[..|batches|] == batches;
  }

  predicate Small(batch: seq<string>) {
    Chars(batch) <= MAX_EMBED_BATCH_CHARS || |batch| == 1
  }

  /** Requests stay under the limit unless they hold a single text. */
  lemma {:induction false} PackedRequestsAreSmall(texts: seq<string>)
    ensures Small(Pack(texts).batch)
    ensures forall i :: 0 <= i < |Pack(texts).closed| ==> Small(Pack(texts).closed[i])
  {
    if texts != [] {
      var n := |texts| - 1;
      PackedRequestsAreSmall(texts[..n]);
      var p := Pack(texts[..n]);
      assert (p.batch + [texts[n]])[..|p.batch|] == p.batch;
    }
  }

  function EmbedBatches(server: Server, n: nat, batches: seq<seq<string>>): Outcome
    requires AllNonEmpty(batches)
  {
    if batches == [] then Outcome(Vectors([]), n)
    else
      var before := EmbedBatches(server, n, batches[..|batches| - 1]);
      if before.result.Failed? then before
      else
        var last := Packed(server, before.next, batches[|batches| - 1]);
        if last.result.Failed? then last
        else Outcome(Vectors(before.result.vectors + last.result.vectors), last.next)
  }

  function Embedded(server: Server, n: nat, texts: seq<string>): Outcome {
    var p := Pack(texts);
    EmbedBatches(server, n, if p.batch == [] then p.closed else p.closed + [p.batch])
  }

  // --- as the embedder runs it -------------------------------------------------------------------

  class HttpEmbedder {
    const server: Server
    var requests: nat

    constructor (server: Server)
      ensures this.server == server && requests == 0
    {
      this.server, requests := server, 0;
    }

    method EmbedBatch(texts: seq<string>) returns (r: Result)
      modifies this
      ensures r == Batch(server, old(requests), texts) && requests == old(requests) + 1
    {
      var reply := server(requests, texts);
      requests := requests + 1;
      match reply {
        case Refused(status) => return Failed(status);
        case Ok(data) =>
          var sorted := SortBy(data, ByIndex);
          r := Vectors(VectorsOf(sorted));
      }
    }

    method EmbedPacked(texts: seq<string>) returns (r: Result)
      requires texts != []
      modifies this
      ensures Outcome(r, requests) == Packed(server, old(requests), texts)
      decreases |texts|, |texts[0]|
    {
      hide Batch;
      r := EmbedBatch(texts);
      if r.Vectors? { return; }
      var tooLarge := TooLarge(r.status);
      if tooLarge && |texts| > 1 {
        var mid := Middle(|texts|);
        var left := EmbedPacked(texts[..mid]);
        if left.Failed? { return left; }
        var right := EmbedPacked(texts[mid..]);
        if right.Failed? { return right; }
        return Vectors(left.vectors + right.vectors);
      }
      if tooLarge && |texts| == 1 && |texts[0]| > MIN_EMBED_INPUT_CHARS {
        var half := Half(texts[0]);
        r := EmbedPacked([half]);
      }
    }

    method Embed(texts: seq<string>) returns (r: Result)
      modifies this
      ensures Outcome(r, requests) == Embedded(server, old(requests), texts)
    {
      hide Packed, Pack, Chars, EmbedBatches, Embedded;
      NothingToEmbed(server, requests);
      if |texts| == 0 { return Vectors([]); }
      var out: seq<Vector> := [];
      var batch: seq<string> := [];
      var batchChars := 0;
      ghost var closed: seq<seq<string>> := [];
      for i := 0 to |texts|
        invariant Pack(texts[..i]) == Packing(closed, batch) && batchChars == Chars(batch)
        invariant EmbedBatches(server, old(requests), closed) == Outcome(Vectors(out), requests)
      {
        var text := texts[i];
        assert texts[..i + 1] == texts[..i] + [text];
        OneMoreText(texts[..i], text);
        if |batch| > 0 && batchChars + |text| > MAX_EMBED_BATCH_CHARS {
          OneMoreBatch(server, old(requests), closed, batch);
          var some := EmbedPacked(batch);
          if some.Failed? {
            FailureStays(server, old(requests), texts, i + 1);
            return some;
          }
          out := out + some.vectors;
          closed := closed + [batch];
          batch, batchChars := [], 0;
        }
        MoreChars(batch, text);
        batch, batchChars := batch + [text], batchChars + |text|;
      }
      assert texts[..|texts|] == texts;
      WhatIsSent(server, old(requests), texts);
      OneMoreBatch(server, old(requests), closed, batch);
      var last := EmbedPacked(batch);
      r := if last.Failed? then last else Vectors(out + last.vectors);
    }
  }

  lemma NothingToEmbed(server: Server, n: nat)
    ensures Pack([]) == Packing([], []) && Chars([]) == 0
    ensures EmbedBatches(server, n, []) == Outcome(Vectors([]), n) && Embedded(server, n, []) == Outcome(Vectors([]), n)
  {
  }

  lemma OneMoreText(texts: seq<string>, text: string)
    ensures var p := Pack(texts);
            Pack(texts + [text]) ==
            if p.batch != [] && Chars(p.batch) + |text| > MAX_EMBED_BATCH_CHARS then
              Packing(p.closed + [p.batch], [text])
            else Packing(p.closed, p.batch + [text])
  {
    hide Chars;
    assert (texts + [text])[..|texts|] == texts;
  }

  lemma MoreChars(batch: seq<string>, text: string)
    ensures Chars(batch + [text]) == Chars(batch) + |text| && Chars([text]) == |text|
  {
    assert (batch + [text])[..|batch|] == batch;
    assert [text][..0] == [];
  }

  lemma WhatIsSent(server: Server, n: nat, texts: seq<string>)
    requires texts != []
    ensures AllNonEmpty(Pack(texts).closed) && AllNonEmpty(Pack(texts).closed + [Pack(texts).batch])
    ensures Embedded(server, n, texts) == EmbedBatches(server, n, Pack(texts).closed + [Pack(texts).batch])
  {
    hide Packed, Chars;
  }

  lemma OneMoreBatch(server: Server, n: nat, batches: seq<seq<string>>, batch: seq<string>)
    requires batch != [] && AllNonEmpty(batches)
    ensures var before := EmbedBatches(server, n, batches);
            before.result.Vectors? ==>
              var last := Packed(server, before.next, batch);
              EmbedBatches(server, n, batches + [batch]) ==
              if last.result.Failed? then last
                else Outcome(Vectors(before.result.vectors + last.result.vectors), last.next)
  {
    hide Packed;
    assert (batches + [batch])[..|batches|] == batches;
  }

  /** Closed batches stay closed, so the first one that fails decides. */
  lemma {:induction false} FailureStays(server: Server, n: nat, texts: seq<string>, i: nat)
    requires 0 < i <= |texts|
    requires EmbedBatches(server, n, Pack(texts[..i]).closed).result.Failed?
    ensures Embedded(server, n, texts) == EmbedBatches(server, n, Pack(texts[..i]).closed)
    decreases |texts| - i
  {
    hide Packed;
    var p := Pack(texts[..i]);
    if i == |texts| {
      assert texts[..i] == texts;
      assert (p.closed + [p.batch])[..|p.closed|] == p.closed;
    } else {
      assert texts[..i + 1][..i] == texts[..i];
      var q := Pack(texts[..i + 1]);
      assert (p.closed + [p.batch])[..|p.closed|] == p.closed;
      FailureStays(server, n, texts, i + 1);
    }
  }

  // --- laws ------------------------------------------------------------------------------------------

  /** A text, or a prefix of it that is not shorter than the floor. */
  predicate IsCutOf(cut: string, text: string) {
    cut == text || (cut <= text && |cut| >= MIN_EMBED_INPUT_CHARS)
  }

  /** `v` answers position `p` of a request that carried a cut of `text` there. */
  ghost predicate AnsweredAt(server: Server, v: Vector, text: string, n: nat, batch: seq<string>, p: nat) {
    p < |batch| && IsCutOf(batch[p], text) &&
    Batch(server, n, batch).Vectors? && |Batch(server, n, batch).vectors| == |batch| &&
      Batch(server, n, batch).vectors[p] == v
  }

  ghost predicate Answers(server: Server, v: Vector, text: string) {
    exists n: nat, batch, p: nat :: AnsweredAt(server, v, text, n, batch, p)
  }

  /** Every request an embedder can make is, if accepted, answered by one row per input. */
  ghost predicate OneRowPerInput(server: Server) {
    forall n: nat, batch :: batch != [] && Small(batch) && Batch(server, n, batch).Vectors? ==>
      |Batch(server, n, batch).vectors| == |batch|
  }

  lemma {:induction false} CharsJoin(a: seq<string>, b: seq<string>)
    ensures Chars(a + b) == Chars(a) + Chars(b)
  {
    if b == [] {
      assert a + b == a;
    } else {
      assert (a + b)[..|a + b| - 1] == a + b[..|b| - 1];
      CharsJoin(a, b[..|b| - 1]);
    }
  }

  lemma HalvesAreSmall(texts: seq<string>, mid: nat)
    requires |texts| > 1 && Small(texts) && mid <= |texts|
    ensures Small(texts[..mid]) && Small(texts[mid..])
  {
    CharsJoin(texts[..mid], texts[mid..]);
    assert texts[..mid] + texts[mid..] == texts;
  }

  ghost predicate AnswersEach(server: Server, r: Result, texts: seq<string>) {
    r.Vectors? ==> |r.vectors| == |texts| && forall i :: 0 <= i < |texts| ==> Answers(server, r.vectors[i], texts[i])
  }

  lemma AnswersCut(server: Server, v: Vector, cut: string, text: string)
    requires Answers(server, v, cut) && IsCutOf(cut, text)
    ensures Answers(server, v, text)
  {
    hide Batch;
    var n: nat, batch, p: nat :| AnsweredAt(server, v, cut, n, batch, p);
    assert AnsweredAt(server, v, text, n, batch, p);
  }

  lemma JoinAnswers(server: Server, a: seq<Vector>, s: seq<string>, b: seq<Vector>, t: seq<string>)
    requires AnswersEach(server, Vectors(a), s) && AnswersEach(server, Vectors(b), t)
    ensures AnswersEach(server, Vectors(a + b), s + t)
  {
    hide Answers;
  }

  /** If one sub-batch returns, each of its texts got the vector of itself or of a long enough prefix, in order. */
  lemma {:induction false} PackedAnswersEach(server: Server, n: nat, texts: seq<string>)
    requires OneRowPerInput(server) && texts != [] && Small(texts)
    ensures AnswersEach(server, Packed(server, n, texts).result, texts)
    decreases |texts|, |texts[0]|
  {
    hide Batch, Answers, Chars;
    var r := Batch(server, n, texts);
    if r.Vectors? {
      forall i | 0 <= i < |texts| ensures Answers(server, r.vectors[i], texts[i]) {
        ItAnswers(server, n, texts, i);
      }
    } else if TooLarge(r.status) {
      if |texts| > 1 {
        var mid := Middle(|texts|);
        HalvesAreSmall(texts, mid);
        PackedAnswersEach(server, n + 1, texts[..mid]);
        var left := Packed(server, n + 1, texts[..mid]);
        if left.result.Vectors? {
          PackedAnswersEach(server, left.next, texts[mid..]);
          var right := Packed(server, left.next, texts[mid..]);
          if right.result.Vectors? {
            JoinAnswers(server, left.result.vectors, texts[..mid], right.result.vectors, texts[mid..]);
            assert texts[..mid] + texts[mid..] == texts;
          }
        }
      } else if |texts[0]| > MIN_EMBED_INPUT_CHARS {
        var half := Half(texts[0]);
        PackedAnswersEach(server, n + 1, [half]);
        var cut := Packed(server, n + 1, [half]).result;
        if cut.Vectors? { AnswersCut(server, cut.vectors[0], half, texts[0]); }
      }
    }
  }

  lemma ItAnswers(server: Server, n: nat, texts: seq<string>, i: nat)
    requires Batch(server, n, texts).Vectors? && |Batch(server, n, texts).vectors| == |texts| && i < |texts|
    ensures Answers(server, Batch(server, n, texts).vectors[i], texts[i])
  {
    hide Batch;
    assert AnsweredAt(server, Batch(server, n, texts).vectors[i], texts[i], n, texts, i);
  }

  lemma {:induction false} BatchesAnswerEach(server: Server, n: nat, batches: seq<seq<string>>)
    requires OneRowPerInput(server) && AllNonEmpty(batches) && forall i :: 0 <= i < |batches| ==> Small(batches[i])
    ensures AnswersEach(server, EmbedBatches(server, n, batches).result, Flatten(batches))
  {
    hide Packed, Answers, OneRowPerInput, Small;
    if batches != [] {
      var m := |batches| - 1;
      BatchesAnswerEach(server, n, batches[..m]);
      var before := EmbedBatches(server, n, batches[..m]);
      if before.result.Vectors? {
        PackedAnswersEach(server, before.next, batches[m]);
        var last := Packed(server, before.next, batches[m]).result;
        if last.Vectors? {
          JoinAnswers(server, before.result.vectors, Flatten(batches[..m]), last.vectors, batches[m]);
        }
      }
    }
  }

  /** What `embed` returns is one vector per input, in input order, for its text or a prefix not under the floor. */
  lemma EmbedAnswersEach(server: Server, n: nat, texts: seq<string>)
    requires OneRowPerInput(server)
    ensures AnswersEach(server, Embedded(server, n, texts).result, texts)
  {
    hide Answers, OneRowPerInput, Packed, Small;
    var p := Pack(texts);
    var batches := if p.batch == [] then p.closed else p.closed + [p.batch];
    PackedRequestsAreSmall(texts);
    BatchesAnswerEach(server, n, batches);
    PackKeepsAll(texts);
    assert (p.closed + [p.batch])[..|p.closed|] == p.closed;
    assert Flatten(batches) == texts;
  }

  lemma {:induction false} SmallPacksWhole(batch: seq<string>)
    requires batch != [] && Small(batch)
    ensures Pack(batch) == Packing([], batch)
  {
    var n := |batch| - 1;
    assert batch == batch[..n] + [batch[n]];
    if n == 0 {
      assert batch[..0] == [] && Pack([]) == Packing([], []);
    } else {
      assert Chars(batch) == Chars(batch[..n]) + |batch[n]|;
      SmallPacksWhole(batch[..n]);
    }
  }

  lemma SmallIsOneRequest(server: Server, n: nat, batch: seq<string>)
    requires batch != [] && Small(batch)
    ensures Embedded(server, n, batch) == Packed(server, n, batch)
  {
    hide Packed, Small;
    SmallPacksWhole(batch);
    assert [] + [batch] == [batch] && [batch][..0] == [];
    assert EmbedBatches(server, n, []) == Outcome(Vectors([]), n);
    var last := Packed(server, n, batch);
    if last.result.Vectors? { assert [] + last.result.vectors == last.result.vectors; }
  }

  /**
   * Every call yields one vector per input, each the answer to its own text, exactly when the
   * server answers every request with one row per input. The embedder itself does not check it.
   */
  lemma EveryCallAnswersExactly(server: Server)
    ensures (forall n: nat, texts :: AnswersEach(server, Embedded(server, n, texts).result, texts)) <==>
            OneRowPerInput(server)
  {
    hide Answers, Embedded, Small, Batch;
    if OneRowPerInput(server) {
      forall n: nat, texts ensures AnswersEach(server, Embedded(server, n, texts).result, texts) {
        EmbedAnswersEach(server, n, texts);
      }
    } else {
      var n: nat, batch :| batch != [] && Small(batch) && Batch(server, n, batch).Vectors? &&
          |Batch(server, n, batch).vectors| != |batch|;
      SmallIsOneRequest(server, n, batch);
      assert !AnswersEach(server, Embedded(server, n, batch).result, batch);
    }
  }

  const SILENT: Server := (n, texts) => Ok([])

  /** A server that answers every request with no row: a call with one text returns, and returns no vector. */
  lemma SilentServerIsTaken(text: string)
    requires |text| <= MAX_EMBED_BATCH_CHARS
    ensures Embedded(SILENT, 0, [text]).result == Vectors([])
    ensures !OneRowPerInput(SILENT) && !AnswersEach(SILENT, Embedded(SILENT, 0, [text]).result, [text])
  {
    assert Chars([text][..0]) == 0;
    assert Small([text]);
    SmallIsOneRequest(SILENT, 0, [text]);
    assert Batch(SILENT, 0, [text]) == Vectors([]);
  }

  /** The server takes any one text that is not over the floor. */
  ghost predicate TakesShortTexts(server: Server) {
    forall n, text :: |text| <= MIN_EMBED_INPUT_CHARS && Batch(server, n, [text]).Failed? ==>
      !TooLarge(Batch(server, n, [text]).status)
  }

  /** `r` failed because request `n` was refused that way. */
  ghost predicate RefusedAt(server: Server, r: Result, n: nat, batch: seq<string>) {
    r.Failed? && Batch(server, n, batch) == r &&
      (TooLarge(r.status) ==> |batch| == 1 && |batch[0]| <= MIN_EMBED_INPUT_CHARS)
  }

  /** An error is always one the server gave; one for size only over a single text at or under the floor. */
  ghost predicate ErrorIsReal(server: Server, r: Result) {
    r.Failed? ==> exists n: nat, batch :: RefusedAt(server, r, n, batch)
  }

  lemma {:induction false} PackedErrorIsReal(server: Server, n: nat, texts: seq<string>)
    requires texts != []
    ensures ErrorIsReal(server, Packed(server, n, texts).result)
    decreases |texts|, |texts[0]|
  {
    hide Batch;
    var r := Batch(server, n, texts);
    if r.Failed? {
      if TooLarge(r.status) && |texts| > 1 {
        var mid := Middle(|texts|);
        PackedErrorIsReal(server, n + 1, texts[..mid]);
        PackedErrorIsReal(server, Packed(server, n + 1, texts[..mid]).next, texts[mid..]);
      } else if TooLarge(r.status) && |texts[0]| > MIN_EMBED_INPUT_CHARS {
        PackedErrorIsReal(server, n + 1, [Half(texts[0])]);
      } else {
        assert RefusedAt(server, r, n, texts);
      }
    }
  }

  lemma {:induction false} BatchesErrorIsReal(server: Server, n: nat, batches: seq<seq<string>>)
    requires AllNonEmpty(batches)
    ensures ErrorIsReal(server, EmbedBatches(server, n, batches).result)
  {
    hide Packed, ErrorIsReal;
    if batches == [] {
      NoError(server);
    } else {
      var m := |batches| - 1;
      BatchesErrorIsReal(server, n, batches[..m]);
      var before := EmbedBatches(server, n, batches[..m]);
      if before.result.Vectors? {
        PackedErrorIsReal(server, before.next, batches[m]);
        VectorsAreNoError(server, before.result.vectors);
        var last := Packed(server, before.next, batches[m]).result;
        if last.Vectors? { VectorsAreNoError(server, before.result.vectors + last.vectors); }
      }
    }
  }

  lemma NoError(server: Server)
    ensures ErrorIsReal(server, Vectors([]))
  {
  }

  lemma VectorsAreNoError(server: Server, vectors: seq<Vector>)
    ensures ErrorIsReal(server, Vectors(vectors))
  {
  }

  /** A server that takes every text up to the floor never lets a size error out. */
  lemma NoSizeErrorEscapes(server: Server, n: nat, texts: seq<string>)
    requires TakesShortTexts(server)
    ensures var r := Embedded(server, n, texts).result; r.Failed? ==> !TooLarge(r.status)
  {
    hide Packed, Batch;
    var p := Pack(texts);
    var batches := if p.batch == [] then p.closed else p.closed + [p.batch];
    BatchesErrorIsReal(server, n, batches);
    var r := Embedded(server, n, texts).result;
    if r.Failed? {
      var k: nat, batch :| RefusedAt(server, r, k, batch);
      assert |batch| == 1 ==> batch == [batch[0]];
    }
  }

  /** The requests one packed call makes, in order. */
  function Requests(server: Server, n: nat, texts: seq<string>): seq<seq<string>>
    requires texts != []
    decreases |texts|, |texts[0]|
  {
    var r := Batch(server, n, texts);
    if r.Vectors? || !TooLarge(r.status) then [texts]
    else if |texts| > 1 then
      var mid := Middle(|texts|);
      var left := Packed(server, n + 1, texts[..mid]);
      var first := [texts] + Requests(server, n + 1, texts[..mid]);
      if left.result.Failed? then first else first + Requests(server, left.next, texts[mid..])
    else if |texts[0]| > MIN_EMBED_INPUT_CHARS then [texts] + Requests(server, n + 1, [Half(texts[0])])
    else [texts]
  }

  predicate Recoverable(r: Result) {
    r.Vectors? || TooLarge(r.status)
  }

  /** All requests but the last were accepted or turned down for size; the last one decides a failure. */
  ghost predicate StopsAtError(server: Server, n: nat, made: seq<seq<string>>, o: Outcome) {
    && made != [] && o.next == n + |made|
    && (forall k :: 0 <= k < |made| - 1 ==> Recoverable(Batch(server, n + k, made[k])))
    && (o.result.Vectors? ==> Recoverable(Batch(server, n + |made| - 1, made[|made| - 1])))
    && (o.result.Failed? ==> Batch(server, n + |made| - 1, made[|made| - 1]) == o.result)
  }

  /** An error that is not about size ends the call at once and comes out unchanged. */
  lemma {:induction false} OtherErrorsComeOut(server: Server, n: nat, texts: seq<string>)
    requires texts != []
    ensures StopsAtError(server, n, Requests(server, n, texts), Packed(server, n, texts))
    decreases |texts|, |texts[0]|
  {
    hide Batch;
    var r := Batch(server, n, texts);
    if r.Failed? && TooLarge(r.status) {
      if |texts| > 1 {
        var mid := Middle(|texts|);
        OtherErrorsComeOut(server, n + 1, texts[..mid]);
        var left := Packed(server, n + 1, texts[..mid]);
        var first := Requests(server, n + 1, texts[..mid]);
        OneRequestThen(server, n, texts, first, left);
        if left.result.Vectors? {
          OtherErrorsComeOut(server, left.next, texts[mid..]);
          OneCallThen(server, n, [texts] + first, left, Requests(server, left.next, texts[mid..]),
            Packed(server, left.next, texts[mid..]));
        }
      } else if |texts[0]| > MIN_EMBED_INPUT_CHARS {
        OtherErrorsComeOut(server, n + 1, [Half(texts[0])]);
        OneRequestThen(server, n, texts, Requests(server, n + 1, [Half(texts[0])]),
          Packed(server, n + 1, [Half(texts[0])]));
      }
    }
  }

  lemma OneRequestThen(server: Server, n: nat, texts: seq<string>, made: seq<seq<string>>, o: Outcome)
    requires Recoverable(Batch(server, n, texts)) && StopsAtError(server, n + 1, made, o)
    ensures StopsAtError(server, n, [texts] + made, o)
  {
    hide Batch;
    var all := [texts] + made;
    forall k | 0 <= k < |all| - 1 ensures Recoverable(Batch(server, n + k, all[k])) {
      if k > 0 { assert Recoverable(Batch(server, (n + 1) + (k - 1), made[k - 1])); }
    }
  }

  lemma OneCallThen(server: Server, n: nat, made: seq<seq<string>>, o: Outcome, more: seq<seq<string>>, p: Outcome)
    requires StopsAtError(server, n, made, o) && o.result.Vectors? && StopsAtError(server, o.next, more, p)
    ensures forall vectors :: p.result.Vectors? ==>
            StopsAtError(server, n, made + more, Outcome(Vectors(vectors), p.next))
    ensures p.result.Failed? ==> StopsAtError(server, n, made + more, p)
  {
    hide Batch;
    var all := made + more;
    forall k | 0 <= k < |all| - 1 ensures Recoverable(Batch(server, n + k, all[k])) {
      if k >= |made| { assert Recoverable(Batch(server, o.next + (k - |made|), more[k - |made|])); }
    }
  }

  ghost predicate TurnedDown(reply: Reply) {
    reply.Refused? && (reply.status == Some(400) || reply.status == Some(413))
  }

  /**
   * A request is repeated only when it is turned down with status 400 or 413: a batch by its first
   * half, the middle text included, and a single text of more than 512 characters by its first half,
   * but no less than 512 of them.
   */
  lemma {:induction false} RetriesAreTold(server: Server, n: nat, texts: seq<string>)
    requires texts != []
    ensures var made := Requests(server, n, texts);
            && made != [] && made[0] == texts
            && (|made| > 1 <==> TurnedDown(server(n, texts)) && (|texts| > 1 || |texts[0]| > 512))
            && (|made| > 1 && |texts| > 1 ==>
                  2 * |made[1]| - |texts| in {0, 1} && made[1] <= texts)
            && (|made| > 1 && |texts| == 1 ==>
                  |made[1]| == 1 && made[1][0] <= texts[0] && made[1..] == Requests(server, n + 1, made[1]) &&
                  |made[1][0]| == if |texts[0]| < 1024 then 512 else |texts[0]| / 2)
  {
    hide Batch;
    BatchIsTurnedDown(server, n, texts);
    var r := Batch(server, n, texts);
    if r.Failed? && TooLarge(r.status) {
      if |texts| > 1 {
        StartsWith(server, n + 1, texts[..Middle(|texts|)]);
      } else if |texts[0]| > MIN_EMBED_INPUT_CHARS {
        StartsWith(server, n + 1, [Half(texts[0])]);
      }
    }
  }

  lemma BatchIsTurnedDown(server: Server, n: nat, texts: seq<string>)
    ensures Batch(server, n, texts).Failed? && TooLarge(Batch(server, n, texts).status) <==>
            TurnedDown(server(n, texts))
  {
  }

  lemma StartsWith(server: Server, n: nat, texts: seq<string>)
    requires texts != []
    ensures Requests(server, n, texts) != [] && Requests(server, n, texts)[0] == texts
  {
    hide Batch;
  }

  /** A request is closed only over a text that would have taken it past 6000 characters. */
  ghost predicate ClosedFull(batches: seq<seq<string>>) {
    forall k {:trigger batches[k]} :: 0 <= k && k + 1 < |batches| && batches[k + 1] != [] ==>
      Chars(batches[k]) + |batches[k + 1][0]| > 6000
  }

  lemma {:induction false} PackIsGreedy(texts: seq<string>)
    requires texts != []
    ensures ClosedFull(Pack(texts).closed + [Pack(texts).batch])
  {
    hide Chars;
    var n := |texts| - 1;
    var p, q := Pack(texts[..n]), Pack(texts);
    if n > 0 {
      PackIsGreedy(texts[..n]);
      var before, all := p.closed + [p.batch], q.closed + [q.batch];
      forall k | 0 <= k && k + 1 < |all| ensures Chars(all[k]) + |all[k + 1][0]| > 6000 {
        if k + 1 < |before| { assert all[k] == before[k] && all[k + 1][0] == before[k + 1][0]; }
      }
    }
  }

  // --- rows may come in any order ------------------------------------------------------------------------

  /** Rows carry the positions of the inputs, each once, in whatever order. */
  ghost predicate Indexed(data: seq<Row>) {
    && (forall i, j :: 0 <= i < j < |data| ==> data[i].index != data[j].index)
    && (forall row :: row in data ==> 0 <= row.index < |data|)
  }

  /** Sorting by index puts the answer to input `i` at place `i`. */
  lemma SortRestoresInputOrder(data: seq<Row>, i: nat)
    requires Indexed(data) && i < |data|
    ensures |SortBy(data, ByIndex)| == |data| && SortBy(data, ByIndex)[i].index == i
  {
    var sorted := SortBy(data, ByIndex);
    SortKeeps(data, ByIndex);
    SortSorts(data, ByIndex);
    SortMembers(data, ByIndex);
    SortNoRepeats(data, ByIndex) by { assert NoRepeats(data); }
    forall a, b | 0 <= a < b < |sorted| ensures sorted[a].index < sorted[b].index {
      assert !ByIndex(sorted[b], sorted[a]);
      if sorted[a].index == sorted[b].index { SameIndexSameRow(data, sorted[a], sorted[b]); }
    }
    Ascending(sorted, i);
  }

  lemma SameIndexSameRow(data: seq<Row>, a: Row, b: Row)
    requires Indexed(data) && a in data && b in data && a.index == b.index
    ensures a == b
  {
  }

  lemma {:induction false} AtLeast(sorted: seq<Row>, i: nat)
    requires i < |sorted| && forall a, b :: 0 <= a < b < |sorted| ==> sorted[a].index < sorted[b].index
    requires sorted[0].index >= 0
    ensures sorted[i].index >= i
  {
    if i > 0 { AtLeast(sorted, i - 1); }
  }

  lemma {:induction false} AtMost(sorted: seq<Row>, i: nat)
    requires i < |sorted| && forall a, b :: 0 <= a < b < |sorted| ==> sorted[a].index < sorted[b].index
    requires sorted[|sorted| - 1].index < |sorted|
    ensures sorted[i].index <= i
    decreases |sorted| - i
  {
    if i < |sorted| - 1 { AtMost(sorted, i + 1); }
  }

  lemma Ascending(sorted: seq<Row>, i: nat)
    requires i < |sorted| && forall a, b :: 0 <= a < b < |sorted| ==> sorted[a].index < sorted[b].index
    requires forall row :: row in sorted ==> 0 <= row.index < |sorted|
    ensures sorted[i].index == i
  {
    AtLeast(sorted, i);
    AtMost(sorted, i);
  }
}
