/** The content provider of HttpClient::Post, and the loop in which httplib calls it. */
module Upload {
  import opened Wrappers
  import opened Text
  import opened Ordering
  import opened Batches

  // kMaxChunkSize
  const MAX_CHUNK_SIZE: nat := 512_000

  /** What a WriteCallback returns. */
  datatype Answer = Answer(ok: bool, data: string)

  // The loop never asks twice for one offset, so a function stands for any callback, also for one with state.
  type WriteCallback = (nat, nat) -> Answer

  // The size that httplib asks for at an offset.
  type Asks = nat -> nat

  /** httplib asks for at least one byte and at most for what is left. */
  ghost predicate FairAsks(asks: Asks, total: nat) {
    forall offset: nat :: offset < total ==> 1 <= asks(offset) <= total - offset
  }

  /** The provider: what it writes to the sink, or None to abort the request. */
  function Provide(callback: WriteCallback, offset: nat, size: nat): (chunk: Option<string>)
    requires size > 0
    ensures chunk.Some? ==> chunk.value != "" && |chunk.value| <= size
    ensures chunk.None? <==> Refuses(callback, offset, size)
  {
    var clipped := Min(size, MAX_CHUNK_SIZE);
    var answer := callback(offset, clipped);
    if !answer.ok || answer.data == "" then None
    else Some(answer.data[..Min(|answer.data|, clipped)])
  }

  /** The callback stops, or has nothing to send. */
  predicate Refuses(callback: WriteCallback, offset: nat, size: nat) {
    var answer := callback(offset, Min(size, MAX_CHUNK_SIZE));
    !answer.ok || answer.data == ""
  }

  /**
   * One chunk has at most 512000 bytes. A callback that answers with as many bytes as it is asked for sends that
   * many, and one that answers with more is cut to them.
   */
  lemma ChunkIsBounded(callback: WriteCallback, offset: nat, size: nat)
    requires size > 0
    ensures var asked := if size <= 512_000 then size else 512_000;
            var answer := callback(offset, asked);
            answer.ok && |answer.data| >= asked ==> Provide(callback, offset, size) == Some(answer.data[..asked])
    ensures Provide(callback, offset, size).Some? ==> |Provide(callback, offset, size).value| <= 512_000
  {
  }

  /** What reached the sink, and whether that is the whole content. */
  datatype Outcome = Outcome(sent: string, complete: bool)

  function Before(chunk: string, rest: Outcome): Outcome {
    Outcome(chunk + rest.sent, rest.complete)
  }

  lemma {:induction false} BeforeTwice(a: string, b: string, rest: Outcome)
    ensures Before(a, Before(b, rest)) == Before(a + b, rest)
    ensures Before("", rest) == rest
    ensures Before(a, Outcome("", rest.complete)) == Outcome(a, rest.complete)
  {
    assert a + (b + rest.sent) == a + b + rest.sent;
    assert "" + rest.sent == rest.sent;
    assert a + "" == a;
  }

  function Transfer(callback: WriteCallback, asks: Asks, total: nat, offset: nat): Outcome
    requires FairAsks(asks, total) && offset <= total
    decreases total - offset
  {
    if offset == total then Outcome("", true)
    else
      var chunk := Provide(callback, offset, asks(offset));
      if chunk.None? then Outcome("", false)
      else Before(chunk.value, Transfer(callback, asks, total, offset + |chunk.value|))
  }

  /** The offsets for which the callback is asked. */
  function AskedAt(callback: WriteCallback, asks: Asks, total: nat, offset: nat): seq<nat>
    requires FairAsks(asks, total) && offset <= total
    decreases total - offset
  {
    if offset == total then []
    else
      var chunk := Provide(callback, offset, asks(offset));
      [offset] + if chunk.None? then [] else AskedAt(callback, asks, total, offset + |chunk.value|)
  }

  /** The remaining length shrinks with every chunk, because empty chunks abort. */
  method Post(total: nat, callback: WriteCallback, asks: Asks) returns (sent: string, complete: bool)
    requires FairAsks(asks, total)
    ensures Outcome(sent, complete) == Transfer(callback, asks, total, 0)
  {
    sent := "";
    var offset := 0;
    ghost var all := Transfer(callback, asks, total, 0);
    BeforeTwice("", "", all);
    while offset < total
      invariant offset <= total
      invariant all == Before(sent, Transfer(callback, asks, total, offset))
      decreases total - offset
    {
      var chunk := Provide(callback, offset, asks(offset));
      if chunk.None? {
        BeforeTwice(sent, "", Outcome("", false));
        return sent, false;
      }
      BeforeTwice(sent, chunk.value, Transfer(callback, asks, total, offset + |chunk.value|));
      sent := sent + chunk.value;
      offset := offset + |chunk.value|;
    }
    BeforeTwice(sent, "", Outcome("", true));
    return sent, true;
  }

  /** The callback refused none of the first n questions. */
  predicate Answered(callback: WriteCallback, asks: Asks, asked: seq<nat>, n: nat)
    requires n <= |asked|
  {
    forall k :: 0 <= k < n ==> !Refuses(callback, asked[k], asks(asked[k]))
  }

  lemma {:induction false} AnsweredFirst(callback: WriteCallback, asks: Asks, first: nat, rest: seq<nat>, n: nat)
    requires n <= |rest|
    ensures Answered(callback, asks, [first] + rest, n + 1)
            <==> !Refuses(callback, first, asks(first)) && Answered(callback, asks, rest, n)
  {
    var asked := [first] + rest;
    assert forall k :: 0 <= k < |rest| ==> rest[k] == asked[k + 1];
    if Answered(callback, asks, asked, n + 1) {
      forall k | 0 <= k < n ensures !Refuses(callback, rest[k], asks(rest[k])) {
        assert !Refuses(callback, asked[k + 1], asks(asked[k + 1]));
      }
      assert !Refuses(callback, asked[0], asks(asked[0]));
    }
  }

  /** All questions were answered if the request completes; otherwise the last one alone was refused. */
  predicate EndsOnRefusal(callback: WriteCallback, asks: Asks, asked: seq<nat>, complete: bool) {
    && (complete <==> Answered(callback, asks, asked, |asked|))
    && (asked != [] ==> Answered(callback, asks, asked, |asked| - 1))
  }

  /** A question that is not refused, in front of others. */
  lemma {:induction false} AnsweredAll(
    callback: WriteCallback, asks: Asks, first: nat, rest: seq<nat>, complete: bool
  )
    requires !Refuses(callback, first, asks(first)) && EndsOnRefusal(callback, asks, rest, complete)
    ensures EndsOnRefusal(callback, asks, [first] + rest, complete)
  {
    AnsweredFirst(callback, asks, first, rest, |rest|);
    if rest != [] {
      AnsweredFirst(callback, asks, first, rest, |rest| - 1);
    }
  }

  /** What one question adds to those after it. */
  lemma {:induction false} AskOnce(callback: WriteCallback, asks: Asks, total: nat, offset: nat)
    requires FairAsks(asks, total) && offset < total
    ensures var chunk := Provide(callback, offset, asks(offset));
            if chunk.None? then
              AskedAt(callback, asks, total, offset) == [offset] && !Transfer(callback, asks, total, offset).complete
            else
              var next := offset + |chunk.value|;
              && AskedAt(callback, asks, total, offset) == [offset] + AskedAt(callback, asks, total, next)
              && Transfer(callback, asks, total, offset).complete == Transfer(callback, asks, total, next).complete
  {
    assert [offset] + [] == [offset];
  }

  lemma {:induction false} RefusedOnce(callback: WriteCallback, asks: Asks, offset: nat)
    requires Refuses(callback, offset, asks(offset))
    ensures EndsOnRefusal(callback, asks, [offset], false)
  {
    assert [offset][0] == offset;
  }

  lemma {:induction false} EndsRight(callback: WriteCallback, asks: Asks, total: nat, offset: nat)
    requires FairAsks(asks, total) && offset <= total
    ensures EndsOnRefusal(
              callback, asks, AskedAt(callback, asks, total, offset), Transfer(callback, asks, total, offset).complete
            )
    decreases total - offset
  {
    if offset < total {
      AskOnce(callback, asks, total, offset);
      var chunk := Provide(callback, offset, asks(offset));
      if chunk.Some? {
        var next := offset + |chunk.value|;
        EndsRight(callback, asks, total, next);
        AnsweredAll(callback, asks, offset, AskedAt(callback, asks, total, next),
                    Transfer(callback, asks, total, next).complete);
      } else {
        RefusedOnce(callback, asks, offset);
      }
    }
  }

  /** The request is aborted exactly when the callback refuses an offset it is asked for, which then is the last one. */
  lemma {:induction false} AbortsExactlyOnRefusal(callback: WriteCallback, asks: Asks, total: nat, offset: nat)
    requires FairAsks(asks, total) && offset <= total
    ensures var asked := AskedAt(callback, asks, total, offset);
            && (Transfer(callback, asks, total, offset).complete <==> Answered(callback, asks, asked, |asked|))
            && (asked != [] ==> Answered(callback, asks, asked, |asked| - 1))
  {
    EndsRight(callback, asks, total, offset);
  }

  /**
   A callback for a blob: it may refuse, but the bytes it gives, as far as they were asked for, are those of
   the blob at the offset. A chunk may be shorter or longer than what was asked for.
   */
  ghost predicate Tells(callback: WriteCallback, blob: string) {
    forall offset: nat, size: nat :: offset < |blob| && 1 <= size <= |blob| - offset && size <= MAX_CHUNK_SIZE ==>
      var data := callback(offset, size).data;
      At(blob, offset, data[..Min(|data|, size)])
  }

  lemma {:induction false} ChunkTells(callback: WriteCallback, blob: string, offset: nat, size: nat)
    requires Tells(callback, blob) && offset < |blob| && 1 <= size <= |blob| - offset
    ensures var chunk := Provide(callback, offset, size); chunk.Some? ==> At(blob, offset, chunk.value)
  {
    var clipped := Min(size, MAX_CHUNK_SIZE);
    assert clipped <= MAX_CHUNK_SIZE;
    var data := callback(offset, clipped).data;
    assert At(blob, offset, data[..Min(|data|, clipped)]);
  }

  /**
   What is sent is always a piece of the blob at its place, and the whole rest of it exactly when the request
   completes.
   */
  lemma {:induction false} SentIsBlob(callback: WriteCallback, blob: string, asks: Asks, offset: nat)
    requires FairAsks(asks, |blob|) && Tells(callback, blob) && offset <= |blob|
    ensures var outcome := Transfer(callback, asks, |blob|, offset);
            At(blob, offset, outcome.sent) && (outcome.complete <==> offset + |outcome.sent| == |blob|)
    decreases |blob| - offset
  {
    if offset < |blob| {
      var chunk := Provide(callback, offset, asks(offset));
      if chunk.Some? {
        ChunkTells(callback, blob, offset, asks(offset));
        SentIsBlob(callback, blob, asks, offset + |chunk.value|);
      }
    }
  }

  /** The bytes written are the blob exactly when the callback refuses none of the offsets it is asked for. */
  lemma {:induction false} UploadIsExact(callback: WriteCallback, blob: string, asks: Asks)
    requires FairAsks(asks, |blob|) && Tells(callback, blob)
    ensures var asked := AskedAt(callback, asks, |blob|, 0);
            Transfer(callback, asks, |blob|, 0).sent == blob
            <==> Answered(callback, asks, asked, |asked|)
  {
    SentIsBlob(callback, blob, asks, 0);
    AbortsExactlyOnRefusal(callback, asks, |blob|, 0);
  }

  /** A callback that answers every question about its blob. */
  ghost predicate AlwaysAnswers(callback: WriteCallback, blob: string) {
    forall offset: nat, size: nat :: offset < |blob| && 1 <= size ==>
      var answer := callback(offset, size);
      answer.ok && answer.data != ""
  }

  lemma {:induction false} WholeBlobIsSent(callback: WriteCallback, blob: string, asks: Asks, offset: nat)
    requires FairAsks(asks, |blob|) && Tells(callback, blob) && AlwaysAnswers(callback, blob) && offset <= |blob|
    ensures Transfer(callback, asks, |blob|, offset).complete
    ensures offset == 0 ==> Transfer(callback, asks, |blob|, offset).sent == blob
    decreases |blob| - offset
  {
    SentIsBlob(callback, blob, asks, offset);
    if offset < |blob| {
      var chunk := Provide(callback, offset, asks(offset));
      assert callback(offset, Min(asks(offset), MAX_CHUNK_SIZE)).ok;
      WholeBlobIsSent(callback, blob, asks, offset + |chunk.value|);
    }
  }

  // ---- The callbacks of the library ----

  /** The callback of WriteAll. */
  function WriteAllCallback(data: string): WriteCallback {
    (offset: nat, size: nat) => Answer(true, Clip(data, offset, size))
  }

  /** The callback of a batch, with the slice it takes. */
  function BatchCallback(records: seq<BatchRecord>, body: seq<string>, order: seq<nat>): WriteCallback
    requires ValidRecords(records, body) && ValidOrder(records, order)
  {
    var flat := Flatten(PayloadsIn(records, body, order));
    (offset: nat, size: nat) => Answer(true, if offset >= TotalSize(records) then "" else Clip(flat, offset, size))
  }

  method AnswerFromBatch(batch: Batch, order: seq<nat>, offset: nat, size: nat) returns (answer: Answer)
    requires batch.Valid() && ValidOrder(batch.records, order)
    ensures answer == BatchCallback(batch.records, batch.body, order)(offset, size)
  {
    var slice := batch.SliceInOrder(order, offset, size);
    return Answer(true, slice);
  }

  lemma {:induction false} WriteAllSendsAll(data: string, asks: Asks)
    requires FairAsks(asks, |data|)
    ensures Transfer(WriteAllCallback(data), asks, |data|, 0) == Outcome(data, true)
  {
    var callback := WriteAllCallback(data);
    forall offset: nat, size: nat | offset < |data| && 1 <= size
      ensures callback(offset, size).ok && callback(offset, size).data != ""
      ensures At(data, offset, callback(offset, size).data[..Min(|callback(offset, size).data|, size)])
    {
    }
    WholeBlobIsSent(callback, data, asks, 0);
  }

  /**
   A batch sent in any order of all its records never aborts, whatever sizes httplib asks for, and its body is
   the payloads in that order, as many bytes as the content length says.
   */
  lemma {:induction false} BatchSendsAll(records: seq<BatchRecord>, body: seq<string>, order: seq<nat>, asks: Asks)
    requires ValidRecords(records, body) && ValidOrder(records, order)
    requires NoDuplicates(order) && |order| == |records|
    requires FairAsks(asks, TotalSize(records))
    ensures Transfer(BatchCallback(records, body, order), asks, TotalSize(records), 0)
            == Outcome(Flatten(PayloadsIn(records, body, order)), true)
  {
    var flat := Flatten(PayloadsIn(records, body, order));
    var callback := BatchCallback(records, body, order);
    SliceIsInterval(records, body, order, 0, 0);
    forall offset: nat, size: nat | offset < |flat| && 1 <= size
      ensures callback(offset, size).ok && callback(offset, size).data != ""
      ensures At(flat, offset, callback(offset, size).data[..Min(|callback(offset, size).data|, size)])
    {
    }
    WholeBlobIsSent(callback, flat, asks, 0);
  }
}
