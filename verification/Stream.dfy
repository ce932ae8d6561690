/**
 The Read closures of batched records: a body that arrives in chunks of any size is cut into records
 again, through a deque that the receiving thread fills and the reading thread empties.
 */
module Stream {
  import opened Wrappers
  import opened Text
  import opened Batches

  // The shared deque; None is the end of the stream.
  type Queue = seq<Option<string>>

  function Bytes(chunk: Option<string>): string {
    if chunk.Some? then chunk.value else ""
  }

  /** The bytes that wait in the deque. */
  function Pending(queue: Queue): string {
    if queue == [] then ""
    else Bytes(queue[0]) + Pending(queue[1..])
  }

  lemma {:induction false} PendingAppend(queue: Queue, item: Option<string>)
    ensures Pending(queue + [item]) == Pending(queue) + Bytes(item)
  {
    if queue == [] {
      assert queue + [item] == [item] && Pending([item][1..]) == "";
    } else {
      assert (queue + [item])[1..] == queue[1..] + [item];
      PendingAppend(queue[1..], item);
      ConcatAssociative(Bytes(queue[0]), Pending(queue[1..]), Bytes(item));
    }
  }

  // ---- One locked section of Read ----

  /** What is taken out of the deque, and what stays in it. */
  datatype Taken = Taken(chunk: Option<string>, rest: Queue)

  /**
   The front of the deque, cut to the room that is left in the record; what is too much goes back to the
   front. An empty deque gives an empty chunk.
   */
  function Take(queue: Queue, room: nat): Taken {
    if queue == [] then Taken(Some(""), [])
    else if queue[0].Some? && |queue[0].value| > room then
      Taken(Some(queue[0].value[..room]), [Some(queue[0].value[room..])] + queue[1..])
    else
      Taken(queue[0], queue[1..])
  }

  /**
   Nothing is lost or reordered, no more than the room is taken, and nothing is put back unless the room is filled.
   */
  lemma {:induction false} TakeConserves(queue: Queue, room: nat)
    ensures var t := Take(queue, room);
            && Bytes(t.chunk) + Pending(t.rest) == Pending(queue)
            && |Bytes(t.chunk)| <= room
            && (queue != [] ==> |t.rest| < |queue| || |Bytes(t.chunk)| == room < |Pending(queue)|)
  {
    if queue != [] && queue[0].Some? && |queue[0].value| > room {
      var whole, back := queue[0].value, Some(queue[0].value[room..]);
      assert ([back] + queue[1..])[1..] == queue[1..];
      assert whole == whole[..room] + whole[room..];
      ConcatAssociative(whole[..room], whole[room..], Pending(queue[1..]));
    }
  }

  /** The end of the stream is the last item, if it is there at all. */
  predicate EndsLast(queue: Queue) {
    forall i :: 0 <= i < |queue| - 1 ==> queue[i].Some?
  }

  predicate HasEnd(queue: Queue) {
    queue != [] && queue[|queue| - 1].None?
  }

  lemma {:induction false} TakeKeepsEnd(queue: Queue, room: nat)
    requires EndsLast(queue)
    ensures var t := Take(queue, room);
            && EndsLast(t.rest)
            && (HasEnd(t.rest) <==> HasEnd(queue) && t.chunk.Some?)
            && (t.chunk.None? ==> t.rest == [] && Pending(queue) == "")
  {
    if queue != [] && queue[0].None? {
      assert queue == [None];
    }
  }

  lemma {:induction false} FlattenOne(parts: seq<string>, part: string)
    ensures Flatten(parts + [part]) == Flatten(parts) + part
  {
    FlattenAppend(parts, [part]);
    assert Flatten([part]) == part;
  }

  // ---- The closure ----

  // Whether the callback goes on after its k-th chunk.
  type Accept = nat -> bool

  /** The callback was content with its first n chunks. */
  predicate Agreed(accept: Accept, n: int) {
    forall k :: 0 <= k < n ==> accept(k)
  }

  /** Handing on what was taken keeps the total. */
  lemma {:induction false} HandOver(all: string, given: seq<string>, waiting: string, chunk: string, rest: string)
    requires all == Flatten(given) + waiting && waiting == chunk + rest
    ensures all == Flatten(given + [chunk]) + rest && |Flatten(given + [chunk])| == |Flatten(given)| + |chunk|
  {
    FlattenOne(given, chunk);
    ConcatAssociative(Flatten(given), chunk, rest);
  }

  lemma {:induction false} NothingInFront(rest: string)
    ensures "" + rest == rest && Flatten([]) + rest == rest
  {
  }

  lemma {:induction false} ClipPrefix(all: string, front: string, rest: string, size: nat)
    requires all == front + rest && |front| <= size && (|front| == size || rest == "")
    ensures front == Clip(all, 0, size)
  {
  }

  class ChunkDeque {
    var chunks: Queue

    constructor ()
      ensures chunks == []
    {
      chunks := [];
    }

    /** The receiving thread appends a chunk, or the end of the stream. */
    method Append(item: Option<string>)
      modifies this
      ensures chunks == old(chunks) + [item]
    {
      chunks := chunks + [item];
    }

    /** The locked section. */
    method Poll(room: nat) returns (chunk: Option<string>)
      modifies this
      ensures Taken(chunk, chunks) == Take(old(chunks), room)
    {
      chunk := Some("");
      if chunks != [] {
        chunk := chunks[0];
        chunks := chunks[1..];
        if chunk.Some? && |chunk.value| > room {
          var tmp := chunk.value[..room];
          chunks := [Some(chunk.value[room..])] + chunks;
          chunk := Some(tmp);
        }
      }
    }

    /** What the locked section does to the bytes and to the end of a stream that has arrived. */
    method PollEnded(room: nat) returns (chunk: Option<string>)
      requires EndsLast(chunks) && HasEnd(chunks)
      modifies this
      ensures old(Pending(chunks)) == Bytes(chunk) + Pending(chunks) && |Bytes(chunk)| <= room
      ensures |chunks| < |old(chunks)| || |Bytes(chunk)| == room < |old(Pending(chunks))|
      ensures EndsLast(chunks) && (chunk.Some? ==> HasEnd(chunks))
      ensures chunk.None? ==> Pending(chunks) == ""
    {
      TakeConserves(chunks, room);
      TakeKeepsEnd(chunks, room);
      chunk := Poll(room);
    }

    /** One round of the loop in Read: whether it goes on, and what the callback has been given by then. */
    method ReadRound(size: nat, accept: Accept, given: seq<string>, total: nat, ghost all: string)
      returns (more: bool, after: seq<string>, sum: nat)
      requires EndsLast(chunks) && HasEnd(chunks)
      requires all == Flatten(given) + Pending(chunks) && Agreed(accept, |given|) && total == |Flatten(given)|
      requires if size > 0 then total < size else all == ""
      modifies this
      ensures all == Flatten(after) + Pending(chunks) && sum == |Flatten(after)| <= size
      ensures Agreed(accept, |after| - 1)
      ensures more ==> EndsLast(chunks) && HasEnd(chunks) && |chunks| < |old(chunks)|
      ensures more ==> Agreed(accept, |after|) && (size > 0 ==> sum < size)
      ensures !more && Agreed(accept, |after|) ==> sum == size || Pending(chunks) == ""
    {
      ghost var waiting := Pending(chunks);
      var chunk := PollEnded(size - total);
      if chunk.None? {
        NothingInFront(Pending(chunks));
        return false, given, total;
      }
      if chunk.value == "" {
        NothingInFront(Pending(chunks));
        return true, given, total;
      }
      HandOver(all, given, waiting, chunk.value, Pending(chunks));
      after := given + [chunk.value];
      sum := total + |chunk.value|;
      more := accept(|given|) && sum < size;
    }

    /**
     Read for a record of the given size, after the whole stream has arrived. The callback is given the next
     bytes, in order, up to the size of the record or the end of the stream, unless it refuses to go on; the
     rest stays in the deque.
     */
    method Read(size: nat, accept: Accept) returns (given: seq<string>)
      requires EndsLast(chunks) && HasEnd(chunks)
      requires size > 0 || Pending(chunks) == ""
      modifies this
      ensures Flatten(given) + Pending(chunks) == old(Pending(chunks))
      ensures |Flatten(given)| <= size && Agreed(accept, |given| - 1)
      ensures Agreed(accept, |given|) ==> Flatten(given) == Clip(old(Pending(chunks)), 0, size)
    {
      given := [];
      ghost var all := Pending(chunks);
      NothingInFront(all);
      var total := 0;
      var more := true;
      while more
        invariant all == Flatten(given) + Pending(chunks) && total == |Flatten(given)| <= size
        invariant Agreed(accept, |given| - 1)
        invariant more ==> EndsLast(chunks) && HasEnd(chunks) && Agreed(accept, |given|)
        invariant more ==> if size > 0 then total < size else all == ""
        invariant !more && Agreed(accept, |given|) ==> total == size || Pending(chunks) == ""
        decreases more, |chunks|
      {
        more, given, total := ReadRound(size, accept, given, total, all);
      }
      if Agreed(accept, |given|) {
        ClipPrefix(all, Flatten(given), Pending(chunks), size);
      }
    }
  }
}
