/** The two ring buffers as objects. Each method runs the protocol's steps one after the other. */
module Rings {
  import opened Bits
  import opened SpscProtocol
  import opened Options

  method StoreAt<T>(slots: array<T>, i: nat, item: T)
    requires i < slots.Length
    modifies slots
    ensures slots[..] == old(slots[..])[i := item]
  {
    slots[i] := item;
  }

  lemma DropAppend<T>(items: seq<T>, item: T, n: nat)
    requires n <= |items|
    ensures (items + [item])[n..] == items[n..] + [item]
  {
  }

  lemma DropParts<T>(items: seq<T>, n: nat, k: nat)
    requires n + k <= |items|
    ensures items[n..] == items[n..n + k] + items[n + k..]
  {
  }

  class CommandQueue<T(0)> {
    const buffer: array<T>
    var writeIndex: nat
    var readIndex: nat
    ghost var refused: nat
    ghost var offered: nat
    ghost var accepted: seq<T>
    ghost var delivered: seq<T>

    /** The protocol state between two calls. */
    ghost function View(): Ring<T>
      reads this, buffer
    {
      Ring(buffer[..], writeIndex, readIndex, ProducerIdle, ConsumerIdle, refused, offered, accepted, delivered)
    }

    ghost predicate Valid()
      reads this, buffer
    {
      Inv(View())
    }

    /** The accepted items that were not delivered yet, oldest first. */
    ghost function Contents(): seq<T>
      requires Valid()
      reads this, buffer
    {
      accepted[readIndex..]
    }

    /** Asked for no capacity, it refuses everything. */
    constructor (requested: nat)
      ensures Valid() && fresh(buffer) && Contents() == []
      ensures requested <= buffer.Length && if requested == 0 then buffer.Length == 0 else IsPow2(buffer.Length)
    {
      var capacity := RoundUp(requested);
      buffer := new T[capacity];
      writeIndex, readIndex, refused, offered := 0, 0, 0, 0;
      accepted, delivered := [], [];
    }

    method Enqueue(item: T) returns (ok: bool)
      requires Valid()
      modifies this`writeIndex, this`refused, this`offered, this`accepted, buffer
      ensures Valid() && View() == Enqueued(old(View()), item)
      ensures var before := old(Contents());
        (ok <==> |before| < buffer.Length) && Contents() == if ok then before + [item] else before
    {
      ghost var s := View();
      InvFacts(s);
      EnqueuedAlone(s, item);
      hide Inv, Slot, Enqueued, SeesFull, Next, IsPow2;
      var write := writeIndex;
      var read := readIndex;
      offered := offered + 1;
      ok := !SeesFull(write, read, buffer.Length);
      if ok {
        DropAppend(accepted, item, readIndex);
        StoreAt(buffer, Slot(write, buffer.Length), item);
        writeIndex := write + 1;
        accepted := accepted + [item];
        assert View() == Enqueued(s, item);
      } else {
        refused := refused + 1;
      }
    }

    method Dequeue() returns (item: Option<T>)
      requires Valid()
      modifies this`readIndex, this`delivered
      ensures Valid() && View() == if item.None? then old(View()) else Dequeued(old(View()), item.value)
      ensures item.None? <==> old(Contents()) == []
      ensures item.None? ==> Contents() == [] && delivered == old(delivered)
      ensures item.Some? ==> old(Contents()) == [item.value] + Contents() && delivered == old(delivered) + [item.value]
    {
      InvFacts(View());
      hide Inv, Slot, Dequeued;
      var read := readIndex;
      var committed := writeIndex;
      if read >= committed {
        return None;
      }
      DequeuedAlone(View());
      var copied := buffer[Slot(read, buffer.Length)];
      readIndex := read + 1;
      delivered := delivered + [copied];
      return Some(copied);
    }

    method DequeueBatch(max: nat) returns (result: seq<T>)
      requires Valid()
      modifies this`readIndex, this`delivered
      ensures Valid()
      ensures old(Contents()) == result + Contents() && delivered == old(delivered) + result
      ensures |result| == if max < |old(Contents())| then max else |old(Contents())|
    {
      hide Inv, Dequeued, View, Contents, Valid;
      result := [];
      for i := 0 to max
        invariant |result| == i && Valid()
        invariant old(Contents()) == result + Contents() && delivered == old(delivered) + result
      {
        var item := Dequeue();
        if item.None? { break; }
        result := result + [item.value];
      }
    }

    method Drain() returns (result: seq<T>)
      requires Valid()
      modifies this`readIndex, this`delivered
      ensures Valid() && Contents() == []
      ensures result == old(Contents()) && delivered == old(delivered) + result
    {
      hide Inv, Dequeued, View, Contents, Valid;
      result := [];
      while true
        invariant Valid()
        invariant old(Contents()) == result + Contents() && delivered == old(delivered) + result
        decreases |Contents()|
      {
        var item := Dequeue();
        if item.None? { break; }
        result := result + [item.value];
      }
    }
  }

  class EventRingBuffer<T(0)> {
    const buffer: array<T>
    var writeIndex: nat
    var readIndex: nat
    var droppedCount: nat
    ghost var offered: nat
    ghost var accepted: seq<T>
    ghost var delivered: seq<T>

    ghost function View(): Ring<T>
      reads this, buffer
    {
      Ring(buffer[..], writeIndex, readIndex, ProducerIdle, ConsumerIdle, droppedCount, offered, accepted, delivered)
    }

    ghost predicate Valid()
      reads this, buffer
    {
      Inv(View())
    }

    ghost function Contents(): seq<T>
      requires Valid()
      reads this, buffer
    {
      accepted[readIndex..]
    }

    /** This buffer does not round: its capacity has to be a power of two. */
    constructor (capacity: nat)
      requires IsPow2(capacity)
      ensures Valid() && fresh(buffer) && buffer.Length == capacity && Contents() == [] && droppedCount == 0
    {
      buffer := new T[capacity];
      writeIndex, readIndex, droppedCount, offered := 0, 0, 0, 0;
      accepted, delivered := [], [];
    }

    method Enqueue(item: T) returns (ok: bool)
      requires Valid()
      modifies this`writeIndex, this`droppedCount, this`offered, this`accepted, buffer
      ensures Valid() && View() == Enqueued(old(View()), item)
      ensures var before := old(Contents());
        (ok <==> |before| < buffer.Length) && Contents() == if ok then before + [item] else before
      ensures droppedCount == old(droppedCount) + if ok then 0 else 1
    {
      ghost var s := View();
      InvFacts(s);
      EnqueuedAlone(s, item);
      hide Inv, Slot, Enqueued, SeesFull, Next, IsPow2;
      var write := writeIndex;
      var read := readIndex;
      offered := offered + 1;
      ok := !SeesFull(write, read, buffer.Length);
      if ok {
        DropAppend(accepted, item, readIndex);
        StoreAt(buffer, Slot(write, buffer.Length), item);
        writeIndex := write + 1;
        accepted := accepted + [item];
        assert View() == Enqueued(s, item);
      } else {
        droppedCount := droppedCount + 1;
      }
    }

    /** Moves a batch out; a slot that was moved out of holds an unspecified value afterwards. */
    method DequeueBatch(max: nat) returns (result: seq<T>)
      requires Valid()
      modifies this`readIndex, this`delivered, buffer
      ensures Valid()
      ensures old(Contents()) == result + Contents() && delivered == old(delivered) + result
      ensures |result| == if max < |old(Contents())| then max else |old(Contents())|
    {
      ghost var s := View();
      StartedAlone(s, max);
      hide Inv, Slot, Started, Next, SeesFull, IsPow2;
      result := [];
      var read := readIndex;
      var write := writeIndex;
      var available := write - read;
      if available != 0 {
        var count := if available < max then available else max;
        DropParts(accepted, read, count);
        s := Started(s, max);
        result, s := MoveOut(count, s);
        CommittedAlone(s);
        readIndex := read + count;
        delivered := delivered + result;
      }
    }

    /** The loop that moves `count` items out. */
    method MoveOut(count: nat, ghost start: Ring<T>) returns (result: seq<T>, ghost s: Ring<T>)
      requires Inv(start) && start.slots == buffer[..] && start.consumer == Taking(readIndex, count, [])
      modifies buffer
      ensures |result| == count
      ensures Inv(s) && s == start.(slots := buffer[..], consumer := Taking(readIndex, count, result))
    {
      hide Inv, Slot, Next;
      result, s := [], start;
      for i := 0 to count
        invariant |result| == i
        invariant Inv(s) && s == start.(slots := buffer[..], consumer := Taking(readIndex, count, result))
      {
        var leftover: T := *;
        TakenNext(s, leftover);
        var slot := Slot(readIndex + i, buffer.Length);
        result := result + [buffer[slot]];
        s := Next(s, Take(leftover));
        StoreAt(buffer, slot, leftover);
      }
    }
  }
}
