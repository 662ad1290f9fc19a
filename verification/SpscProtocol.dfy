/** The lock-free ring shared by one producer and one consumer, as the atomic steps of both sides.
    Indices are unbounded. The command queue's `dequeue` is the consumer with `max` = 1. */
module SpscProtocol {
  import opened Bits

  datatype Producer<T> =
    | ProducerIdle
    | LoadedWrite(item: T, write: nat)
    | LoadedBoth(item: T, write: nat, read: nat)
    | SlotWritten(item: T, write: nat)

  datatype Consumer<T> =
    | ConsumerIdle
    | LoadedRead(max: nat, read: nat)
    | Taking(read: nat, count: nat, taken: seq<T>)

  /** `accepted` and `delivered` record what `enqueue` accepted and what the consumer handed out. */
  datatype Ring<T> = Ring(slots: seq<T>, write: nat, read: nat, producer: Producer<T>, consumer: Consumer<T>,
                          refused: nat, offered: nat, accepted: seq<T>, delivered: seq<T>)

  /** One atomic access of one side. `Take` leaves any value in the slot it reads: the same one when
      the item is copied, an unspecified one when it is moved out. */
  datatype Action<T> =
    | StartEnqueue(item: T) | LoadReadIndex | Decide | CommitWrite
    | StartDequeue(max: nat) | LoadWriteIndex | Take(leftover: T) | CommitRead

  function Slot(index: nat, capacity: nat): (i: nat)
    requires capacity > 0
    ensures i < capacity
  {
    And(index, capacity - 1)
  }

  /** The full test `write - read >= capacity` in unsigned arithmetic. */
  predicate SeesFull(write: nat, read: nat, capacity: nat) {
    !(read <= write < read + capacity)
  }

  /** The step of an action; an action that is not next on its side changes nothing. */
  function Next<T>(s: Ring<T>, a: Action<T>): Ring<T> {
    match a
    case StartEnqueue(item) =>
      if !s.producer.ProducerIdle? then s
      else s.(producer := LoadedWrite(item, s.write), offered := s.offered + 1)
    case LoadReadIndex =>
      if !s.producer.LoadedWrite? then s
      else s.(producer := LoadedBoth(s.producer.item, s.producer.write, s.read))
    case Decide =>
      if !s.producer.LoadedBoth? then s
      else
        var p := s.producer;
        if SeesFull(p.write, p.read, |s.slots|) then s.(producer := ProducerIdle, refused := s.refused + 1)
        else s.(slots := s.slots[Slot(p.write, |s.slots|) := p.item], producer := SlotWritten(p.item, p.write))
    case CommitWrite =>
      if !s.producer.SlotWritten? then s
      else s.(write := s.producer.write + 1, producer := ProducerIdle, accepted := s.accepted + [s.producer.item])
    case StartDequeue(max) =>
      if !s.consumer.ConsumerIdle? then s else s.(consumer := LoadedRead(max, s.read))
    case LoadWriteIndex =>
      if !s.consumer.LoadedRead? then s
      else
        var c := s.consumer;
        if c.read >= s.write then s.(consumer := ConsumerIdle)
        else s.(consumer := Taking(c.read, if s.write - c.read < c.max then s.write - c.read else c.max, []))
    case Take(leftover) =>
      if !s.consumer.Taking? || |s.consumer.taken| >= s.consumer.count || |s.slots| == 0 then s
      else
        var c := s.consumer;
        var i := Slot(c.read + |c.taken|, |s.slots|);
        s.(slots := s.slots[i := leftover], consumer := c.(taken := c.taken + [s.slots[i]]))
    case CommitRead =>
      if !s.consumer.Taking? || |s.consumer.taken| != s.consumer.count then s
      else s.(read := s.consumer.read + s.consumer.count, consumer := ConsumerIdle,
              delivered := s.delivered + s.consumer.taken)
  }

  function Run<T>(s: Ring<T>, actions: seq<Action<T>>): Ring<T> {
    if actions == [] then s else Next(Run(s, actions[..|actions| - 1]), actions[|actions| - 1])
  }

  function Empty<T>(slots: seq<T>): Ring<T> {
    Ring(slots, 0, 0, ProducerIdle, ConsumerIdle, 0, 0, [], [])
  }

  // ---- invariant ----

  /** How many items of the current batch are already out of their slots. */
  function TakenCount<T>(s: Ring<T>): nat {
    if s.consumer.Taking? then |s.consumer.taken| else 0
  }

  /** Accepted, not yet taken items are in their slots. */
  ghost predicate LiveSlots<T>(s: Ring<T>)
    requires s.write <= s.read + |s.slots| && |s.accepted| == s.write
  {
    forall i | s.read + TakenCount(s) <= i < s.write :: s.slots[Slot(i, |s.slots|)] == s.accepted[i]
  }

  ghost predicate Inv<T>(s: Ring<T>) {
    var capacity := |s.slots|;
    && (capacity == 0 || IsPow2(capacity))
    && s.read <= s.write <= s.read + capacity
    && |s.accepted| == s.write
    && s.delivered == s.accepted[..s.read]
    && LiveSlots(s)
    && s.offered == |s.accepted| + s.refused + (if s.producer.ProducerIdle? then 0 else 1)
    && (match s.producer
        case ProducerIdle => true
        case LoadedWrite(_, w) => w == s.write
        case LoadedBoth(_, w, r) => w == s.write && r <= s.read && w <= r + capacity
        case SlotWritten(item, w) =>
          capacity > 0 && w == s.write && w < s.read + capacity && s.slots[Slot(w, capacity)] == item)
    && (match s.consumer
        case ConsumerIdle => true
        case LoadedRead(_, r) => r == s.read
        case Taking(r, count, taken) =>
          r == s.read && |taken| <= count && r + count <= s.write && taken == s.accepted[r..r + |taken|])
  }

  /** What the invariant says about the indices and the histories. */
  lemma InvFacts<T>(s: Ring<T>)
    requires Inv(s)
    ensures s.read <= s.write <= s.read + |s.slots|
    ensures |s.accepted| == s.write && s.delivered == s.accepted[..s.read]
    ensures s.consumer.Taking? ==>
      var c := s.consumer;
      && c.read == s.read && c.read + c.count <= s.write && |c.taken| <= c.count
      && c.taken == s.accepted[c.read..c.read + |c.taken|]
  {
  }

  /** The slot of an index is its remainder. */
  lemma SlotIs(index: nat, capacity: nat)
    requires IsPow2(capacity)
    ensures Slot(index, capacity) == index % capacity
  {
    var k: nat :| capacity == Pow2(k);
    MaskIsModulo(index, k);
  }

  /** Two indices less than a capacity apart use different slots. */
  lemma SlotsDiffer(i: nat, j: nat, capacity: nat)
    requires IsPow2(capacity) && i < j < i + capacity
    ensures Slot(i, capacity) != Slot(j, capacity)
  {
    SlotIs(i, capacity);
    SlotIs(j, capacity);
    SameRemainder(i, j, capacity);
  }

  /** The producer's slot is none of the live ones: nothing that was accepted and not taken is
      overwritten. */
  lemma WriteHitsNoLiveSlot<T>(s: Ring<T>)
    requires Inv(s) && s.producer.LoadedBoth?
    requires !SeesFull(s.producer.write, s.producer.read, |s.slots|)
    ensures forall i | s.read <= i < s.write :: Slot(i, |s.slots|) != Slot(s.producer.write, |s.slots|)
  {
    forall i | s.read <= i < s.write
      ensures Slot(i, |s.slots|) != Slot(s.producer.write, |s.slots|)
    {
      SlotsDiffer(i, s.write, |s.slots|);
    }
  }

  lemma DecideKeepsInv<T>(s: Ring<T>)
    requires Inv(s)
    ensures Inv(Next(s, Decide))
  {
    hide Slot;
    if s.producer.LoadedBoth? && !SeesFull(s.producer.write, s.producer.read, |s.slots|) {
      WriteHitsNoLiveSlot(s);
    }
  }

  lemma TakeKeepsInv<T>(s: Ring<T>, leftover: T)
    requires Inv(s)
    ensures Inv(Next(s, Take(leftover)))
  {
    hide Slot;
    if s.consumer.Taking? && |s.consumer.taken| < s.consumer.count {
      var at := s.consumer.read + |s.consumer.taken|;
      forall i | at < i <= s.write && i < s.read + |s.slots|
        ensures Slot(i, |s.slots|) != Slot(at, |s.slots|)
      {
        SlotsDiffer(at, i, |s.slots|);
      }
    }
  }

  lemma CommitWriteKeepsInv<T>(s: Ring<T>)
    requires Inv(s)
    ensures Inv(Next(s, CommitWrite))
  {
    hide Slot, IsPow2;
    if s.producer.SlotWritten? {
      assert (s.accepted + [s.producer.item])[..s.read] == s.accepted[..s.read];
    }
  }

  lemma CommitReadKeepsInv<T>(s: Ring<T>)
    requires Inv(s)
    ensures Inv(Next(s, CommitRead))
  {
    hide Slot, IsPow2;
  }

  lemma StartKeepsInv<T>(s: Ring<T>, item: T)
    requires Inv(s)
    ensures Inv(Next(s, StartEnqueue(item)))
  {
    hide Slot, IsPow2;
  }

  lemma LoadsKeepInv<T>(s: Ring<T>, max: nat)
    requires Inv(s)
    ensures Inv(Next(s, LoadReadIndex)) && Inv(Next(s, StartDequeue(max))) && Inv(Next(s, LoadWriteIndex))
  {
    hide Slot, IsPow2;
  }

  lemma NextKeepsInv<T>(s: Ring<T>, a: Action<T>)
    requires Inv(s)
    ensures Inv(Next(s, a))
  {
    hide Inv, Next;
    match a
    case Decide => DecideKeepsInv(s);
    case Take(leftover) => TakeKeepsInv(s, leftover);
    case CommitWrite => CommitWriteKeepsInv(s);
    case CommitRead => CommitReadKeepsInv(s);
    case StartEnqueue(item) => StartKeepsInv(s, item);
    case StartDequeue(max) => LoadsKeepInv(s, max);
    case LoadReadIndex => LoadsKeepInv(s, 0);
    case LoadWriteIndex => LoadsKeepInv(s, 0);
  }

  // ---- one side running alone ----

  predicate AtRest<T>(s: Ring<T>) {
    s.producer.ProducerIdle? && s.consumer.ConsumerIdle?
  }

  /** An enqueue whose four steps are not interrupted. */
  function Enqueued<T>(s: Ring<T>, item: T): Ring<T> {
    Next(Next(Next(Next(s, StartEnqueue(item)), LoadReadIndex), Decide), CommitWrite)
  }

  lemma EnqueuedAlone<T>(s: Ring<T>, item: T)
    requires Inv(s) && AtRest(s)
    ensures var t := Enqueued(s, item);
      && Inv(t) && AtRest(t) && t.read == s.read && t.delivered == s.delivered
      && if SeesFull(s.write, s.read, |s.slots|)
         then s.write - s.read == |s.slots| && t == s.(offered := s.offered + 1, refused := s.refused + 1)
         else |s.slots| > 0 && s.write - s.read < |s.slots|
              && t == s.(slots := s.slots[Slot(s.write, |s.slots|) := item], write := s.write + 1,
                         offered := s.offered + 1, accepted := s.accepted + [item])
  {
    hide Slot;
    var s1 := Next(s, StartEnqueue(item));
    var s2 := Next(s1, LoadReadIndex);
    var s3 := Next(s2, Decide);
    NextKeepsInv(s, StartEnqueue(item));
    NextKeepsInv(s1, LoadReadIndex);
    NextKeepsInv(s2, Decide);
    NextKeepsInv(s3, CommitWrite);
  }

  /** The first two steps of a batch: how many items the consumer will take. */
  function Started<T>(s: Ring<T>, max: nat): Ring<T> {
    Next(Next(s, StartDequeue(max)), LoadWriteIndex)
  }

  lemma StartedAlone<T>(s: Ring<T>, max: nat)
    requires Inv(s) && AtRest(s)
    ensures var t := Started(s, max);
      && Inv(t) && s.read <= s.write == |s.accepted|
      && t == if s.read == s.write then s
              else s.(consumer := Taking(s.read, if s.write - s.read < max then s.write - s.read else max, []))
  {
    hide Slot;
    NextKeepsInv(s, StartDequeue(max));
    NextKeepsInv(Next(s, StartDequeue(max)), LoadWriteIndex);
  }

  /** One item taken: it is the next accepted one. */
  lemma TakenNext<T>(s: Ring<T>, leftover: T)
    requires Inv(s) && s.consumer.Taking? && |s.consumer.taken| < s.consumer.count
    ensures var t, c := Next(s, Take(leftover)), s.consumer;
      && |s.slots| > 0 && c.read + |c.taken| < |s.accepted| && Inv(t)
      && var i := Slot(c.read + |c.taken|, |s.slots|);
      && s.slots[i] == s.accepted[c.read + |c.taken|]
      && t == s.(slots := s.slots[i := leftover], consumer := c.(taken := c.taken + [s.slots[i]]))
  {
    hide Slot;
    TakeKeepsInv(s, leftover);
  }

  /** The batch handed out. */
  lemma CommittedAlone<T>(s: Ring<T>)
    requires Inv(s) && s.consumer.Taking? && |s.consumer.taken| == s.consumer.count
    ensures var t, c := Next(s, CommitRead), s.consumer;
      && Inv(t) && s.read + c.count <= |s.accepted|
      && t == s.(read := s.read + c.count, consumer := ConsumerIdle, delivered := s.delivered + c.taken)
      && c.taken == s.accepted[s.read..s.read + c.count]
  {
    hide Slot;
    NextKeepsInv(s, CommitRead);
  }

  /** A dequeue of one item whose steps are not interrupted. */
  function Dequeued<T>(s: Ring<T>, item: T): Ring<T> {
    Next(Next(Started(s, 1), Take(item)), CommitRead)
  }

  lemma DequeuedAlone<T>(s: Ring<T>)
    requires Inv(s) && AtRest(s) && s.read < s.write
    ensures |s.slots| > 0 && s.read < |s.accepted|
    ensures var i, item := Slot(s.read, |s.slots|), s.accepted[s.read];
      && s.slots[i] == item && Inv(Dequeued(s, item))
      && Dequeued(s, item) == s.(read := s.read + 1, delivered := s.delivered + [item])
  {
    hide Slot;
    InvFacts(s);
    StartedAlone(s, 1);
    var t := Started(s, 1);
    var item := s.accepted[s.read];
    TakenNext(t, item);
    assert s.slots[Slot(s.read, |s.slots|) := item] == s.slots;
    CommittedAlone(Next(t, Take(item)));
  }

  /** Safety of every interleaving: however the steps of the two sides interleave, the delivered items
      are a prefix of the accepted ones, in order, and every offered item is accepted, refused or
      still under way. */
  lemma {:induction false} Safety<T>(slots: seq<T>, actions: seq<Action<T>>)
    requires |slots| == 0 || IsPow2(|slots|)
    ensures var s := Run(Empty(slots), actions);
      && Inv(s)
      && s.delivered <= s.accepted
      && s.offered == |s.accepted| + s.refused + (if s.producer.ProducerIdle? then 0 else 1)
  {
    hide Next;
    if actions != [] {
      var n := |actions| - 1;
      Safety(slots, actions[..n]);
      NextKeepsInv(Run(Empty(slots), actions[..n]), actions[n]);
    }
  }

  /** A refusal is exact: it is decided when the two observed indices are one full capacity apart, and
      the ring really was full at the moment the producer loaded the read index. */
  lemma RefusalExact<T>(s: Ring<T>)
    requires Inv(s) && s.producer.LoadedBoth?
    ensures Next(s, Decide).refused == s.refused + 1 <==> s.producer.write - s.producer.read == |s.slots|
    ensures Next(s, Decide).refused == s.refused || Next(s, Decide).slots == s.slots
  {
  }

  lemma LoadSeesFullRing<T>(s: Ring<T>)
    requires Inv(s) && s.producer.LoadedWrite?
    ensures var p := Next(s, LoadReadIndex).producer;
      SeesFull(p.write, p.read, |s.slots|) <==> |s.accepted| - |s.delivered| == |s.slots|
  {
  }

  /** Whatever the other side does, an item that is committed stays readable until it is delivered. */
  lemma {:induction false} AcceptedIsForever<T>(s: Ring<T>, actions: seq<Action<T>>)
    ensures s.accepted <= Run(s, actions).accepted && s.delivered <= Run(s, actions).delivered
  {
    if actions != [] {
      AcceptedIsForever(s, actions[..|actions| - 1]);
    }
  }
}
