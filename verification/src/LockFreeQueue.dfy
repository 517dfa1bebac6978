/** The single-producer, single-consumer ring queue, one atomic step of a thread at a time. The two
    threads interleave in any way; memory is taken to be sequentially consistent, although the source
    updates the element count with relaxed operations. */
module LockFreeQueue {
  import opened ModArithmetic

  /** Where the producer is in push: it has seen room, holds a slot, has stored the value, has
      advanced the write index, and then counts the element. */
  datatype Producer<T> = Idle | SawRoom(value: T) | HasSlot(value: T, slot: nat) | Stored | Advanced

  /** Where the consumer is: it has seen an element, points at its slot, has read the value (it may
      read it again, as the gateway does), and, having advanced the read index, uncounts the element. */
  datatype Consumer<T> = Waiting | SawElement | Pointing(slot: nat) | Holding(slot: nat, value: T) | Retired

  /** The queue with its two threads, and the values stored and consumed so far. */
  datatype Queue<T> = Queue(
    buffer: seq<T>,
    nextIndexToRead: nat,
    nextIndexToWrite: nat,
    numElements: int,
    producer: Producer<T>,
    consumer: Consumer<T>,
    produced: seq<T>,
    consumed: seq<T>)

  datatype Action<T> =
    | CheckRoom(value: T) | TakeSlot | StoreValue | AdvanceWrite | CountElement
    | CheckElement | TakeElement | ReadValue | AdvanceRead | UncountElement

  predicate Initial<T(==)>(s: Queue<T>) {
    && s.buffer != [] && s.nextIndexToRead == s.nextIndexToWrite == s.numElements == 0
    && s.producer == Idle && s.consumer == Waiting && s.produced == s.consumed == []
  }

  predicate Enabled<T>(s: Queue<T>, a: Action<T>) {
    match a
    case CheckRoom(_) => s.producer.Idle?
    case TakeSlot => s.producer.SawRoom?
    case StoreValue => s.producer.HasSlot?
    case AdvanceWrite => s.producer.Stored?
    case CountElement => s.producer.Advanced?
    case CheckElement => s.consumer.Waiting?
    case TakeElement => s.consumer.SawElement?
    case ReadValue => s.consumer.Pointing? || s.consumer.Holding?
    case AdvanceRead => s.consumer.Holding?
    case UncountElement => s.consumer.Retired?
  }

  /** The slot after this one. */
  function Next(i: nat, n: nat): nat
    requires n > 0
  {
    (i + 1) % n
  }

  /** One atomic step. A check that fails ends the call: push returns false, pop returns nothing.
      (Storing and reading are written for any slot; InvHolds shows that slots are in range.) */
  function Step<T>(s: Queue<T>, a: Action<T>): Queue<T>
    requires Enabled(s, a) && s.buffer != []
  {
    match a
    case CheckRoom(v) => if s.numElements < |s.buffer| then s.(producer := SawRoom(v)) else s
    case TakeSlot => s.(producer := HasSlot(s.producer.value, s.nextIndexToWrite))
    case StoreValue =>
      s.(producer := Stored, produced := s.produced + [s.producer.value],
         buffer := if s.producer.slot < |s.buffer| then s.buffer[s.producer.slot := s.producer.value] else s.buffer)
    case AdvanceWrite => s.(producer := Advanced, nextIndexToWrite := Next(s.nextIndexToWrite, |s.buffer|))
    case CountElement => s.(producer := Idle, numElements := s.numElements + 1)
    case CheckElement => if s.numElements > 0 then s.(consumer := SawElement) else s
    case TakeElement => s.(consumer := Pointing(s.nextIndexToRead))
    case ReadValue =>
      var slot := s.consumer.slot;
      if slot < |s.buffer| then s.(consumer := Holding(slot, s.buffer[slot])) else s
    case AdvanceRead =>
      s.(consumer := Retired, consumed := s.consumed + [s.consumer.value],
         nextIndexToRead := Next(s.nextIndexToRead, |s.buffer|))
    case UncountElement => s.(consumer := Waiting, numElements := s.numElements - 1)
  }

  // ----- the invariant

  /** Values stored but not yet counted. */
  function Uncounted<T>(s: Queue<T>): nat { if s.producer.Stored? || s.producer.Advanced? then 1 else 0 }

  /** Values consumed but still counted. */
  function Lagging<T>(s: Queue<T>): nat { if s.consumer.Retired? then 1 else 0 }

  /** The slot of the i-th value. */
  function SlotOf(i: nat, n: nat): nat
    requires n > 0
  {
    i % n
  }

  /** The values not yet consumed are in their slots. */
  predicate KeepsValues<T(==)>(s: Queue<T>)
    requires s.buffer != []
  {
    forall i: nat {:trigger SlotOf(i, |s.buffer|)} :: |s.consumed| <= i < |s.produced| ==> s.buffer[SlotOf(i, |s.buffer|)] == s.produced[i]
  }

  predicate ProducerOk<T>(s: Queue<T>)
    requires s.buffer != []
  {
    match s.producer
    case SawRoom(_) => |s.produced| - |s.consumed| + Lagging(s) < |s.buffer|
    case HasSlot(_, slot) => |s.produced| - |s.consumed| + Lagging(s) < |s.buffer| && slot == SlotOf(|s.produced|, |s.buffer|)
    case _ => true
  }

  predicate ConsumerOk<T(==)>(s: Queue<T>)
    requires s.buffer != []
  {
    var available := |s.produced| - Uncounted(s);
    match s.consumer
    case SawElement => |s.consumed| < available
    case Pointing(slot) => |s.consumed| < available && slot == SlotOf(|s.consumed|, |s.buffer|)
    case Holding(slot, value) => |s.consumed| < available && slot == SlotOf(|s.consumed|, |s.buffer|) && value == s.produced[|s.consumed|]
    case _ => true
  }

  predicate Inv<T(==)>(s: Queue<T>) {
    && s.buffer != []
    && s.consumed <= s.produced
    && |s.consumed| + Uncounted(s) <= |s.produced|
    && |s.produced| - |s.consumed| + Lagging(s) <= |s.buffer|
    && s.numElements == |s.produced| - Uncounted(s) - |s.consumed| + Lagging(s)
    && 0 <= s.numElements <= |s.buffer|
    && s.nextIndexToRead == SlotOf(|s.consumed|, |s.buffer|)
    && (s.producer.Stored? ==> |s.produced| > 0)
    && s.nextIndexToWrite == (if s.producer.Stored? then SlotOf(|s.produced| - 1, |s.buffer|) else SlotOf(|s.produced|, |s.buffer|))
    && ProducerOk(s) && ConsumerOk(s) && KeepsValues(s)
  }

  /** The slot the producer is about to store into holds no value still to be consumed. */
  lemma FreeSlot<T>(s: Queue<T>, i: nat)
    requires Inv(s) && |s.produced| - |s.consumed| < |s.buffer| && |s.consumed| <= i < |s.produced|
    ensures SlotOf(i, |s.buffer|) != SlotOf(|s.produced|, |s.buffer|)
  {
    NearbyDiffer(i, |s.produced|, |s.buffer|);
  }

  lemma StoreKeepsInv<T>(s: Queue<T>)
    requires Inv(s) && Enabled(s, StoreValue)
    ensures Inv(Step(s, StoreValue))
  {
    var s' := Step(s, StoreValue);
    forall i: nat | |s'.consumed| <= i < |s'.produced|
      ensures s'.buffer[SlotOf(i, |s'.buffer|)] == s'.produced[i]
    {
      if i < |s.produced| {
        FreeSlot(s, i);
        assert s.buffer[SlotOf(i, |s.buffer|)] == s.produced[i];
      }
    }
  }

  lemma AdvanceWriteKeepsInv<T>(s: Queue<T>)
    requires Inv(s) && Enabled(s, AdvanceWrite)
    ensures Inv(Step(s, AdvanceWrite))
  {
    var s' := Step(s, AdvanceWrite);
    ModOfSuccessor(|s.produced| - 1, |s.buffer|);
    forall i: nat | |s'.consumed| <= i < |s'.produced|
      ensures s'.buffer[SlotOf(i, |s'.buffer|)] == s'.produced[i]
    {
      assert s.buffer[SlotOf(i, |s.buffer|)] == s.produced[i];
    }
  }

  lemma AdvanceReadKeepsInv<T>(s: Queue<T>)
    requires Inv(s) && Enabled(s, AdvanceRead)
    ensures Inv(Step(s, AdvanceRead))
  {
    var s' := Step(s, AdvanceRead);
    ModOfSuccessor(|s.consumed|, |s.buffer|);
    forall i: nat | |s'.consumed| <= i < |s'.produced|
      ensures s'.buffer[SlotOf(i, |s'.buffer|)] == s'.produced[i]
    {
      assert s.buffer[SlotOf(i, |s.buffer|)] == s.produced[i];
    }
  }

  lemma ReadKeepsInv<T>(s: Queue<T>)
    requires Inv(s) && Enabled(s, ReadValue)
    ensures Inv(Step(s, ReadValue))
  {
  }

  /** The producer's steps that touch neither the buffer nor an index. */
  lemma ProducerKeepsInv<T>(s: Queue<T>, a: Action<T>)
    requires Inv(s) && Enabled(s, a) && (a.CheckRoom? || a.TakeSlot? || a.CountElement?)
    ensures Inv(Step(s, a))
  {
  }

  /** The consumer's steps that touch neither the buffer nor an index. */
  lemma ConsumerKeepsInv<T>(s: Queue<T>, a: Action<T>)
    requires Inv(s) && Enabled(s, a) && (a.CheckElement? || a.TakeElement? || a.UncountElement?)
    ensures Inv(Step(s, a))
  {
    var s' := Step(s, a);
    assert s'.buffer == s.buffer && s'.produced == s.produced && s'.consumed == s.consumed;
    assert KeepsValues(s');
    assert ConsumerOk(s') && ProducerOk(s');
  }

  /** Every atomic step keeps the invariant. */
  lemma StepKeepsInv<T>(s: Queue<T>, a: Action<T>)
    requires Inv(s) && Enabled(s, a)
    ensures Inv(Step(s, a))
  {
    match a
    case StoreValue => StoreKeepsInv(s);
    case AdvanceWrite => AdvanceWriteKeepsInv(s);
    case AdvanceRead => AdvanceReadKeepsInv(s);
    case ReadValue => ReadKeepsInv(s);
    case CheckRoom(_) => ProducerKeepsInv(s, a);
    case TakeSlot => ProducerKeepsInv(s, a);
    case CountElement => ProducerKeepsInv(s, a);
    case _ => ConsumerKeepsInv(s, a);
  }

  // ----- executions

  /** States reached by taking these actions one after the other; each thread moves in its own order. */
  predicate Execution<T(==)>(states: seq<Queue<T>>, actions: seq<Action<T>>) {
    && |states| == |actions| + 1
    && Initial(states[0])
    && forall i :: 0 <= i < |actions| ==>
         states[i].buffer != [] && Enabled(states[i], actions[i]) && states[i + 1] == Step(states[i], actions[i])
  }

  lemma {:induction false} InvHolds<T>(states: seq<Queue<T>>, actions: seq<Action<T>>, n: nat)
    requires Execution(states, actions) && n < |states|
    ensures Inv(states[n])
  {
    if n > 0 {
      InvHolds(states, actions, n - 1);
      StepKeepsInv(states[n - 1], actions[n - 1]);
    }
  }

  /** In every state of every interleaving: what has been consumed is a prefix of what has been
      produced, and every value between the two is in its slot, unharmed. */
  lemma FifoWithoutLoss<T>(states: seq<Queue<T>>, actions: seq<Action<T>>, n: nat)
    requires Execution(states, actions) && n < |states|
    ensures var s := states[n];
            && s.buffer != [] && s.consumed <= s.produced
            && forall i: nat {:trigger SlotOf(i, |s.buffer|)} ::
                 |s.consumed| <= i < |s.produced| ==> s.buffer[SlotOf(i, |s.buffer|)] == s.produced[i]
  {
    InvHolds(states, actions, n);
  }

  /** Whenever the producer is about to store, its slot is in range, is not the one the consumer
      points at, and holds no value still to be consumed. */
  lemma ProducerNeverOverwrites<T>(states: seq<Queue<T>>, actions: seq<Action<T>>, n: nat)
    requires Execution(states, actions) && n < |states| && Enabled(states[n], StoreValue)
    ensures var s := states[n];
            && s.producer.slot < |s.buffer|
            && (s.consumer.Pointing? || s.consumer.Holding? ==> s.consumer.slot != s.producer.slot)
            && forall i: nat {:trigger SlotOf(i, |s.buffer|)} ::
                 |s.consumed| <= i < |s.produced| ==> SlotOf(i, |s.buffer|) != s.producer.slot
  {
    InvHolds(states, actions, n);
    var s := states[n];
    forall i: nat | |s.consumed| <= i < |s.produced|
      ensures SlotOf(i, |s.buffer|) != s.producer.slot
    {
      FreeSlot(s, i);
    }
  }

  /** Whenever the consumer reads, its slot holds the next value to consume, fully counted; and when
      it advances, the count it asserts to be positive is. */
  lemma ConsumerReadsNext<T>(states: seq<Queue<T>>, actions: seq<Action<T>>, n: nat)
    requires Execution(states, actions) && n < |states| && Enabled(states[n], ReadValue)
    ensures var s := states[n];
            && s.consumer.slot < |s.buffer| && |s.consumed| < |s.produced|
            && s.buffer[s.consumer.slot] == s.produced[|s.consumed|]
            && (s.consumer.Holding? ==> s.consumer.value == s.produced[|s.consumed|])
            && s.numElements > 0
  {
    InvHolds(states, actions, n);
    var s := states[n];
    assert s.buffer[SlotOf(|s.consumed|, |s.buffer|)] == s.produced[|s.consumed|];
  }

  /** push fails only when the buffer is full, but for one element the consumer is just retiring;
      pop fails only when every counted element has been consumed. */
  lemma FailuresAreHonest<T>(states: seq<Queue<T>>, actions: seq<Action<T>>, n: nat, v: T)
    requires Execution(states, actions) && n < |states|
    ensures var s := states[n];
            && (Enabled(s, CheckRoom(v)) && s.buffer != [] && Step(s, CheckRoom(v)) == s ==>
                  |s.produced| - |s.consumed| + Lagging(s) == |s.buffer|)
            && (Enabled(s, CheckElement) && s.buffer != [] && Step(s, CheckElement) == s ==>
                  |s.consumed| == |s.produced| - Uncounted(s))
  {
    InvHolds(states, actions, n);
  }
}
