/** The queue as the class the source declares, used by one thread at a time: each call is its atomic
    steps of module LockFreeQueue taken without interruption, and the queue is a bounded FIFO. */
module LFQueueClass {
  import opened LockFreeQueue

  datatype Option<+T> = None | Some(value: T)

  /** The steps of a push, or only the failed check. */
  function PushSteps<T>(s: Queue<T>, value: T): Queue<T>
    requires s.producer.Idle? && s.buffer != []
  {
    var s1 := Step(s, CheckRoom(value));
    if s1.producer.Idle? then s1
    else Step(Step(Step(Step(s1, TakeSlot), StoreValue), AdvanceWrite), CountElement)
  }

  /** The steps of a pop, or only the failed check. */
  function PopSteps<T>(s: Queue<T>): Queue<T>
    requires Inv(s) && s.consumer.Waiting?
  {
    var s1 := Step(s, CheckElement);
    if s1.consumer.Waiting? then s1
    else
      StepKeepsInv(s, CheckElement);
      var s2 := Step(s1, TakeElement);
      StepKeepsInv(s1, TakeElement);
      Step(Step(Step(s2, ReadValue), AdvanceRead), UncountElement)
  }

  lemma PushKeepsInv<T>(s: Queue<T>, value: T)
    requires Inv(s) && s.producer.Idle?
    ensures Inv(PushSteps(s, value)) && PushSteps(s, value).producer.Idle?
    ensures PushSteps(s, value).consumer == s.consumer && PushSteps(s, value).consumed == s.consumed
    ensures PushSteps(s, value).produced == if s.numElements < |s.buffer| then s.produced + [value] else s.produced
  {
    var s1 := Step(s, CheckRoom(value));
    StepKeepsInv(s, CheckRoom(value));
    if s1.producer.SawRoom? {
      var s2 := Step(s1, TakeSlot);
      StepKeepsInv(s1, TakeSlot);
      var s3 := Step(s2, StoreValue);
      StepKeepsInv(s2, StoreValue);
      var s4 := Step(s3, AdvanceWrite);
      StepKeepsInv(s3, AdvanceWrite);
      StepKeepsInv(s4, CountElement);
    }
  }

  lemma PopKeepsInv<T>(s: Queue<T>)
    requires Inv(s) && s.consumer.Waiting?
    ensures Inv(PopSteps(s)) && PopSteps(s).consumer.Waiting?
    ensures PopSteps(s).producer == s.producer && PopSteps(s).produced == s.produced
    ensures s.numElements > 0 ==> |s.consumed| < |s.produced|
    ensures PopSteps(s).consumed == if s.numElements > 0 then s.produced[..|s.consumed| + 1] else s.consumed
  {
    var s1 := Step(s, CheckElement);
    StepKeepsInv(s, CheckElement);
    if s1.consumer.SawElement? {
      var s2 := Step(s1, TakeElement);
      StepKeepsInv(s1, TakeElement);
      var s3 := Step(s2, ReadValue);
      StepKeepsInv(s2, ReadValue);
      var s4 := Step(s3, AdvanceRead);
      StepKeepsInv(s3, AdvanceRead);
      StepKeepsInv(s4, UncountElement);
    }
  }

  /** What a pop does, field by field. */
  lemma PopMoves<T>(s: Queue<T>)
    requires Inv(s) && s.consumer.Waiting? && s.numElements > 0
    ensures |s.consumed| < |s.produced|
    ensures s.buffer[SlotOf(|s.consumed|, |s.buffer|)] == s.produced[|s.consumed|]
    ensures PopSteps(s) == s.(nextIndexToRead := Next(s.nextIndexToRead, |s.buffer|), numElements := s.numElements - 1,
                              consumed := s.produced[..|s.consumed| + 1])
  {
    PopKeepsInv(s);
    assert s.consumed + [s.produced[|s.consumed|]] == s.produced[..|s.consumed| + 1];
  }

  class LFQueue<T(0)> {
    const queue: array<T>
    var nextIndexToRead: nat
    var nextIndexToWrite: nat
    var numElements: nat
    ghost var produced: seq<T>
    ghost var consumed: seq<T>

    /** The queue between two calls. */
    ghost function Machine(): Queue<T>
      reads this, queue
    {
      Queue(queue[..], nextIndexToRead, nextIndexToWrite, numElements, Idle, Waiting, produced, consumed)
    }

    ghost predicate Valid()
      reads this, queue
    {
      Inv(Machine())
    }

    /** What has been pushed and not yet popped, oldest first. */
    ghost function Contents(): (q: seq<T>)
      requires Valid()
      reads this, queue
      ensures |q| == numElements <= queue.Length
    {
      produced[|consumed|..]
    }

    constructor (size: nat)
      requires size > 0
      ensures Valid() && Contents() == [] && queue.Length == size && fresh(queue)
    {
      queue := new T[size];
      nextIndexToRead, nextIndexToWrite, numElements := 0, 0, 0;
      produced, consumed := [], [];
      new;
      assert Inv(Machine()) by {
        assert SlotOf(0, |queue[..]|) == 0;
      }
    }

    /** Appends a value unless the queue is full. */
    method Push(value: T) returns (ok: bool)
      requires Valid()
      modifies this, queue
      ensures Valid() && Machine() == PushSteps(old(Machine()), value)
      ensures ok <==> |old(Contents())| < queue.Length
      ensures Contents() == if ok then old(Contents()) + [value] else old(Contents())
    {
      ghost var s := Machine();
      PushKeepsInv(s, value);
      if numElements >= queue.Length {
        return false;
      }
      queue[nextIndexToWrite] := value;
      produced := produced + [value];
      nextIndexToWrite := (nextIndexToWrite + 1) % queue.Length;
      numElements := numElements + 1;
      ok := true;
    }

    /** The oldest value, without removing it. */
    function GetNextToRead(): (value: Option<T>)
      requires Valid()
      reads this, queue
      ensures value == if Contents() == [] then None else Some(Contents()[0])
    {
      if numElements == 0 then None
      else
        assert queue[..][SlotOf(|consumed|, |queue[..]|)] == produced[|consumed|];
        Some(queue[nextIndexToRead])
    }

    /** Removes the oldest value. */
    method UpdateReadIndex()
      requires Valid() && Contents() != []
      modifies this
      ensures Valid() && Machine() == PopSteps(old(Machine()))
      ensures Contents() == old(Contents())[1..]
    {
      ghost var s := Machine();
      PopKeepsInv(s);
      PopMoves(s);
      consumed := produced[..|consumed| + 1];
      nextIndexToRead := (nextIndexToRead + 1) % queue.Length;
      numElements := numElements - 1;
    }

    /** Removes and returns the oldest value, if there is one. */
    method Pop() returns (value: Option<T>)
      requires Valid()
      modifies this
      ensures Valid() && Machine() == PopSteps(old(Machine()))
      ensures value == if old(Contents()) == [] then None else Some(old(Contents())[0])
      ensures Contents() == if old(Contents()) == [] then [] else old(Contents())[1..]
    {
      value := GetNextToRead();
      if value.Some? {
        UpdateReadIndex();
      }
    }
  }
}
