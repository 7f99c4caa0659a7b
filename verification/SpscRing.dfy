/** The ring as the object the other components call: each call, run to completion, takes the machine's steps. */
module SpscRing {
  import opened Options
  import opened Words
  import opened RingMachine

  class SpscRing<T(0, ==)> {
    const capacity: nat
    const buffer: array<T>
    var head: Word
    var cachedTail: Word
    var tail: Word
    var cachedHead: Word
    ghost var machine: State<T>

    /** The fields are what the code holds when the unbounded ring is in state `machine`. */
    ghost predicate Represents()
      reads this, buffer
    {
      && IsCapacity(capacity) && buffer.Length == capacity && Inv(capacity, machine)
      && head == machine.head % WORD && cachedTail == machine.cachedTail % WORD
      && tail == machine.tail % WORD && cachedHead == machine.cachedHead % WORD
      && forall i | 0 <= i < capacity :: machine.buffer[i].Full? ==> buffer[i] == machine.buffer[i].value
    }

    ghost predicate Valid()
      reads this, buffer
    {
      Represents() && machine.producer.PIdle? && machine.consumer.CIdle?
    }

    ghost function Contents(): seq<T>
      requires Valid()
      reads this, buffer
    {
      Queue(machine)
    }

    constructor (capacity: nat)
      requires IsCapacity(capacity)
      ensures Valid() && fresh(buffer) && this.capacity == capacity && Contents() == []
    {
      this.capacity := capacity;
      buffer := new T[capacity];
      head, cachedTail, tail, cachedHead := 0, 0, 0, 0;
      machine := Init(capacity);
    }

    /** Accounts for one atomic step of the machine. */
    ghost method Take(step: Step<T>)
      requires Inv(capacity, machine) && Next(Unbounded, capacity, machine, step).Some?
      modifies this`machine
      ensures Inv(capacity, machine) && Some(machine) == Next(Unbounded, capacity, old(machine), step)
    {
      StepKeepsInv(capacity, machine, step);
      machine := Next(Unbounded, capacity, machine, step).value;
    }

    method Push(item: T) returns (ok: bool)
      requires Valid()
      modifies this`head, this`cachedTail, this`machine, buffer
      ensures Valid()
      ensures ok <==> |old(Contents())| < capacity
      ensures Contents() == if ok then old(Contents()) + [item] else old(Contents())
      ensures machine.popped == old(machine.popped)
    {
      CapacityBelowMax(capacity);
      var h := head;
      Take(PushCall(item));
      var next := WAdd(h, 1);
      FullnessAgrees(capacity, machine.head, machine.cachedTail);
      Take(PushCompare);
      if WSub(next, cachedTail) > capacity {
        cachedTail := tail;
        FullnessAgrees(capacity, machine.head, machine.tail);
        Take(PushReload(0));
        if WSub(next, cachedTail) > capacity {
          return false;
        }
      }
      StoreAndPublish(item, h, next);
      return true;
    }

    /** The slot copy and the release store that end a successful push. */
    method StoreAndPublish(item: T, h: Word, next: Word)
      requires Represents() && machine.producer == PWrite(item) && machine.consumer.CIdle?
      requires h == head && next == WAdd(h, 1)
      modifies this`head, this`machine, buffer
      ensures Valid()
      ensures Contents() == Queue(old(machine)) + [item]
      ensures machine.popped == old(machine.popped)
    {
      Store(item, h);
      WrappedAdd(machine.head, 1);
      head := next;
      Take(PushPublish);
    }

    method Store(item: T, h: Word)
      requires Represents() && machine.producer == PWrite(item) && h == head
      modifies this`machine, buffer
      ensures Represents()
      ensures machine == old(machine).(producer := PWritten(item), buffer := machine.buffer)
    {
      MaskedSlot(machine.head, capacity);
      buffer[BitAnd(h, capacity - 1)] := item;
      Take(WriteBegin);
      Take(WriteEnd);
    }

    /** `target` is what the caller's variable holds; a failed pop leaves it as it is. */
    method Pop(target: T) returns (ok: bool, out: T)
      requires Valid()
      modifies this`tail, this`cachedHead, this`machine
      ensures Valid()
      ensures ok <==> old(Contents()) != []
      ensures ok ==> out == old(Contents())[0] && Contents() == old(Contents())[1..]
      ensures !ok ==> out == target && Contents() == old(Contents())
      ensures machine.pushed == old(machine.pushed)
    {
      var t := tail;
      Take(PopCall);
      EmptinessAgrees(machine.cachedHead, machine.tail);
      Take(PopCompare);
      if t == cachedHead {
        cachedHead := head;
        EmptinessAgrees(machine.head, machine.tail);
        Take(PopReload(0));
        if t == cachedHead {
          return false, target;
        }
      }
      out := CopyAndPublish(t);
      return true, out;
    }

    /** The slot copy and the release store that end a successful pop. */
    method CopyAndPublish(t: Word) returns (out: T)
      requires Represents() && machine.producer.PIdle? && machine.consumer.CRead?
      requires t == tail
      modifies this`tail, this`machine
      ensures Valid()
      ensures Queue(old(machine)) == [out] + Contents()
      ensures machine.pushed == old(machine.pushed)
    {
      out := Copy(t);
      WrappedAdd(machine.tail, 1);
      tail := WAdd(t, 1);
      Take(PopPublish);
    }

    method Copy(t: Word) returns (out: T)
      requires Represents() && machine.consumer.CRead? && t == tail
      modifies this`machine
      ensures Represents() && machine == old(machine).(consumer := CCopied(Full(out)))
      ensures machine.tail < machine.head && out == machine.pushed[machine.tail]
    {
      MaskedSlot(machine.tail, capacity);
      Take(ReadBegin);
      out := buffer[BitAnd(t, capacity - 1)];
      Take(ReadEnd);
    }

    method ApproximateSize() returns (size: Word)
      requires Valid()
      ensures size == |Contents()|
    {
      WrappedDifference(machine.head, machine.tail);
      size := WSub(head, tail);
    }

    method Empty() returns (empty: bool)
      requires Valid()
      ensures empty <==> Contents() == []
    {
      var size := ApproximateSize();
      empty := size == 0;
    }
  }
}
