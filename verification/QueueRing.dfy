/** The storage of a queue: a ring of slots that refines a bounded double-ended sequence.
    Positions are counted in items, so that one slot stands for uxItemSize bytes. */
module QueueRing {

  datatype Position = SendToBack | SendToFront | Overwrite

  /** The slot i places behind slot r in a ring of n. */
  function Slot(r: nat, i: nat, n: nat): nat
    requires r < n && i <= n
  {
    if r + i < n then r + i else r + i - n
  }

  class Queue<T(0)> {
    const slots: array<T>
    var writeTo: nat
    var readFrom: nat
    var messagesWaiting: nat

    function Length(): nat {
      slots.Length
    }

    ghost predicate Valid()
      reads this
    {
      && slots.Length > 0 && writeTo < slots.Length && readFrom < slots.Length && messagesWaiting <= slots.Length
      && writeTo == Slot(Slot(readFrom, 1, slots.Length), messagesWaiting, slots.Length)
    }

    /** The items waiting, first the next to be received. */
    ghost function Contents(): seq<T>
      requires Valid()
      reads this, slots
    {
      seq(messagesWaiting, i requires 0 <= i < messagesWaiting reads this, slots requires Valid() =>
        slots[Slot(Slot(readFrom, 1, slots.Length), i, slots.Length)])
    }

    /** xQueueGenericReset on a new queue. */
    constructor (length: nat)
      requires length > 0
      ensures Valid() && Contents() == [] && Length() == length && fresh(slots)
    {
      slots := new T[length];
      messagesWaiting := 0;
      writeTo := 0;
      readFrom := length - 1;
    }

    /** xQueueGenericReset. */
    method Reset()
      requires Valid()
      modifies this
      ensures Valid() && Contents() == []
    {
      messagesWaiting := 0;
      writeTo := 0;
      readFrom := slots.Length - 1;
    }

    /** prvCopyDataToQueue: append, prepend, or replace the one item of a queue of length one. */
    method CopyDataToQueue(x: T, position: Position)
      requires Valid()
      requires if position.Overwrite? then Length() == 1 else messagesWaiting < Length()
      modifies this, slots
      ensures Valid()
      ensures Contents() == match position
                            case SendToBack => old(Contents()) + [x]
                            case SendToFront => [x] + old(Contents())
                            case Overwrite => [x]
    {
      var messages := messagesWaiting;
      if position.SendToBack? {
        slots[writeTo] := x;
        writeTo := writeTo + 1;
        if writeTo >= slots.Length {
          writeTo := 0;
        }
      } else {
        slots[readFrom] := x;
        if readFrom < 1 {
          readFrom := slots.Length - 1;
        } else {
          readFrom := readFrom - 1;
        }
        if position.Overwrite? {
          if messages > 0 {
            messages := messages - 1;
          }
        }
      }
      messagesWaiting := messages + 1;
    }

    /** prvCopyDataFromQueue. */
    method CopyDataFromQueue() returns (x: T)
      requires Valid() && messagesWaiting > 0
      modifies this`readFrom
      ensures readFrom == Slot(old(readFrom), 1, slots.Length) && x == old(Contents())[0]
    {
      readFrom := readFrom + 1;
      if readFrom >= slots.Length {
        readFrom := 0;
      }
      x := slots[readFrom];
    }

    /** The successful receive: the first item leaves. */
    method Receive() returns (x: T)
      requires Valid() && messagesWaiting > 0
      modifies this`readFrom, this`messagesWaiting
      ensures Valid() && old(Contents()) == [x] + Contents()
    {
      x := CopyDataFromQueue();
      messagesWaiting := messagesWaiting - 1;
    }

    /** The successful peek: the read position is put back. */
    method Peek() returns (x: T)
      requires Valid() && messagesWaiting > 0
      modifies this`readFrom
      ensures Valid() && Contents() == old(Contents()) && x == Contents()[0] && readFrom == old(readFrom)
    {
      var originalReadPosition := readFrom;
      x := CopyDataFromQueue();
      readFrom := originalReadPosition;
    }
  }
}
