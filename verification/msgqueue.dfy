/** The ring of pending messages of an endpoint (src/kernel/ipc.rs): a first-in first-out queue of at most eight. */
module MsgQueues {
  import opened Wrappers
  import opened Tasks

  class MsgQueue {
    const buf: array<Message>
    var head: nat
    var tail: nat
    var count: nat

    ghost predicate Valid()
      reads this
    {
      buf.Length == MSG_QUEUE_SIZE && head < MSG_QUEUE_SIZE && count <= MSG_QUEUE_SIZE && tail == RingSlot(head, count)
    }

    /** The messages in the queue, the oldest first. */
    ghost function Contents(): (q: seq<Message>)
      requires Valid()
      reads this, buf
      ensures |q| == count
      ensures forall i :: 0 <= i < |q| ==> q[i] == buf[RingSlot(head, i)]
    {
      Ring(buf[..], head, count)
    }

    constructor ()
      ensures Valid() && Contents() == [] && fresh(buf)
    {
      buf := new Message[MSG_QUEUE_SIZE](_ => Message(0, Words4(0, 0, 0, 0), 0));
      head, tail, count := 0, 0, 0;
    }

    method IsFull() returns (r: bool)
      requires Valid()
      ensures r == (|Contents()| == MSG_QUEUE_SIZE)
    {
      r := count == MSG_QUEUE_SIZE;
    }

    method IsEmpty() returns (r: bool)
      requires Valid()
      ensures r == (Contents() == [])
    {
      r := count == 0;
    }

    method Push(msg: Message) returns (ok: bool)
      requires Valid()
      modifies this, buf
      ensures Valid() && ok == (|old(Contents())| < MSG_QUEUE_SIZE)
      ensures Contents() == if ok then old(Contents()) + [msg] else old(Contents())
    {
      hide Ring;
      var full := IsFull();
      if full {
        return false;
      }
      PushRing(buf[..], head, count, msg);
      buf[tail] := msg;
      tail := (tail + 1) % MSG_QUEUE_SIZE;
      count := count + 1;
      return true;
    }

    method Pop() returns (r: Option<Message>)
      requires Valid()
      modifies this
      ensures Valid()
      ensures old(Contents()) == [] ==> r.None? && Contents() == []
      ensures old(Contents()) != [] ==> r == Some(old(Contents())[0]) && Contents() == old(Contents())[1..]
    {
      hide Ring, RingSlot;
      var empty := IsEmpty();
      if empty {
        return None;
      }
      PopRing(buf[..], head, count);
      FirstSlot(head);
      r := Some(buf[head]);
      head := (head + 1) % MSG_QUEUE_SIZE;
      count := count - 1;
    }

    method Peek() returns (r: Option<Message>)
      requires Valid()
      ensures r == if Contents() == [] then None else Some(Contents()[0])
    {
      var empty := IsEmpty();
      if empty {
        return None;
      }
      FirstSlot(head);
      return Some(buf[head]);
    }
  }

  /** The slot i places behind `head`, going round. */
  function RingSlot(head: nat, i: nat): (k: nat)
    ensures k < MSG_QUEUE_SIZE
  {
    (head + i) % MSG_QUEUE_SIZE
  }

  /** The messages from slot `head` on, going round. */
  function Ring(buf: seq<Message>, head: nat, count: nat): (q: seq<Message>)
    requires |buf| == MSG_QUEUE_SIZE
    ensures |q| == count && forall i :: 0 <= i < count ==> q[i] == buf[RingSlot(head, i)]
  {
    seq(count, i requires 0 <= i < count => buf[RingSlot(head, i)])
  }

  lemma PushRing(buf: seq<Message>, head: nat, count: nat, msg: Message)
    requires |buf| == MSG_QUEUE_SIZE && head < MSG_QUEUE_SIZE && count < MSG_QUEUE_SIZE
    ensures Ring(buf[RingSlot(head, count) := msg], head, count + 1) == Ring(buf, head, count) + [msg]
    ensures (RingSlot(head, count) + 1) % MSG_QUEUE_SIZE == RingSlot(head, count + 1)
  {
    forall i {:trigger RingSlot(head, i)} | 0 <= i < count
      ensures RingSlot(head, i) != RingSlot(head, count)
    {
      RoundOnce(head, i, count);
    }
  }

  lemma PopRing(buf: seq<Message>, head: nat, count: nat)
    requires |buf| == MSG_QUEUE_SIZE && head < MSG_QUEUE_SIZE && 0 < count <= MSG_QUEUE_SIZE
    ensures Ring(buf, RingSlot(head, 1), count - 1) == Ring(buf, head, count)[1..]
    ensures RingSlot(RingSlot(head, 1), count - 1) == RingSlot(head, count)
  {
    forall i {:trigger RingSlot(RingSlot(head, 1), i)} | 0 <= i < count
      ensures RingSlot(RingSlot(head, 1), i) == RingSlot(head, i + 1)
    {
      RoundStep(head, i);
    }
    hide RingSlot;
  }

  lemma FirstSlot(head: nat)
    requires head < MSG_QUEUE_SIZE
    ensures RingSlot(head, 0) == head && RingSlot(head, 1) == (head + 1) % MSG_QUEUE_SIZE
  {
  }

  lemma RoundStep(head: nat, i: nat)
    requires head < MSG_QUEUE_SIZE
    ensures RingSlot(RingSlot(head, 1), i) == RingSlot(head, i + 1)
  {
  }

  lemma RoundOnce(head: nat, i: nat, j: nat)
    requires head < MSG_QUEUE_SIZE && i < j < MSG_QUEUE_SIZE
    ensures RingSlot(head, i) != RingSlot(head, j)
  {
  }
}
