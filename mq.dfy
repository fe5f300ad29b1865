/**
 * The message queue singleton (server/MQ.hpp): a receive queue that the event loop fills and
 * the router drains, and a send queue that the router fills and the egress loop drains.
 *
 * The queues hold `Message`s by value; the model keeps the `Envelope` each one holds.  A push
 * moves the caller's message into the queue, leaving the caller's object moved-from, and a pop
 * moves the front element out into a new `Message`.  The pops block on a condition variable
 * until the queue is non-empty; sequentially that wait becomes the precondition that the queue
 * is non-empty.  The mutexes are not modelled.
 */
module MQ {
  import opened Wrappers
  import opened Messages

  class MessageQueue {
    var receiveQueue: seq<Envelope>
    var sendQueue: seq<Envelope>

    constructor ()
      ensures receiveQueue == [] && sendQueue == []
    {
      receiveQueue, sendQueue := [], [];
    }

    method PushToReceiveQueue(message: Message)
      modifies this, message
      ensures receiveQueue == old(receiveQueue) + [old(message.Value())]
      ensures sendQueue == old(sendQueue)
      ensures message.mtype == USER && message.data == None
    {
      receiveQueue := receiveQueue + [message.Value()];
      message.mtype, message.data := USER, None;
    }

    method PopFromReceiveQueue() returns (message: Message)
      requires receiveQueue != []
      modifies this
      ensures fresh(message) && message.Value() == old(receiveQueue[0])
      ensures receiveQueue == old(receiveQueue[1..]) && sendQueue == old(sendQueue)
    {
      message := new Message.FromValue(receiveQueue[0]);
      receiveQueue := receiveQueue[1..];
    }

    method PushToSendQueue(message: Message)
      modifies this, message
      ensures sendQueue == old(sendQueue) + [old(message.Value())]
      ensures receiveQueue == old(receiveQueue)
      ensures message.mtype == USER && message.data == None
    {
      sendQueue := sendQueue + [message.Value()];
      message.mtype, message.data := USER, None;
    }

    method PopFromSendQueue() returns (message: Message)
      requires sendQueue != []
      modifies this
      ensures fresh(message) && message.Value() == old(sendQueue[0])
      ensures sendQueue == old(sendQueue[1..]) && receiveQueue == old(receiveQueue)
    {
      message := new Message.FromValue(sendQueue[0]);
      sendQueue := sendQueue[1..];
    }

    method IsReceiveQueueEmpty() returns (empty: bool)
      ensures empty <==> |receiveQueue| == 0
    {
      empty := receiveQueue == [];
    }

    method IsSendQueueEmpty() returns (empty: bool)
      ensures empty <==> |sendQueue| == 0
    {
      empty := sendQueue == [];
    }
  }

  /**
   * FIFO, as tests/main/MQ.cpp exercises it: messages built from `payloads` and pushed one after
   * another onto an empty receive queue come back out in the same order, the queue ends empty,
   * and the send queue is never touched.
   */
  method PushAllThenPopAll(mq: MessageQueue, payloads: seq<Payload>) returns (popped: seq<Envelope>)
    requires mq.receiveQueue == []
    modifies mq
    ensures |popped| == |payloads|
    ensures forall k :: 0 <= k < |payloads| ==> popped[k] == Envelope(TypeOf(payloads[k]), Some(payloads[k]))
    ensures mq.receiveQueue == [] && mq.sendQueue == old(mq.sendQueue)
  {
    var i := 0;
    while i < |payloads|
      invariant i <= |payloads|
      invariant |mq.receiveQueue| == i
      invariant forall k :: 0 <= k < i ==> mq.receiveQueue[k] == Envelope(TypeOf(payloads[k]), Some(payloads[k]))
      invariant mq.sendQueue == old(mq.sendQueue)
    {
      var m := Message.Of(payloads[i]);
      mq.PushToReceiveQueue(m);
      i := i + 1;
    }
    popped := [];
    while |popped| < |payloads|
      invariant |popped| <= |payloads|
      invariant mq.receiveQueue == seq(|payloads| - |popped|, k requires 0 <= k < |payloads| - |popped| =>
        Envelope(TypeOf(payloads[|popped| + k]), Some(payloads[|popped| + k])))
      invariant forall k :: 0 <= k < |popped| ==> popped[k] == Envelope(TypeOf(payloads[k]), Some(payloads[k]))
      invariant mq.sendQueue == old(mq.sendQueue)
    {
      var m := mq.PopFromReceiveQueue();
      popped := popped + [m.Value()];
    }
  }
}
