/**
 * `EventsQueue`: an unbounded channel of events, read in the order written,
 * and an error queue that failure records are only ever appended to.
 */
module Queue {
  import opened Types

  class EventsQueue {
    /** The events written to the channel and not yet read, oldest first. */
    var events: seq<Event>
    /** `errorQueue`, in insertion order. */
    var errorQueue: seq<FailedEvent>

    constructor ()
      ensures events == [] && errorQueue == []
    {
      events := [];
      errorQueue := [];
    }

    /** `EnqueueAsync(event)`: the unbounded writer always accepts, at the tail; the error queue is untouched. */
    method EnqueueAsync(ev: Event)
      modifies this
      ensures events == old(events) + [ev]
      ensures errorQueue == old(errorQueue)
    {
      events := events + [ev];
    }

    /** `GetReader().Count`: the number of events waiting. */
    function ReaderCount(): (n: nat)
      reads this
      ensures n == 0 <==> events == []
    {
      |events|
    }

    /**
     * `GetReader().TryRead(out item)`: the oldest waiting event, removed from
     * the channel; nothing when the channel is empty.
     */
    method TryRead() returns (item: Option<Event>)
      modifies this
      ensures old(events) == [] ==> item.None? && events == []
      ensures old(events) != [] ==> item == Some(old(events)[0]) && [item.value] + events == old(events)
      ensures errorQueue == old(errorQueue)
    {
      if events == [] {
        return None;
      }
      item := Some(events[0]);
      events := events[1..];
    }

    /**
     * `EnqueueError(event, exception)`: one record at the end, carrying the
     * event and the exception and neither failed consumer nor timestamp; the
     * channel is untouched.
     */
    method EnqueueError(data: Event, exception: Exception)
      modifies this
      ensures errorQueue == old(errorQueue) + [FailedEvent(data, exception, None, None)]
      ensures events == old(events)
    {
      errorQueue := errorQueue + [FailedEvent(data, exception, None, None)];
    }

    /** `EnqueueError(fail)` with a complete record, as the queue interface declares it. */
    method EnqueueFailure(fail: FailedEvent)
      modifies this
      ensures errorQueue == old(errorQueue) + [fail]
      ensures events == old(events)
    {
      errorQueue := errorQueue + [fail];
    }

    /** `GetErrorQueue()`: every record ever enqueued, oldest first. */
    method GetErrorQueue() returns (r: seq<FailedEvent>)
      ensures r == errorQueue
    {
      r := errorQueue;
    }
  }

  /**
   * Reading back a sequence of writes into an empty channel: the events come
   * out in the order they were written, and the channel is empty again.
   */
  method WriteThenDrain(q: EventsQueue, written: seq<Event>) returns (read: seq<Event>)
    requires q.events == []
    modifies q
    ensures read == written && q.events == []
    ensures q.errorQueue == old(q.errorQueue)
  {
    var i := 0;
    while i < |written|
      invariant 0 <= i <= |written|
      invariant q.events == written[..i] && q.errorQueue == old(q.errorQueue)
    {
      q.EnqueueAsync(written[i]);
      assert written[..i + 1] == written[..i] + [written[i]];
      i := i + 1;
    }
    assert written[..i] == written;
    read := [];
    while q.ReaderCount() > 0
      invariant read + q.events == written && q.errorQueue == old(q.errorQueue)
      decreases |q.events|
    {
      var item := q.TryRead();
      read := read + [item.value];
    }
  }
}
