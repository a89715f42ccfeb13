/** The fan-out of events to connections (`server/src/api/mod.rs`): a subscriber
    that stops draining is cut off, and never misses an event in between. */
module EventBus {
  import opened Wrappers

  const CAPACITY := 256

  /** A subscriber's queue, and whether the bus still sends to it. */
  datatype Feed<T> = Feed(queue: seq<T>, open: bool)

  /** What publishing does to one feed: a full one, or one nobody listens to any
      more, is closed for good. */
  function Offered<T>(feed: Feed<T>, listening: bool, event: T): Feed<T>
  {
    if !feed.open then feed
    else if listening && |feed.queue| < CAPACITY then feed.(queue := feed.queue + [event])
    else feed.(open := false)
  }

  /** What has reached a subscriber: all that was published since it subscribed
      while the bus still sends to it, and an unbroken beginning of that for ever. */
  ghost predicate Unbroken<T>(seen: seq<T>, open: bool, since: nat, history: seq<T>)
  {
    && since <= |history| && seen <= history[since..]
    && (open ==> seen == history[since..])
  }

  lemma OfferKeepsUnbroken<T>(feed: Feed<T>, taken: seq<T>, listening: bool, since: nat, history: seq<T>, event: T)
    requires Unbroken(taken + feed.queue, feed.open, since, history)
    ensures
      var after := Offered(feed, listening, event);
      Unbroken(taken + after.queue, after.open, since, history + [event])
  {
    assert (history + [event])[since..] == history[since..] + [event];
    assert taken + (feed.queue + [event]) == taken + feed.queue + [event];
  }

  class Channel<T> {
    var queue: seq<T>
    /** The sender, and the receiver, are still held. */
    var open: bool
    var listening: bool
    /** What the receiver has taken, and how many events had been published
        when it subscribed. */
    ghost var taken: seq<T>
    ghost const since: nat

    constructor (ghost since: nat)
      ensures State() == Feed([], true) && listening && taken == [] && this.since == since
    {
      queue, open, listening := [], true, true;
      taken := [];
      this.since := since;
    }

    function State(): Feed<T>
      reads this
    {
      Feed(queue, open)
    }

    /** Everything that has reached this subscriber. */
    ghost function Seen(): seq<T>
      reads this
    {
      taken + queue
    }

    /** `try_send`, and dropping the sender of a feed it failed on. */
    method Offer(event: T) returns (sent: bool)
      requires open
      modifies this`queue, this`open
      ensures State() == Offered(old(State()), listening, event) && sent == open
    {
      sent := listening && |queue| < CAPACITY;
      if sent {
        queue := queue + [event];
      } else {
        open := false;
      }
    }
  }

  /** The channels of a list that are still sent to, each once. */
  ghost predicate IsKept<T>(offered: seq<Channel<T>>, kept: seq<Channel<T>>)
    reads offered
  {
    && (forall c | c in kept :: c in offered && c.open)
    && (forall c | c in offered && c.open :: c in kept)
    && (forall i, j | 0 <= i < j < |kept| :: kept[i] != kept[j])
  }

  class Bus<T> {
    var subscribers: seq<Channel<T>>
    /** Everything published, and every channel there has been. */
    ghost var history: seq<T>
    ghost var channels: set<Channel<T>>

    constructor ()
      ensures Valid() && subscribers == [] && history == [] && channels == {}
    {
      subscribers := [];
      history, channels := [], {};
    }

    /** Each subscriber once, and what has reached every channel is unbroken. */
    ghost predicate Valid()
      reads this, channels
    {
      && (forall c | c in channels :: Unbroken(c.Seen(), c.open, c.since, history))
      && Current()
    }

    /** The subscribers are the channels still sent to. */
    ghost predicate Current()
      reads this, channels
    {
      && (forall c | c in channels :: c.open <==> c in subscribers)
      && (forall c | c in subscribers :: c in channels)
      && (forall i, j | 0 <= i < j < |subscribers| :: subscribers[i] != subscribers[j])
    }

    method Subscribe() returns (receiver: Channel<T>)
      requires Valid()
      modifies this
      ensures Valid() && fresh(receiver) && history == old(history)
      ensures subscribers == old(subscribers) + [receiver] && channels == old(channels) + {receiver}
      ensures receiver.State() == Feed([], true) && receiver.listening && receiver.since == |history|
    {
      receiver := new Channel(|history|);
      subscribers := subscribers + [receiver];
      channels := channels + {receiver};
    }

    /** Offers the event to each subscriber in turn and keeps those it reached. */
    method OfferAll(event: T) returns (kept: seq<Channel<T>>)
      requires Current()
      modifies channels
      ensures forall c | c in channels ::
        c.State() == Offered(old(c.State()), c.listening, event)
        && c.taken == old(c.taken) && c.listening == old(c.listening)
      ensures forall c | c in kept :: c in subscribers
      ensures forall c | c in subscribers :: c in kept <==> c.open
      ensures forall i, j | 0 <= i < j < |kept| :: kept[i] != kept[j]
    {
      kept := [];
      for i := 0 to |subscribers|
        invariant forall c | c in channels :: c.taken == old(c.taken) && c.listening == old(c.listening)
        invariant forall c | c in channels && c !in subscribers :: c.State() == old(c.State())
        invariant forall j | i <= j < |subscribers| :: subscribers[j].State() == old(subscribers[j].State())
        invariant forall j | 0 <= j < i ::
          subscribers[j].State() == Offered(old(subscribers[j].State()), subscribers[j].listening, event)
        invariant IsKept(subscribers[..i], kept)
      {
        var c := subscribers[i];
        var sent := c.Offer(event);
        assert subscribers[..i + 1] == subscribers[..i] + [c];
        if sent {
          kept := kept + [c];
        }
      }
      assert subscribers[..|subscribers|] == subscribers;
    }

    /** `EventBus::publish`: a subscriber stays exactly if the event fitted. */
    method Publish(event: T)
      requires Valid()
      modifies this, channels
      ensures Valid() && channels == old(channels) && history == old(history) + [event]
      ensures forall c | c in channels ::
        c.State() == Offered(old(c.State()), c.listening, event)
        && c.taken == old(c.taken) && c.listening == old(c.listening)
    {
      forall c | c in channels {
        OfferKeepsUnbroken(c.State(), c.taken, c.listening, c.since, history, event);
      }
      subscribers := OfferAll(event);
      history := history + [event];
    }

    /** The receiver takes its next event. Nothing to take on a closed feed means
        the stream has ended. */
    method Receive(c: Channel<T>) returns (event: Option<T>)
      requires Valid() && c in channels && c.listening
      modifies c
      ensures Valid()
      ensures c.open == old(c.open) && c.listening
      ensures old(c.queue) == [] ==> event == None && c.queue == [] && c.taken == old(c.taken)
      ensures old(c.queue) != [] ==>
        event == Some(old(c.queue)[0]) && c.queue == old(c.queue)[1..] && c.taken == old(c.taken) + [event.value]
    {
      if c.queue == [] {
        return None;
      }
      event := Some(c.queue[0]);
      assert c.taken + c.queue == c.taken + [c.queue[0]] + c.queue[1..];
      c.taken := c.taken + [c.queue[0]];
      c.queue := c.queue[1..];
    }

    /** The receiver goes; the bus finds out when it next publishes. */
    method StopListening(c: Channel<T>)
      requires Valid() && c in channels
      modifies c
      ensures Valid() && !c.listening && c.State() == old(c.State()) && c.taken == old(c.taken)
    {
      c.listening := false;
    }
  }

  /** Only a subscriber that has gone, or has 256 events waiting, is cut off; any
      other has the event behind those it had. */
  lemma CutOffAt256<T>(feed: Feed<T>, listening: bool, event: T)
    requires feed.open
    ensures
      var after := Offered(feed, listening, event);
      && (after.open <==> listening && |feed.queue| < 256)
      && after.queue == if after.open then feed.queue + [event] else feed.queue
  {
  }
}
