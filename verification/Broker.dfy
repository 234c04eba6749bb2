/**
 The broker that fans container events out to streaming clients over bounded
 channels: a full channel misses the event rather than blocking the publisher.
 */
module Broker {
  const CAPACITY := 100

  /** A non-blocking send. */
  function Offer<E>(buffer: seq<E>, e: E): seq<E> {
    if |buffer| < CAPACITY then buffer + [e] else buffer
  }

  // ----- runs -----

  datatype Op<E> = Subscribe | Unsubscribe(ch: nat) | Publish(event: E) | Receive(reader: nat)

  /** Channels are numbered as they are made; `received` is what each reader has taken out. */
  datatype State<E> = State(buffers: seq<seq<E>>, received: seq<seq<E>>, subscribers: set<nat>)

  function Start<E>(): State<E> {
    State([], [], {})
  }

  function Delivered<E>(s: State<E>, e: E): seq<seq<E>> {
    seq(|s.buffers|, c requires 0 <= c < |s.buffers| =>
          if c in s.subscribers then Offer(s.buffers[c], e) else s.buffers[c])
  }

  function Do<E>(s: State<E>, op: Op<E>): State<E> {
    match op
    case Subscribe => State(s.buffers + [[]], s.received + [[]], s.subscribers + {|s.buffers|})
    case Unsubscribe(c) => s.(subscribers := s.subscribers - {c})
    case Publish(e) => s.(buffers := Delivered(s, e))
    case Receive(c) =>
      if c < |s.buffers| && c < |s.received| && s.buffers[c] != []
      then s.(buffers := s.buffers[c := s.buffers[c][1..]],
          received := s.received[c := s.received[c] + [s.buffers[c][0]]])
      else s
  }

  function After<E>(ops: seq<Op<E>>, n: nat): (s: State<E>)
    requires n <= |ops|
    ensures |s.buffers| == |s.received|
    ensures forall c :: c in s.subscribers ==> c < |s.buffers|
  {
    if n == 0 then Start() else Do(After(ops, n - 1), ops[n - 1])
  }

  /** What was published while channel `c` was subscribed. */
  function Published<E>(ops: seq<Op<E>>, n: nat, c: nat): seq<E>
    requires n <= |ops|
  {
    if n == 0 then []
    else
      var before := Published(ops, n - 1, c);
      if ops[n - 1].Publish? && c in After(ops, n - 1).subscribers then before + [ops[n - 1].event] else before
  }

  /** Of those, what was published while fewer than 100 events were waiting in the channel. */
  function Kept<E>(ops: seq<Op<E>>, n: nat, c: nat): seq<E>
    requires n <= |ops|
  {
    if n == 0 then []
    else
      var before := Kept(ops, n - 1, c);
      var s := After(ops, n - 1);
      if ops[n - 1].Publish? && c in s.subscribers && |s.buffers[c]| < 100
        then before + [ops[n - 1].event] else before
  }

  /** `a` arises from `b` by leaving elements out. */
  ghost predicate Subsequence<E>(a: seq<E>, b: seq<E>)
    decreases |b|
  {
    if b == [] then a == []
    else
      var n := |b| - 1;
      Subsequence(a, b[..n]) || (a != [] && a[|a| - 1] == b[n] && Subsequence(a[..|a| - 1], b[..n]))
  }

  /** What a step adds to a channel, received and waiting events taken together. */
  lemma StepSeen<E>(s: State<E>, op: Op<E>, c: nat)
    requires |s.buffers| == |s.received| && c < |s.buffers|
    ensures |Do(s, op).buffers| == |Do(s, op).received| >= |s.buffers|
    ensures Do(s, op).received[c] + Do(s, op).buffers[c] ==
            if op.Publish? && c in s.subscribers && |s.buffers[c]| < CAPACITY
              then s.received[c] + s.buffers[c] + [op.event]
            else s.received[c] + s.buffers[c]
  {
    match op
    case Publish(e) => assert s.received[c] + (s.buffers[c] + [e]) == s.received[c] + s.buffers[c] + [e];
    case Receive(r) =>
      if r == c && s.buffers[c] != [] {
        assert s.received[c] + [s.buffers[c][0]] + s.buffers[c][1..] == s.received[c] + s.buffers[c];
      }
    case _ =>
  }

  /** Received and waiting events together are exactly those published while the channel had room. */
  lemma {:induction false} ReaderSeesWhatFitted<E>(ops: seq<Op<E>>, n: nat, c: nat)
    requires n <= |ops|
    ensures c < |After(ops, n).buffers| ==> After(ops, n).received[c] + After(ops, n).buffers[c] == Kept(ops, n, c)
    ensures c >= |After(ops, n).buffers| ==> Kept(ops, n, c) == [] && Published(ops, n, c) == []
  {
    if n > 0 {
      ReaderSeesWhatFitted(ops, n - 1, c);
      var s := After(ops, n - 1);
      assert After(ops, n) == Do(s, ops[n - 1]);
      if c < |s.buffers| {
        StepSeen(s, ops[n - 1], c);
      } else if c < |After(ops, n).buffers| {
        assert ops[n - 1].Subscribe? && c == |s.buffers|;
      }
    }
  }

  lemma {:induction false} KeptIsSubsequence<E>(ops: seq<Op<E>>, n: nat, c: nat)
    requires n <= |ops|
    ensures Subsequence(Kept(ops, n, c), Published(ops, n, c))
  {
    if n > 0 {
      KeptIsSubsequence(ops, n - 1, c);
      var kept, published := Kept(ops, n - 1, c), Published(ops, n - 1, c);
      if ops[n - 1].Publish? && c in After(ops, n - 1).subscribers {
        var e := ops[n - 1].event;
        assert (published + [e])[..|published|] == published;
        assert (kept + [e])[..|kept|] == kept;
      }
    }
  }

  /** A reader sees the published events in order, some possibly missing. */
  lemma ReaderSeesInOrder<E>(ops: seq<Op<E>>, n: nat, c: nat)
    requires n <= |ops| && c < |After(ops, n).buffers|
    ensures Subsequence(After(ops, n).received[c] + After(ops, n).buffers[c], Published(ops, n, c))
  {
    ReaderSeesWhatFitted(ops, n, c);
    KeptIsSubsequence(ops, n, c);
  }

  /** The channel had room at every publish it was subscribed for. */
  ghost predicate NeverFull<E>(ops: seq<Op<E>>, n: nat, c: nat)
    requires n <= |ops|
  {
    forall i :: 0 <= i < n && ops[i].Publish? && c in After(ops, i).subscribers ==>
      |After(ops, i).buffers[c]| < 100
  }

  lemma {:induction false} KeptAtMost<E>(ops: seq<Op<E>>, n: nat, c: nat)
    requires n <= |ops|
    ensures |Kept(ops, n, c)| <= |Published(ops, n, c)|
    ensures NeverFull(ops, n, c) ==> Kept(ops, n, c) == Published(ops, n, c)
    ensures !NeverFull(ops, n, c) ==> |Kept(ops, n, c)| < |Published(ops, n, c)|
  {
    if n > 0 {
      KeptAtMost(ops, n - 1, c);
      var full := ops[n - 1].Publish? && c in After(ops, n - 1).subscribers
        && |After(ops, n - 1).buffers[c]| >= CAPACITY;
      assert NeverFull(ops, n, c) <==> NeverFull(ops, n - 1, c) && !full;
    }
  }

  /** A reader misses nothing exactly when the channel never had 100 events waiting at a publish. */
  lemma NothingMissedIff<E>(ops: seq<Op<E>>, n: nat, c: nat)
    requires n <= |ops| && c < |After(ops, n).buffers|
    ensures After(ops, n).received[c] + After(ops, n).buffers[c] == Published(ops, n, c) <==> NeverFull(ops, n, c)
  {
    ReaderSeesWhatFitted(ops, n, c);
    KeptAtMost(ops, n, c);
  }

  /** No buffer ever exceeds its capacity. */
  lemma {:induction false} BuffersBounded<E>(ops: seq<Op<E>>, n: nat, c: nat)
    requires n <= |ops| && c < |After(ops, n).buffers|
    ensures |After(ops, n).buffers[c]| <= 100
  {
    if n > 0 && c < |After(ops, n - 1).buffers| {
      BuffersBounded(ops, n - 1, c);
    }
  }

  /** After it unsubscribes nothing more is sent to a channel: its readers only drain what is left. */
  lemma {:induction false} SilentAfterUnsubscribe<E>(ops: seq<Op<E>>, m: nat, n: nat, c: nat)
    requires m <= n <= |ops| && c < |After(ops, m).buffers| && c !in After(ops, m).subscribers
    ensures c < |After(ops, n).buffers| && c !in After(ops, n).subscribers
    ensures Kept(ops, n, c) == Kept(ops, m, c) && Published(ops, n, c) == Published(ops, m, c)
    decreases n
  {
    if m < n {
      SilentAfterUnsubscribe(ops, m, n - 1, c);
    }
  }

  // ----- the broker in place -----

  class Channel<E> {
    var buffer: seq<E>
    var closed: bool
    ghost var received: seq<E>

    constructor ()
      ensures buffer == [] && !closed && received == []
    {
      buffer, closed, received := [], false, [];
    }

    /** A read that finds an event. */
    method Take() returns (event: E)
      requires buffer != []
      modifies this`buffer, this`received
      ensures event == old(buffer)[0] && buffer == old(buffer)[1..] && received == old(received) + [event]
    {
      event := buffer[0];
      buffer := buffer[1..];
      received := received + [event];
    }
  }

  class EventBroker<E> {
    var subscribers: set<Channel<E>>
    ghost var channels: seq<Channel<E>>

    /** Channels are made once, and exactly the subscribed ones are open. */
    ghost predicate Valid()
      reads this, channels
    {
      && (forall i, j :: 0 <= i < j < |channels| ==> channels[i] != channels[j])
      && (forall ch :: ch in subscribers ==> ch in channels)
      && (forall i :: 0 <= i < |channels| ==> (channels[i] in subscribers <==> !channels[i].closed))
    }

    ghost function Buffers(): seq<seq<E>>
      reads this, channels
    {
      seq(|channels|, i requires 0 <= i < |channels| reads this, channels => channels[i].buffer)
    }

    ghost function Received(): seq<seq<E>>
      reads this, channels
    {
      seq(|channels|, i requires 0 <= i < |channels| reads this, channels => channels[i].received)
    }

    ghost function Subscribed(): set<nat>
      reads this
    {
      set i: nat | i < |channels| && channels[i] in subscribers
    }

    /** The broker and its channels as a state of the run model. */
    ghost function View(): State<E>
      reads this, channels
    {
      State(Buffers(), Received(), Subscribed())
    }

    constructor ()
      ensures Valid() && View() == Start()
    {
      subscribers := {};
      channels := [];
    }

    method Subscribe() returns (ch: Channel<E>)
      requires Valid()
      modifies this
      ensures Valid() && fresh(ch) && channels == old(channels) + [ch]
      ensures View() == Do(old(View()), Op.Subscribe)
      ensures subscribers == old(subscribers) + {ch} && ch.buffer == [] && !ch.closed
    {
      ch := new Channel<E>();
      subscribers := subscribers + {ch};
      channels := channels + [ch];
      assert Buffers() == old(Buffers()) + [[]];
      assert Received() == old(Received()) + [[]];
      assert Subscribed() == old(Subscribed()) + {|old(channels)|};
    }

    /** Closing a channel twice panics, so a channel is unsubscribed once. */
    method Unsubscribe(ch: Channel<E>, ghost c: nat)
      requires Valid() && c < |channels| && channels[c] == ch && !ch.closed
      modifies this, ch`closed
      ensures Valid() && ch.closed && channels == old(channels)
      ensures View() == Do(old(View()), Op.Unsubscribe(c))
      ensures subscribers == old(subscribers) - {ch}
    {
      subscribers := subscribers - {ch};
      ch.closed := true;
      assert Buffers() == old(Buffers()) && Received() == old(Received());
      assert Subscribed() == old(Subscribed()) - {c};
    }

    /** Every subscriber is offered the event, in whatever order; closed channels are never written to. */
    method Publish(event: E)
      requires Valid()
      modifies subscribers
      ensures Valid() && channels == old(channels) && subscribers == old(subscribers)
      ensures View() == Do(old(View()), Op.Publish(event))
      ensures forall ch :: ch in subscribers ==>
        ch.buffer == if |old(ch.buffer)| < 100 then old(ch.buffer) + [event] else old(ch.buffer)
    {
      var todo := subscribers;
      while todo != {}
        invariant todo <= subscribers
        invariant forall ch :: ch in channels ==> ch.closed == old(ch.closed) && ch.received == old(ch.received)
        invariant forall ch :: ch in channels && (ch in todo || ch !in subscribers) ==> ch.buffer == old(ch.buffer)
        invariant forall ch :: ch in subscribers && ch !in todo ==> ch.buffer == Offer(old(ch.buffer), event)
        decreases todo
      {
        var ch :| ch in todo;
        todo := todo - {ch};
        if |ch.buffer| < CAPACITY {
          ch.buffer := ch.buffer + [event];
        }
      }
      assert Buffers() == Delivered(old(View()), event);
      assert Received() == old(Received()) && Subscribed() == old(Subscribed());
    }

    /** A reader takes an event off its channel, if there is one. */
    method Receive(ch: Channel<E>, ghost c: nat) returns (event: seq<E>)
      requires Valid() && c < |channels| && channels[c] == ch
      modifies ch`buffer, ch`received
      ensures Valid() && event == (if old(ch.buffer) == [] then [] else [old(ch.buffer)[0]])
      ensures View() == Do(old(View()), Op.Receive(c))
    {
      event := [];
      if ch.buffer != [] {
        var e := ch.Take();
        event := [e];
      }
      assert Subscribed() == old(Subscribed());
      assert Received() == Do(old(View()), Op.Receive(c)).received;
      assert Buffers() == Do(old(View()), Op.Receive(c)).buffers;
    }
  }
}
