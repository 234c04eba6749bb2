/**
 The broker with overlapping publishers: publishing holds a read lock, so several publishes
 may send at the same time, one channel after the other, while readers receive.
 Subscribing and unsubscribing wait until no publish is under way.
 */
module BrokerRaces {
  import Broker

  /** A publish under way: its event and the channels it has still to visit. */
  datatype Publishing<E> = Publishing(event: E, todo: set<nat>)

  /** `offered` is what was sent to each channel, whether or not there was room. */
  datatype Race<E> = Race(state: Broker.State<E>, publishing: map<nat, Publishing<E>>, offered: seq<seq<E>>)

  datatype Step<E> =
    | Subscribe
    | Unsubscribe(ch: nat)
    | Begin(publisher: nat, event: E)
    | Send(publisher: nat, ch: nat)
    | End(publisher: nat)
    | Receive(ch: nat)

  predicate Enabled<E>(s: Race<E>, step: Step<E>) {
    match step
    case Subscribe => s.publishing == map[]
    case Unsubscribe(_) => s.publishing == map[]
    case Begin(p, _) => p !in s.publishing
    case Send(p, c) => p in s.publishing && c in s.publishing[p].todo && c < |s.state.buffers| && c < |s.offered|
    case End(p) => p in s.publishing && s.publishing[p].todo == {}
    case Receive(_) => true
  }

  function Apply<E>(s: Race<E>, step: Step<E>): Race<E>
    requires Enabled(s, step)
  {
    match step
    case Subscribe => s.(state := Broker.Do(s.state, Broker.Subscribe), offered := s.offered + [[]])
    case Unsubscribe(c) => s.(state := Broker.Do(s.state, Broker.Unsubscribe(c)))
    case Begin(p, e) => s.(publishing := s.publishing[p := Publishing(e, s.state.subscribers)])
    case Send(p, c) =>
      var e, todo := s.publishing[p].event, s.publishing[p].todo - {c};
      Race(s.state.(buffers := s.state.buffers[c := Broker.Offer(s.state.buffers[c], e)]),
           s.publishing[p := Publishing(e, todo)],
           s.offered[c := s.offered[c] + [e]])
    case End(p) => s.(publishing := s.publishing - {p})
    case Receive(c) => s.(state := Broker.Do(s.state, Broker.Receive(c)))
  }

  predicate Runs<E>(s: Race<E>, steps: seq<Step<E>>)
    decreases |steps|
  {
    steps != [] ==> Enabled(s, steps[0]) && Runs(Apply(s, steps[0]), steps[1..])
  }

  function RunAll<E>(s: Race<E>, steps: seq<Step<E>>): Race<E>
    requires Runs(s, steps)
    decreases |steps|
  {
    if steps == [] then s else RunAll(Apply(s, steps[0]), steps[1..])
  }

  function Start<E>(): Race<E> {
    Race(Broker.Start(), map[], [])
  }

  ghost predicate RaceOk<E>(s: Race<E>) {
    && |s.state.buffers| == |s.state.received| == |s.offered|
    && (forall c :: c in s.state.subscribers ==> c < |s.offered|)
    && (forall p :: p in s.publishing ==> s.publishing[p].todo <= s.state.subscribers)
  }

  lemma StepOk<E>(s: Race<E>, step: Step<E>)
    requires RaceOk(s) && Enabled(s, step)
    ensures RaceOk(Apply(s, step))
  {
  }

  // ----- what one channel sees is a run of single publishes -----

  /** The run as channel `c` sees it: a publish happens when it sends to `c`. */
  function AsSeen<E>(s: Race<E>, step: Step<E>, c: nat): seq<Broker.Op<E>>
    requires Enabled(s, step)
  {
    match step
    case Subscribe => [Broker.Subscribe]
    case Unsubscribe(d) => [Broker.Unsubscribe(d)]
    case Send(p, d) => if d == c then [Broker.Publish(s.publishing[p].event)] else []
    case Receive(d) => [Broker.Receive(d)]
    case _ => []
  }

  function AllAsSeen<E>(s: Race<E>, steps: seq<Step<E>>, c: nat): seq<Broker.Op<E>>
    requires Runs(s, steps)
    decreases |steps|
  {
    if steps == [] then [] else AsSeen(s, steps[0], c) + AllAsSeen(Apply(s, steps[0]), steps[1..], c)
  }

  /** The two states have the same channels and agree on `c`. */
  ghost predicate AgreeOn<E>(a: Broker.State<E>, b: Broker.State<E>, c: nat) {
    && |a.buffers| == |a.received| == |b.buffers| == |b.received|
    && a.subscribers == b.subscribers
    && (c < |a.buffers| ==> a.buffers[c] == b.buffers[c] && a.received[c] == b.received[c])
  }

  function DoAll<E>(s: Broker.State<E>, ops: seq<Broker.Op<E>>): Broker.State<E>
    decreases |ops|
  {
    if ops == [] then s else DoAll(Broker.Do(s, ops[0]), ops[1..])
  }

  lemma StepAgrees<E>(s: Race<E>, step: Step<E>, b: Broker.State<E>, c: nat)
    requires RaceOk(s) && Enabled(s, step) && AgreeOn(s.state, b, c)
    ensures AgreeOn(Apply(s, step).state, DoAll(b, AsSeen(s, step, c)), c)
  {
    var ops := AsSeen(s, step, c);
    if ops != [] {
      assert ops[1..] == [] && DoAll(b, ops) == Broker.Do(b, ops[0]);
    }
  }

  lemma {:induction false} DoAllConcat<E>(s: Broker.State<E>, xs: seq<Broker.Op<E>>, ys: seq<Broker.Op<E>>)
    ensures DoAll(s, xs + ys) == DoAll(DoAll(s, xs), ys)
    decreases |xs|
  {
    if xs == [] {
      assert xs + ys == ys;
    } else {
      DoAllConcat(Broker.Do(s, xs[0]), xs[1..], ys);
      assert (xs + ys)[1..] == xs[1..] + ys;
    }
  }

  lemma {:induction false} RunAgrees<E>(s: Race<E>, steps: seq<Step<E>>, b: Broker.State<E>, c: nat)
    requires RaceOk(s) && Runs(s, steps) && AgreeOn(s.state, b, c)
    ensures AgreeOn(RunAll(s, steps).state, DoAll(b, AllAsSeen(s, steps, c)), c)
    decreases |steps|
  {
    if steps != [] {
      var b' := DoAll(b, AsSeen(s, steps[0], c));
      StepOk(s, steps[0]);
      StepAgrees(s, steps[0], b, c);
      RunAgrees(Apply(s, steps[0]), steps[1..], b', c);
      DoAllConcat(b, AsSeen(s, steps[0], c), AllAsSeen(Apply(s, steps[0]), steps[1..], c));
    }
  }

  lemma {:induction false} AfterIsDoAll<E>(ops: seq<Broker.Op<E>>, n: nat)
    requires n <= |ops|
    ensures Broker.After(ops, n) == DoAll(Broker.Start(), ops[..n])
  {
    if n > 0 {
      AfterIsDoAll(ops, n - 1);
      assert ops[..n] == ops[..n - 1] + [ops[n - 1]];
      DoAllConcat(Broker.Start(), ops[..n - 1], [ops[n - 1]]);
      assert [ops[n - 1]][1..] == [];
    }
  }

  /**
   However publishes overlap, a channel is as if they had happened one at a time, in the order
   in which they got to it; so received and waiting events are exactly those sent to the
   channel while it had room, and nothing is missed if and only if it always had.
   */
  lemma EachChannelIsSerial<E>(steps: seq<Step<E>>, c: nat)
    requires Runs(Start(), steps) && c < |RunAll(Start(), steps).state.buffers|
    ensures var s, ops := RunAll(Start(), steps).state, AllAsSeen(Start(), steps, c);
            && |s.received| == |s.buffers| && c < |Broker.After(ops, |ops|).buffers|
            && s.buffers[c] == Broker.After(ops, |ops|).buffers[c]
            && s.received[c] == Broker.After(ops, |ops|).received[c]
            && s.received[c] + s.buffers[c] == Broker.Kept(ops, |ops|, c)
            && (s.received[c] + s.buffers[c] == Broker.Published(ops, |ops|, c) <==> Broker.NeverFull(ops, |ops|, c))
  {
    var ops := AllAsSeen(Start(), steps, c);
    RunAgrees(Start(), steps, Broker.Start(), c);
    AfterIsDoAll(ops, |ops|);
    assert ops[..|ops|] == ops;
    Broker.ReaderSeesWhatFitted(ops, |ops|, c);
    Broker.NothingMissedIff(ops, |ops|, c);
  }

  // ----- two channels -----

  /** What has been sent to a channel, and what the publishes under way have still to send. */
  ghost predicate InStep<E>(s: Race<E>, c: nat, before: nat, d: nat, before': nat)
    requires c < |s.offered| && d < |s.offered| && before <= |s.offered[c]| && before' <= |s.offered[d]|
  {
    var a, b := s.offered[c][before..], s.offered[d][before'..];
    && c in s.state.subscribers && d in s.state.subscribers
    && (s.publishing == map[] ==> a == b)
    && (forall p :: p in s.publishing ==>
          var e, todo := s.publishing[p].event, s.publishing[p].todo;
          && s.publishing == map[p := s.publishing[p]]
          && a + (if c in todo then [e] else []) == b + (if d in todo then [e] else []))
  }

  /** At most one publish at a time, and neither channel leaves. */
  predicate Undisturbed<E>(s: Race<E>, step: Step<E>, c: nat, d: nat) {
    && (step.Begin? ==> s.publishing == map[])
    && (step.Unsubscribe? ==> step.ch != c && step.ch != d)
  }

  predicate AllUndisturbed<E>(s: Race<E>, steps: seq<Step<E>>, c: nat, d: nat)
    requires Runs(s, steps)
    decreases |steps|
  {
    steps != [] ==> Undisturbed(s, steps[0], c, d) && AllUndisturbed(Apply(s, steps[0]), steps[1..], c, d)
  }

  lemma SendInStep<E>(s: Race<E>, p: nat, ch: nat, c: nat, before: nat, d: nat, before': nat)
    requires RaceOk(s) && Enabled(s, Send(p, ch)) && c < |s.offered| && d < |s.offered|
    requires before <= |s.offered[c]| && before' <= |s.offered[d]| && InStep(s, c, before, d, before')
    ensures InStep(Apply(s, Send(p, ch)), c, before, d, before')
  {
    var e := s.publishing[p].event;
    assert s.publishing == map[p := s.publishing[p]];
    assert (s.offered[c] + [e])[before..] == s.offered[c][before..] + [e];
    assert (s.offered[d] + [e])[before'..] == s.offered[d][before'..] + [e];
  }

  lemma StepInStep<E>(s: Race<E>, step: Step<E>, c: nat, before: nat, d: nat, before': nat)
    requires RaceOk(s) && Enabled(s, step) && c < |s.offered| && d < |s.offered| && Undisturbed(s, step, c, d)
    requires before <= |s.offered[c]| && before' <= |s.offered[d]| && InStep(s, c, before, d, before')
    ensures var s' := Apply(s, step);
            && c < |s'.offered| && d < |s'.offered| && before <= |s'.offered[c]| && before' <= |s'.offered[d]|
            && InStep(s', c, before, d, before')
  {
    if step.Send? {
      SendInStep(s, step.publisher, step.ch, c, before, d, before');
    } else if step.End? {
      var a, b := s.offered[c][before..], s.offered[d][before'..];
      assert step.publisher in s.publishing && a + [] == a && b + [] == b;
    }
  }

  lemma {:induction false} RunInStep<E>(s: Race<E>, steps: seq<Step<E>>, c: nat, before: nat, d: nat, before': nat)
    requires RaceOk(s) && Runs(s, steps) && c < |s.offered| && d < |s.offered| && AllUndisturbed(s, steps, c, d)
    requires before <= |s.offered[c]| && before' <= |s.offered[d]| && InStep(s, c, before, d, before')
    ensures var s' := RunAll(s, steps);
            && c < |s'.offered| && d < |s'.offered| && before <= |s'.offered[c]| && before' <= |s'.offered[d]|
            && InStep(s', c, before, d, before')
    decreases |steps|
  {
    if steps != [] {
      StepOk(s, steps[0]);
      StepInStep(s, steps[0], c, before, d, before');
      RunInStep(Apply(s, steps[0]), steps[1..], c, before, d, before');
    }
  }

  /** While no two publishes overlap, two subscribed channels are sent the same events in the same order. */
  lemma SerialPublishesAgree<E>(s: Race<E>, steps: seq<Step<E>>, c: nat, d: nat)
    requires RaceOk(s) && s.publishing == map[] && c in s.state.subscribers && d in s.state.subscribers
    requires Runs(s, steps) && AllUndisturbed(s, steps, c, d) && RunAll(s, steps).publishing == map[]
    ensures var s' := RunAll(s, steps);
            && c < |s.offered| && d < |s.offered| && c < |s'.offered| && d < |s'.offered|
            && |s.offered[c]| <= |s'.offered[c]| && |s.offered[d]| <= |s'.offered[d]|
            && s'.offered[c][|s.offered[c]|..] == s'.offered[d][|s.offered[d]|..]
  {
    RunInStep(s, steps, c, |s.offered[c]|, d, |s.offered[d]|);
  }

  lemma {:induction false} RunSnoc<E>(s: Race<E>, steps: seq<Step<E>>, step: Step<E>)
    requires Runs(s, steps) && Enabled(RunAll(s, steps), step)
    ensures Runs(s, steps + [step]) && RunAll(s, steps + [step]) == Apply(RunAll(s, steps), step)
    decreases |steps|
  {
    var all := steps + [step];
    if steps == [] {
      assert all == [step] && all[1..] == [];
    } else {
      RunSnoc(Apply(s, steps[0]), steps[1..], step);
      assert all[0] == steps[0] && all[1..] == steps[1..] + [step];
    }
  }

  /** Two channels, and two publishes that have begun. */
  lemma TwoUnderWay<E>(x: E, y: E) returns (steps: seq<Step<E>>)
    ensures Runs(Start(), steps)
    ensures var s := RunAll(Start(), steps);
            && s.offered == [[], []] && s.state.buffers == [[], []]
            && s.publishing == map[1 := Publishing(x, {0, 1}), 2 := Publishing(y, {0, 1})]
  {
    RunSnoc(Start(), [], Step<E>.Subscribe);
    RunSnoc(Start(), [] + [Step<E>.Subscribe], Step<E>.Subscribe);
    steps := [] + [Step<E>.Subscribe] + [Step<E>.Subscribe];
    assert RunAll(Start<E>(), steps).state.subscribers == {0, 1};
    RunSnoc(Start(), steps, Begin(1, x));
    RunSnoc(Start(), steps + [Begin(1, x)], Begin(2, y));
    steps := steps + [Begin(1, x)] + [Begin(2, y)];
  }

  /** Two publishes send to one channel, one after the other. */
  lemma VisitRuns<E>(s: Race<E>, steps: seq<Step<E>>, p: nat, q: nat, ch: nat)
    requires Runs(s, steps)
    requires var r := RunAll(s, steps);
             && p != q && r.publishing.Keys == {p, q} && ch < |r.state.buffers| && ch < |r.offered|
             && ch in r.publishing[p].todo && ch in r.publishing[q].todo
    ensures Runs(s, steps + [Send(p, ch)] + [Send(q, ch)])
    ensures var r, r' := RunAll(s, steps), RunAll(s, steps + [Send(p, ch)] + [Send(q, ch)]);
            && r'.offered == r.offered[ch := r.offered[ch] + [r.publishing[p].event] + [r.publishing[q].event]]
            && |r'.state.buffers| == |r.state.buffers| && r'.publishing.Keys == {p, q}
            && r'.publishing[p] == Publishing(r.publishing[p].event, r.publishing[p].todo - {ch})
            && r'.publishing[q] == Publishing(r.publishing[q].event, r.publishing[q].todo - {ch})
  {
    RunSnoc(s, steps, Send(p, ch));
    RunSnoc(s, steps + [Send(p, ch)], Send(q, ch));
  }

  /** Publishes that overlap may reach two channels in different orders. */
  lemma OrdersDiffer<E>(x: E, y: E) returns (steps: seq<Step<E>>)
    ensures Runs(Start(), steps)
    ensures var s := RunAll(Start(), steps);
            s.publishing == map[] && |s.offered| == 2 && s.offered[0] == [x, y] && s.offered[1] == [y, x]
  {
    steps := TwoUnderWay(x, y);
    VisitRuns(Start(), steps, 1, 2, 0);
    steps := steps + [Send(1, 0)] + [Send(2, 0)];
    VisitRuns(Start(), steps, 2, 1, 1);
    steps := steps + [Send(2, 1)] + [Send(1, 1)];
    RunSnoc(Start(), steps, End(1));
    steps := steps + [End(1)];
    RunSnoc(Start(), steps, End(2));
    steps := steps + [End(2)];
  }
}
