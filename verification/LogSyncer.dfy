/**
 The browser's log queue and the loop that drains it to the server in batches.

 Every await is a point where new entries may be queued, so the loop is a state
 machine; a reload of the page is a lost call. One page drains the queue at a time.
 */
module LogSyncer {
  const BATCH := 50

  /** Ids are assigned by the queue, ascending. */
  datatype Entry = Entry(id: nat, body: string)

  datatype Phase = Idle | Looping | Sending(batch: seq<Entry>) | Deleting(done: seq<Entry>) | Clearing

  /** `all` is every entry ever queued, `accepted` every entry the server has processed, in order. */
  datatype State = State(queue: seq<Entry>, all: seq<Entry>, accepted: seq<Entry>, phase: Phase)

  // A call that processed nothing ends the run as a failed one does.
  datatype Step =
    | Enqueue(body: string)
    | Begin
    | ReadBatch
    | ReadFails
    | CallSucceeds
    | CallFails(delivered: bool)
    | CallUnauthenticated
    | DeleteSucceeds
    | DeleteFails
    | ClearSucceeds
    | ClearFails

  function Without(queue: seq<Entry>, done: seq<Entry>): (r: seq<Entry>)
    ensures forall e :: e in r <==> e in queue && !(exists d :: d in done && d.id == e.id)
  {
    if queue == [] then []
    else
      var rest := Without(queue[1..], done);
      assert queue == [queue[0]] + queue[1..];
      if exists d :: d in done && d.id == queue[0].id then rest else [queue[0]] + rest
  }

  function FirstBatch(queue: seq<Entry>): (r: seq<Entry>)
    ensures r <= queue && |r| == (if |queue| < 50 then |queue| else 50)
  {
    if |queue| <= BATCH then queue else queue[..BATCH]
  }

  predicate Enabled(s: State, step: Step) {
    match step
    case Enqueue(_) => true
    case Begin => s.phase.Idle?
    case ReadBatch => s.phase.Looping?
    case ReadFails => s.phase.Looping?
    case CallSucceeds => s.phase.Sending?
    case CallFails(_) => s.phase.Sending?
    case CallUnauthenticated => s.phase.Sending?
    case DeleteSucceeds => s.phase.Deleting?
    case DeleteFails => s.phase.Deleting?
    case ClearSucceeds => s.phase.Clearing?
    case ClearFails => s.phase.Clearing?
  }

  function Apply(s: State, step: Step): State
    requires Enabled(s, step)
  {
    match step
    case Enqueue(body) =>
      var e := Entry(|s.all|, body);
      s.(queue := s.queue + [e], all := s.all + [e])
    case Begin => s.(phase := Looping)
    case ReadBatch => if s.queue == [] then s.(phase := Idle) else s.(phase := Sending(FirstBatch(s.queue)))
    case ReadFails => s.(phase := Idle)
    case CallSucceeds => s.(accepted := s.accepted + s.phase.batch, phase := Deleting(s.phase.batch))
    case CallFails(delivered) =>
      s.(accepted := if delivered then s.accepted + s.phase.batch else s.accepted, phase := Idle)
    case CallUnauthenticated => s.(phase := Clearing)
    case DeleteSucceeds =>
      s.(queue := Without(s.queue, s.phase.done), phase := if |s.phase.done| < BATCH then Idle else Looping)
    case DeleteFails => s.(phase := Idle)
    case ClearSucceeds => s.(queue := [], phase := Idle)
    case ClearFails => s.(phase := Idle)
  }

  predicate Runs(s: State, steps: seq<Step>)
    decreases |steps|
  {
    steps != [] ==> Enabled(s, steps[0]) && Runs(Apply(s, steps[0]), steps[1..])
  }

  function RunAll(s: State, steps: seq<Step>): State
    requires Runs(s, steps)
    decreases |steps|
  {
    if steps == [] then s else RunAll(Apply(s, steps[0]), steps[1..])
  }

  const FRESH := State([], [], [], Idle)

  // ----- what is lost, and when -----

  /** Entries carry their position as id, and the queue holds entries that were queued. */
  ghost predicate Numbered(s: State) {
    && (forall i :: 0 <= i < |s.all| ==> s.all[i].id == i)
    && (forall e :: e in s.queue ==> e in s.all)
  }

  /** A batch on its way is still queued, and one being deleted has been accepted. */
  ghost predicate Sound(s: State) {
    && Numbered(s)
    && (s.phase.Sending? ==> forall e :: e in s.phase.batch ==> e in s.queue)
    && (s.phase.Deleting? ==> forall e :: e in s.phase.done ==> e in s.all && e in s.accepted)
  }

  predicate Lost(s: State, e: Entry) {
    e in s.all && e !in s.queue && e !in s.accepted
  }

  /** The step clears the queue with the entry in it, not accepted before. */
  predicate Drops(s: State, step: Step, e: Entry) {
    step.ClearSucceeds? && e in s.queue && e !in s.accepted
  }

  predicate EverDropped(s: State, steps: seq<Step>, e: Entry)
    requires Runs(s, steps)
    decreases |steps|
  {
    steps != [] && (Drops(s, steps[0], e) || EverDropped(Apply(s, steps[0]), steps[1..], e))
  }

  lemma SameIdSameEntry(s: State, a: Entry, b: Entry)
    requires Numbered(s) && a in s.all && b in s.all && a.id == b.id
    ensures a == b
  {
  }

  lemma DeleteLosesNothing(s: State, e: Entry)
    requires Sound(s) && s.phase.Deleting?
    ensures Lost(Apply(s, DeleteSucceeds), e) <==> Lost(s, e)
  {
    if e in s.queue && e !in Apply(s, DeleteSucceeds).queue {
      var d :| d in s.phase.done && d.id == e.id;
      SameIdSameEntry(s, d, e);
    }
  }

  lemma StepLostIff(s: State, step: Step, e: Entry)
    requires Sound(s) && Enabled(s, step)
    ensures Sound(Apply(s, step))
    ensures Lost(Apply(s, step), e) <==> Lost(s, e) || Drops(s, step, e)
  {
    if step.DeleteSucceeds? {
      DeleteLosesNothing(s, e);
    }
  }

  /**
   However enqueues, failed reads, calls, deletes and clears, and reloads interleave: an
   entry is lost if and only if the queue was cleared while the entry was in it and not yet
   accepted. A lost entry stays lost.
   */
  lemma {:induction false} LostIffCleared(s: State, steps: seq<Step>, e: Entry)
    requires Sound(s) && Runs(s, steps)
    ensures Lost(RunAll(s, steps), e) <==> Lost(s, e) || EverDropped(s, steps, e)
    decreases |steps|
  {
    if steps != [] {
      StepLostIff(s, steps[0], e);
      LostIffCleared(Apply(s, steps[0]), steps[1..], e);
    }
  }

  lemma {:induction false} NothingDropped(s: State, steps: seq<Step>, e: Entry)
    requires Runs(s, steps) && forall i :: 0 <= i < |steps| ==> !steps[i].ClearSucceeds?
    ensures !EverDropped(s, steps, e)
    decreases |steps|
  {
    if steps != [] {
      NothingDropped(Apply(s, steps[0]), steps[1..], e);
    }
  }

  /** So unless the server answers that the session is gone, every entry is still queued or has been accepted. */
  lemma EntriesAreNeverLost(steps: seq<Step>, e: Entry)
    requires Runs(FRESH, steps) && forall i :: 0 <= i < |steps| ==> !steps[i].ClearSucceeds?
    requires e in RunAll(FRESH, steps).all
    ensures e in RunAll(FRESH, steps).queue || e in RunAll(FRESH, steps).accepted
  {
    LostIffCleared(FRESH, steps, e);
    NothingDropped(FRESH, steps, e);
  }

  // ----- without failures, exactly once and in order -----

  predicate Smooth(step: Step) {
    step.Enqueue? || step.Begin? || step.ReadBatch? || step.CallSucceeds? || step.DeleteSucceeds?
  }

  /** Accepted followed by what is still queued is everything, in order; a batch is the front of the queue. */
  ghost predicate InOrder(s: State) {
    && (forall i :: 0 <= i < |s.all| ==> s.all[i].id == i)
    && match s.phase
       case Deleting(done) => done != [] && done <= s.queue && s.all == s.accepted + s.queue[|done|..]
                              && |s.accepted| >= |done| && s.accepted[|s.accepted| - |done|..] == done
       case Sending(batch) => batch != [] && batch <= s.queue && s.all == s.accepted + s.queue
       case _ => s.all == s.accepted + s.queue
  }

  lemma {:induction false} WithoutNone(queue: seq<Entry>, done: seq<Entry>)
    requires forall e, d :: e in queue && d in done ==> d.id != e.id
    ensures Without(queue, done) == queue
    decreases |queue|
  {
    if queue != [] {
      WithoutNone(queue[1..], done);
      assert queue == [queue[0]] + queue[1..];
    }
  }

  lemma {:induction false} WithoutFront(front: seq<Entry>, rest: seq<Entry>, done: seq<Entry>)
    requires forall e :: e in front ==> e in done
    requires forall e, d :: e in rest && d in done ==> d.id != e.id
    ensures Without(front + rest, done) == rest
    decreases |front|
  {
    if front == [] {
      assert front + rest == rest;
      WithoutNone(rest, done);
    } else {
      assert front[0] in done;
      assert (front + rest)[1..] == front[1..] + rest;
      WithoutFront(front[1..], rest, done);
    }
  }

  lemma DeleteKeepsOrder(s: State)
    requires InOrder(s) && s.phase.Deleting?
    ensures Without(s.queue, s.phase.done) == s.queue[|s.phase.done|..]
  {
    var done, rest := s.phase.done, s.queue[|s.phase.done|..];
    var k := |s.accepted|;
    assert s.queue == done + rest;
    forall e, d | e in rest && d in done
      ensures d.id != e.id
    {
      var i :| 0 <= i < |rest| && rest[i] == e;
      var j :| 0 <= j < |done| && done[j] == d;
      assert s.all[k + i] == e && s.all[k - |done| + j] == d;
    }
    WithoutFront(done, rest, done);
  }

  lemma EnqueueKeepsOrder(s: State, body: string)
    requires InOrder(s)
    ensures InOrder(Apply(s, Enqueue(body)))
  {
    var e := Entry(|s.all|, body);
    if s.phase.Deleting? {
      var n := |s.phase.done|;
      assert (s.queue + [e])[n..] == s.queue[n..] + [e];
    }
  }

  lemma StepKeepsOrder(s: State, step: Step)
    requires InOrder(s) && Enabled(s, step) && Smooth(step)
    ensures InOrder(Apply(s, step))
  {
    match step
    case Enqueue(body) => EnqueueKeepsOrder(s, body);
    case DeleteSucceeds => DeleteKeepsOrder(s);
    case CallSucceeds => assert s.queue == s.phase.batch + s.queue[|s.phase.batch|..];
    case _ =>
  }

  lemma {:induction false} RunKeepsOrder(s: State, steps: seq<Step>)
    requires InOrder(s) && Runs(s, steps) && forall i :: 0 <= i < |steps| ==> Smooth(steps[i])
    ensures InOrder(RunAll(s, steps))
    decreases |steps|
  {
    if steps != [] {
      StepKeepsOrder(s, steps[0]);
      RunKeepsOrder(Apply(s, steps[0]), steps[1..]);
    }
  }

  /**
   Without failed calls or deletes the server accepts every entry exactly once and in id
   order: what it has accepted is always an initial part of what was queued, and all of it
   once the queue is empty.
   */
  lemma AcceptedOnceInOrder(steps: seq<Step>)
    requires Runs(FRESH, steps) && forall i :: 0 <= i < |steps| ==> Smooth(steps[i])
    ensures var s := RunAll(FRESH, steps);
            && s.accepted <= s.all && (s.queue == [] ==> s.accepted == s.all)
            && forall i :: 0 <= i < |s.accepted| ==> s.accepted[i].id == i
  {
    RunKeepsOrder(FRESH, steps);
  }

  // ----- the loop ends -----

  function Work(s: State): nat {
    4 * |s.queue| + match s.phase
                    case Idle => 0
                    case Looping => 3
                    case Sending(_) => 2
                    case Deleting(_) => 1
                    case Clearing => 1
  }

  /** A batch on its way is a nonempty front of the queue. */
  ghost predicate FrontOk(s: State) {
    && (s.phase.Sending? ==> s.phase.batch != [] && s.phase.batch <= s.queue)
    && (s.phase.Deleting? ==> s.phase.done != [] && s.phase.done <= s.queue)
  }

  lemma {:induction false} WithoutShortens(queue: seq<Entry>, done: seq<Entry>)
    ensures |Without(queue, done)| <= |queue|
    ensures queue != [] && queue[0] in done ==> |Without(queue, done)| < |queue|
    decreases |queue|
  {
    if queue != [] {
      WithoutShortens(queue[1..], done);
    }
  }

  /** Unless something new is queued or a new run starts, every step, failed or not, leaves strictly less to do. */
  lemma EachStepIsProgress(s: State, step: Step)
    requires FrontOk(s) && Enabled(s, step)
    ensures FrontOk(Apply(s, step))
    ensures !step.Enqueue? && !step.Begin? ==> Work(Apply(s, step)) < Work(s)
  {
    if step.DeleteSucceeds? {
      assert s.queue[0] == s.phase.done[0];
      WithoutShortens(s.queue, s.phase.done);
    }
  }

  lemma {:induction false} RunKeepsFront(s: State, steps: seq<Step>)
    requires FrontOk(s) && Runs(s, steps)
    ensures FrontOk(RunAll(s, steps))
    ensures (forall i :: 0 <= i < |steps| ==> !steps[i].Enqueue? && !steps[i].Begin?) ==> |steps| <= Work(s)
    decreases |steps|
  {
    if steps != [] {
      EachStepIsProgress(s, steps[0]);
      RunKeepsFront(Apply(s, steps[0]), steps[1..]);
    }
  }

  /**
   From any reachable state, with no new entries, the loop ends after at most four steps per queued
   entry, and three more.
   */
  lemma LoopEnds(before: seq<Step>, steps: seq<Step>)
    requires Runs(FRESH, before) && Runs(RunAll(FRESH, before), steps)
    requires forall i :: 0 <= i < |steps| ==> !steps[i].Enqueue? && !steps[i].Begin?
    ensures |steps| <= 4 * |RunAll(FRESH, before).queue| + 3
  {
    RunKeepsFront(FRESH, before);
    RunKeepsFront(RunAll(FRESH, before), steps);
  }

  // ----- the loop in place -----

  lemma {:induction false} RunConcat(s: State, xs: seq<Step>, ys: seq<Step>)
    requires Runs(s, xs) && Runs(RunAll(s, xs), ys)
    ensures Runs(s, xs + ys) && RunAll(s, xs + ys) == RunAll(RunAll(s, xs), ys)
    decreases |xs|
  {
    if xs == [] {
      assert xs + ys == ys;
    } else {
      RunConcat(Apply(s, xs[0]), xs[1..], ys);
      assert (xs + ys)[1..] == xs[1..] + ys;
    }
  }

  lemma RunOne(s: State, step: Step)
    requires Enabled(s, step)
    ensures Runs(s, [step]) && RunAll(s, [step]) == Apply(s, step)
  {
    assert [step][1..] == [];
  }

  lemma RunSnoc(s: State, xs: seq<Step>, step: Step)
    requires Runs(s, xs) && Enabled(RunAll(s, xs), step)
    ensures Runs(s, xs + [step]) && RunAll(s, xs + [step]) == Apply(RunAll(s, xs), step)
  {
    RunOne(RunAll(s, xs), step);
    RunConcat(s, xs, [step]);
  }

  datatype Answer = Processed | Nothing(delivered: bool) | Unauthenticated

  /**
   What the rest of the world does during one round: yields the queue or not, queues entries while
   a call is awaited, answers, stores or not.
   */
  datatype Round = Round(readable: bool, meanwhile: seq<string>, answer: Answer, later: seq<string>, stored: bool)

  const SMOOTH_ROUND := Round(true, [], Processed, [], true)

  ghost predicate DistinctIds(queue: seq<Entry>) {
    forall i, j :: 0 <= i < j < |queue| ==> queue[i].id != queue[j].id
  }

  lemma DeleteFront(queue: seq<Entry>, front: seq<Entry>)
    requires DistinctIds(queue) && front <= queue
    ensures Without(queue, front) == queue[|front|..]
  {
    assert queue == front + queue[|front|..];
    WithoutFront(front, queue[|front|..], front);
  }

  lemma RegroupFront(a: seq<Entry>, queue: seq<Entry>, front: seq<Entry>)
    requires front <= queue
    ensures (a + front) + queue[|front|..] == a + queue
  {
  }

  class Syncer {
    var queue: seq<Entry>
    var nextId: nat
    var accepted: seq<Entry>
    var isSyncing: bool
    ghost var all: seq<Entry>

    ghost predicate Valid()
      reads this
    {
      nextId == |all|
    }

    /** The syncer as a state of the run model, in a given phase of the loop. */
    ghost function View(phase: Phase): State
      reads this
    {
      State(queue, all, accepted, phase)
    }

    constructor ()
      ensures Valid() && View(Idle) == FRESH && !isSyncing
    {
      queue, nextId, accepted, isSyncing, all := [], 0, [], false, [];
    }

    /** Entries logged while the loop is in some phase. */
    method QueueEntries(bodies: seq<string>, ghost phase: Phase) returns (ghost steps: seq<Step>)
      requires Valid()
      modifies this`queue, this`nextId, this`all
      ensures Valid() && Runs(old(View(phase)), steps) && RunAll(old(View(phase)), steps) == View(phase)
      ensures old(queue) <= queue
      ensures bodies == [] ==> queue == old(queue)
    {
      steps := [];
      for i := 0 to |bodies|
        invariant Valid() && Runs(old(View(phase)), steps) && RunAll(old(View(phase)), steps) == View(phase)
        invariant old(queue) <= queue && (i == 0 ==> queue == old(queue))
      {
        RunSnoc(old(View(phase)), steps, Enqueue(bodies[i]));
        var e := Entry(nextId, bodies[i]);
        queue, nextId, all := queue + [e], nextId + 1, all + [e];
        steps := steps + [Enqueue(bodies[i])];
      }
    }

    /** What follows an answer that the session is gone. */
    method ClearQueue(later: seq<string>, stored: bool) returns (ghost steps: seq<Step>)
      requires Valid()
      modifies this`queue, this`nextId, this`all
      ensures Valid() && Runs(old(View(Clearing)), steps) && RunAll(old(View(Clearing)), steps) == View(Idle)
      ensures stored ==> queue == []
      ensures !stored && later == [] ==> queue == old(queue)
    {
      steps := QueueEntries(later, Clearing);
      if stored {
        RunSnoc(old(View(Clearing)), steps, ClearSucceeds);
        queue := [];
        steps := steps + [ClearSucceeds];
      } else {
        RunSnoc(old(View(Clearing)), steps, ClearFails);
        steps := steps + [ClearFails];
      }
    }

    /** What follows a processed batch. */
    method DeleteBatch(entries: seq<Entry>, later: seq<string>, stored: bool)
      returns (more: bool, ghost steps: seq<Step>)
      requires Valid()
      modifies this`queue, this`nextId, this`all
      ensures Valid() && Runs(old(View(Deleting(entries))), steps)
      ensures RunAll(old(View(Deleting(entries))), steps) == View(if more then Looping else Idle)
      ensures stored && later == [] ==> queue == Without(old(queue), entries) && more == (|entries| >= 50)
      ensures !stored ==> !more
      ensures !stored && later == [] ==> queue == old(queue)
    {
      steps := QueueEntries(later, Deleting(entries));
      if stored {
        RunSnoc(old(View(Deleting(entries))), steps, DeleteSucceeds);
        queue := Without(queue, entries);
        steps := steps + [DeleteSucceeds];
        more := !(|entries| < BATCH);
      } else {
        RunSnoc(old(View(Deleting(entries))), steps, DeleteFails);
        steps := steps + [DeleteFails];
        more := false;
      }
    }

    /** One round of the loop, a run of the model; it tells whether there is to be another. */
    method SyncRound(r: Round) returns (more: bool, ghost steps: seq<Step>)
      requires Valid()
      modifies this`queue, this`nextId, this`accepted, this`all
      ensures Valid() && Runs(old(View(Looping)), steps)
      ensures RunAll(old(View(Looping)), steps) == View(if more then Looping else Idle)
      ensures r == SMOOTH_ROUND ==>
        var entries := FirstBatch(old(queue));
        && accepted == old(accepted) + entries && queue == Without(old(queue), entries)
        && more == (|entries| >= 50)
      // what each answer leaves, when nothing is queued meanwhile
      ensures !r.readable || old(queue) == [] ==> !more && queue == old(queue) && accepted == old(accepted)
      ensures r.readable && old(queue) != [] && r.meanwhile == [] && r.later == [] ==>
        var batch := old(queue)[..if |old(queue)| < 50 then |old(queue)| else 50];
        && (r.answer.Processed? ==> accepted == old(accepted) + batch)
        && (r.answer.Processed? && r.stored ==>
              forall e :: e in queue <==> e in old(queue) && forall d :: d in batch ==> d.id != e.id)
        && (r.answer.Processed? && !r.stored ==> !more && queue == old(queue))
        && (r.answer.Nothing? ==> !more && queue == old(queue))
        && (r.answer.Nothing? && !r.answer.delivered ==> accepted == old(accepted))
        && (r.answer.Unauthenticated? ==> !more && accepted == old(accepted))
        && (r.answer.Unauthenticated? && r.stored ==> queue == [])
        && (r.answer.Unauthenticated? && !r.stored ==> queue == old(queue))
    {
      ghost var s0 := View(Looping);
      if !r.readable {
        RunOne(s0, ReadFails);
        return false, [ReadFails];
      }
      var entries := FirstBatch(queue);
      RunOne(s0, ReadBatch);
      steps := [ReadBatch];
      if |entries| == 0 {
        return false, steps;
      }
      ghost var part := QueueEntries(r.meanwhile, Sending(entries));
      RunConcat(s0, steps, part);
      steps := steps + part;
      match r.answer {
        case Processed =>
          RunSnoc(s0, steps, CallSucceeds);
          accepted := accepted + entries;
          steps := steps + [CallSucceeds];
          more, part := DeleteBatch(entries, r.later, r.stored);
          RunConcat(s0, steps, part);
          steps := steps + part;
        case Nothing(delivered) =>
          RunSnoc(s0, steps, CallFails(delivered));
          accepted := if delivered then accepted + entries else accepted;
          steps := steps + [CallFails(delivered)];
          more := false;
        case Unauthenticated =>
          RunSnoc(s0, steps, CallUnauthenticated);
          steps := steps + [CallUnauthenticated];
          part := ClearQueue(r.later, r.stored);
          RunConcat(s0, steps, part);
          steps := steps + part;
          more := false;
      }
    }

    /**
     Drains the queue in batches: a run of the model, whatever the world does in the rounds of
     `script`. After those rounds it behaves, so the loop ends; if it behaves from the start
     the whole queue is delivered in order.
     */
    method SyncPendingLogs(script: seq<Round>) returns (ghost steps: seq<Step>)
      requires Valid()
      modifies this
      ensures Valid() && isSyncing == old(isSyncing)
      ensures Runs(old(View(Idle)), steps) && RunAll(old(View(Idle)), steps) == View(Idle)
      ensures steps == [] <==> old(isSyncing)
      ensures !old(isSyncing) && script == [] && DistinctIds(old(queue)) ==>
        queue == [] && accepted == old(accepted) + old(queue)
    {
      steps := [];
      if isSyncing {
        return;
      }
      isSyncing := true;
      ghost var s0, whole := View(Idle), accepted + queue;
      ghost var calm := script == [] && DistinctIds(queue);
      RunOne(s0, Begin);
      steps := [Begin];
      var k := 0;
      var more := true;
      while more
        invariant Valid() && isSyncing && 0 <= k && steps != []
        invariant Runs(s0, steps) && RunAll(s0, steps) == View(if more then Looping else Idle)
        invariant calm ==> accepted + queue == whole && DistinctIds(queue) && (!more ==> queue == [])
        decreases if k < |script| then |script| - k else 0, more, |queue|
      {
        var round := if k < |script| then script[k] else SMOOTH_ROUND;
        ghost var part;
        if k >= |script| {
          SmoothRoundShrinks(queue);
        }
        if calm {
          DeleteFront(queue, FirstBatch(queue));
          RegroupFront(accepted, queue, FirstBatch(queue));
        }
        more, part := SyncRound(round);
        RunConcat(s0, steps, part);
        steps := steps + part;
        k := k + 1;
      }
      assert accepted + [] == accepted;
      isSyncing := false;
    }
  }

  lemma SmoothRoundShrinks(queue: seq<Entry>)
    ensures |FirstBatch(queue)| >= 50 ==> |Without(queue, FirstBatch(queue))| < |queue|
  {
    if queue != [] {
      assert queue[0] == FirstBatch(queue)[0];
    }
    WithoutShortens(queue, FirstBatch(queue));
  }
}
