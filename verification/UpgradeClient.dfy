/**
 Upgrade, monitor and browser together: what a client that receives every published
 message shows for the upgraded container.
 */
module UpgradeClient {
  import opened Wrappers
  import opened ContainerTable
  import opened UpgradeProtocol
  import opened ClientView

  /** The last save that concerns one of the two containers. */
  function LastSave(msgs: seq<Message>, a: Id, b: Id): Option<Message>
    decreases |msgs|
  {
    if msgs == [] then None
    else
      var m := msgs[|msgs| - 1];
      if m.Save? && (m.id == a || m.id == b) then Some(m) else LastSave(msgs[..|msgs| - 1], a, b)
  }

  /** The last save that concerns one of the two is of the second. */
  predicate LastSaved(msgs: seq<Message>, a: Id, b: Id) {
    LastSave(msgs, a, b).Some? && LastSave(msgs, a, b).value.id == b
  }

  lemma LastSaveAppend(msgs: seq<Message>, m: Message, a: Id, b: Id)
    ensures LastSave(msgs + [m], a, b) == if m.Save? && (m.id == a || m.id == b) then Some(m) else LastSave(msgs, a, b)
  {
    assert (msgs + [m])[..|msgs|] == msgs;
  }

  // ----- the published messages -----

  ghost predicate WellNamed(w: Setup, m: Message) {
    m.Save? ==> m.row.name == w.nameOf(m.id)
  }

  /** Messages are about known ids under their own names, and none deletes a live replacement. */
  ghost predicate MessagesOk(w: Setup, s: State) {
    && (forall i :: 0 <= i < |s.published| ==> WellNamed(w, s.published[i]) && s.published[i].id in s.host.used)
    && (s.monitor.Announcing? ==> WellNamed(w, s.monitor.message) && s.monitor.message.id in s.host.used)
    && (s.up.pc.NeedsAnnounce? ==> s.up.readBack.name == w.nameOf(w.oldId))
    && (HasReplacement(s.up.pc) && s.up.replacement.Some? ==>
          && (forall i :: 0 <= i < |s.published| ==> s.published[i] != Delete(s.up.replacement.value))
          && s.monitor != Announcing(Delete(s.up.replacement.value)))
  }

  /** A save of the replacement is still to be published by the monitor. */
  ghost predicate Coming(s: State, n: Id) {
    Pending(s.host.queue, Change(n)) || Saving(s.monitor) == Some(n)
  }

  /** While destroy(old) is queued so is create(new); once done, the replacement has the last word or will have it. */
  ghost predicate LastWordOk(w: Setup, s: State) {
    HasReplacement(s.up.pc) && s.up.replacement.Some? ==>
      var n := s.up.replacement.value;
      && (Pending(s.host.queue, Destroy(w.oldId)) ==> Pending(s.host.queue, Change(n)))
      && (s.up.pc.Done? && s.faithful ==> LastSaved(s.published, w.oldId, n) || Coming(s, n))
  }

  lemma WorldTells(w: Setup, rows0: Rows, s: State, step: Step)
    requires Inv(w, rows0, s) && MessagesOk(w, s) && LastWordOk(w, s) && WorldEnabled(w, s, step)
    ensures MessagesOk(w, Apply(w, s, step)) && LastWordOk(w, Apply(w, s, step))
  {
    HostAdvances(w, s.host, step.host);
  }

  lemma ReceiveTells(w: Setup, rows0: Rows, s: State, step: Step)
    requires Inv(w, rows0, s) && MessagesOk(w, s) && LastWordOk(w, s) && MonitorEnabled(s, step) && step.Receive?
    ensures MessagesOk(w, MonitorApply(s, step)) && LastWordOk(w, MonitorApply(s, step))
  {
    HostPops(w, s.host);
  }

  /** The monitor publishes what it announced. */
  lemma PublishTells(w: Setup, rows0: Rows, s: State)
    requires Inv(w, rows0, s) && MessagesOk(w, s) && LastWordOk(w, s) && MonitorEnabled(s, Announce)
    ensures MessagesOk(w, MonitorApply(s, Announce)) && LastWordOk(w, MonitorApply(s, Announce))
  {
    if s.up.replacement.Some? {
      LastSaveAppend(s.published, s.monitor.message, w.oldId, s.up.replacement.value);
    }
  }

  lemma AnnounceTells(w: Setup, rows0: Rows, s: State, step: Step)
    requires Inv(w, rows0, s) && MessagesOk(w, s) && LastWordOk(w, s) && MonitorEnabled(s, step) && !step.Receive?
    ensures MessagesOk(w, MonitorApply(s, step)) && LastWordOk(w, MonitorApply(s, step))
  {
    if step.Announce? {
      PublishTells(w, rows0, s);
    }
  }

  lemma TeardownIsQuiet(w: Setup, s: State, step: Step)
    requires TeardownEnabled(w, s, step)
    ensures var s' := TeardownApply(w, s, step);
            && s'.published == s.published && s'.monitor == s.monitor && s.host.used <= s'.host.used
            && !HasReplacement(s'.up.pc)
  {
  }

  /** While there is no replacement only the names of the messages matter. */
  lemma QuietTells(w: Setup, s: State, s': State)
    requires MessagesOk(w, s) && !HasReplacement(s'.up.pc)
    requires s'.published == s.published && s'.monitor == s.monitor && s.host.used <= s'.host.used
    ensures MessagesOk(w, s') && LastWordOk(w, s')
  {
  }

  lemma TeardownTells(w: Setup, s: State, step: Step)
    requires MessagesOk(w, s) && TeardownEnabled(w, s, step)
    ensures MessagesOk(w, TeardownApply(w, s, step)) && LastWordOk(w, TeardownApply(w, s, step))
  {
    TeardownIsQuiet(w, s, step);
    QuietTells(w, s, TeardownApply(w, s, step));
  }

  lemma CreateTells(w: Setup, rows0: Rows, s: State, step: Step)
    requires Inv(w, rows0, s) && MessagesOk(w, s) && LastWordOk(w, s) && RecreateEnabled(w, s, step) && step.Create?
    ensures MessagesOk(w, RecreateApply(w, s, step)) && LastWordOk(w, RecreateApply(w, s, step))
  {
    Appended(s.host.queue, Change(step.newId));
  }

  lemma RecreateTells(w: Setup, rows0: Rows, s: State, step: Step)
    requires Inv(w, rows0, s) && MessagesOk(w, s) && LastWordOk(w, s) && RecreateEnabled(w, s, step)
    ensures MessagesOk(w, RecreateApply(w, s, step)) && LastWordOk(w, RecreateApply(w, s, step))
  {
    if step.Create? {
      CreateTells(w, rows0, s, step);
    } else if step.Start? {
      Appended(s.host.queue, Change(s.up.replacement.value));
    }
  }

  /** The upgrade's own save of the replacement is the last word. */
  lemma SaveTells(w: Setup, rows0: Rows, s: State)
    requires Inv(w, rows0, s) && MessagesOk(w, s) && LastWordOk(w, s) && CommitEnabled(s, PublishSave)
    ensures MessagesOk(w, CommitApply(w, s, PublishSave)) && LastWordOk(w, CommitApply(w, s, PublishSave))
  {
    LastSaveAppend(s.published, Save(s.up.replacement.value, s.up.readBack), w.oldId, s.up.replacement.value);
  }

  lemma CommitTells(w: Setup, rows0: Rows, s: State, step: Step)
    requires Inv(w, rows0, s) && MessagesOk(w, s) && LastWordOk(w, s) && CommitEnabled(s, step)
    ensures MessagesOk(w, CommitApply(w, s, step)) && LastWordOk(w, CommitApply(w, s, step))
  {
    if step.PublishSave? {
      SaveTells(w, rows0, s);
    }
  }

  lemma {:induction false} RunTells(w: Setup, s0: State, steps: seq<Step>, s: State)
    requires Init(w, s0) && Reaches(w, s0, steps, s)
    ensures MessagesOk(w, s) && LastWordOk(w, s)
    decreases |steps|
  {
    if steps != [] {
      var n := |steps| - 1;
      var p :| Reaches(w, s0, steps[..n], p) && Enabled(w, p, steps[n]) && s == Apply(w, p, steps[n]);
      RunKeeps(w, s0, steps[..n], p);
      RunTells(w, s0, steps[..n], p);
      StepTells(w, s0.rows, p, steps[n]);
    }
  }

  lemma StepTells(w: Setup, rows0: Rows, s: State, step: Step)
    requires Inv(w, rows0, s) && MessagesOk(w, s) && LastWordOk(w, s) && Enabled(w, s, step)
    ensures MessagesOk(w, Apply(w, s, step)) && LastWordOk(w, Apply(w, s, step))
  {
    if WorldEnabled(w, s, step) {
      WorldTells(w, rows0, s, step);
    } else if MonitorEnabled(s, step) {
      if step.Receive? {
        ReceiveTells(w, rows0, s, step);
      } else {
        AnnounceTells(w, rows0, s, step);
      }
    } else if TeardownEnabled(w, s, step) {
      TeardownTells(w, s, step);
    } else if RecreateEnabled(w, s, step) {
      RecreateTells(w, rows0, s, step);
    } else {
      CommitTells(w, rows0, s, step);
    }
  }

  // ----- the client's side -----

  /** The messages among a client's inputs. */
  function Received(inputs: seq<Input>): seq<Message>
    decreases |inputs|
  {
    if inputs == [] then []
    else
      var before := Received(inputs[..|inputs| - 1]);
      var i := inputs[|inputs| - 1];
      if i.Arrives? then before + [i.message] else before
  }

  /** The client lists the replacement, not the old container, and is not about to drop it. */
  ghost predicate ShowsReplacement(w: Setup, c: Client, n: Id) {
    && (exists e :: e in c.list && e.id == n)
    && (forall e :: e in c.list ==> e.id != w.oldId)
    && w.nameOf(n) !in c.timers
  }

  /** The client's entry for the replacement is what `last` saved, or there is none. */
  ghost predicate ShowsExactly(w: Setup, c: Client, n: Id, last: Option<Message>) {
    && (forall row :: Entry(n, row) in c.list <==> last == Some(Save(n, row)))
    && (last.Some? && last.value.id == n ==> (forall e :: e in c.list ==> e.id != w.oldId) && w.nameOf(n) !in c.timers)
  }

  /** What the server's messages have in common. */
  ghost predicate Heard(w: Setup, n: Id, m: Message) {
    && WellNamed(w, m) && m != Delete(n)
    && (m.id == n || m.id == w.oldId || w.nameOf(m.id) != w.nameOf(n))
  }

  lemma SaveShows(w: Setup, c: Client, id: Id, row: Row, n: Id, last: Option<Message>)
    requires Tidy(w.nameOf, c) && ShowsExactly(w, c, n, last) && n != w.oldId && w.nameOf(n) == w.nameOf(w.oldId)
    requires Heard(w, n, Save(id, row)) && (last.Some? ==> last.value.Save?)
    ensures ShowsExactly(w, OnSave(c, id, row), n, if id == n || id == w.oldId then Some(Save(id, row)) else last)
  {
    SaveKeepsTidy(w.nameOf, c, id, row);
    var c' := OnSave(c, id, row);
    forall r
      ensures Entry(n, r) in c.list ==> r.name == w.nameOf(n)
    {
      if Entry(n, r) in c.list {
        assert Entry(n, r).row.name == w.nameOf(Entry(n, r).id);
      }
    }
  }

  lemma DeleteShows(w: Setup, c: Client, id: Id, n: Id, last: Option<Message>)
    requires Tidy(w.nameOf, c) && ShowsExactly(w, c, n, last) && Heard(w, n, Delete(id))
             && w.nameOf(n) == w.nameOf(w.oldId)
    ensures ShowsExactly(w, OnDelete(c, id), n, last)
  {
    DeleteKeepsTidy(w.nameOf, c, id);
    var k := IndexOfId(c.list, id);
    if k >= 0 {
      assert c.list[k] in c.list;
    }
  }

  lemma FireShows(w: Setup, c: Client, name: string, n: Id, last: Option<Message>)
    requires Tidy(w.nameOf, c) && ShowsExactly(w, c, n, last) && (last.Some? ==> last.value.Save?)
    requires forall m :: m in c.timers ==> c.timers[m] != n
    ensures ShowsExactly(w, OnFire(c, name), n, last)
  {
  }

  /** No timer waits for the replacement: only a delete of it would arm one. */
  lemma ReactArmsOthers(c: Client, i: Input, n: Id)
    requires i.Arrives? ==> i.message != Delete(n)
    requires forall m :: m in c.timers ==> c.timers[m] != n
    ensures forall m :: m in React(c, i).timers ==> React(c, i).timers[m] != n
  {
  }

  lemma {:induction false} LastSaveIn(msgs: seq<Message>, a: Id, b: Id)
    ensures LastSave(msgs, a, b).Some? ==> LastSave(msgs, a, b).value in msgs && LastSave(msgs, a, b).value.Save?
    decreases |msgs|
  {
    if msgs != [] {
      LastSaveIn(msgs[..|msgs| - 1], a, b);
    }
  }

  lemma ReceivedSnoc(inputs: seq<Input>)
    requires inputs != []
    ensures var before, i := Received(inputs[..|inputs| - 1]), inputs[|inputs| - 1];
            && Received(inputs) == (if i.Arrives? then before + [i.message] else before)
            && (forall m :: m in before ==> m in Received(inputs))
            && (i.Arrives? ==> i.message in Received(inputs))
  {
  }

  lemma ReactShows(w: Setup, c: Client, i: Input, n: Id, last: Option<Message>)
    requires Tidy(w.nameOf, c) && ShowsExactly(w, c, n, last) && n != w.oldId && w.nameOf(n) == w.nameOf(w.oldId)
    requires i.Arrives? ==> Heard(w, n, i.message)
    requires last.Some? ==> last.value.Save?
    requires forall m :: m in c.timers ==> c.timers[m] != n
    ensures ShowsExactly(w, React(c, i), n,
                         if i.Arrives? && i.message.Save? && (i.message.id == n || i.message.id == w.oldId)
                           then Some(i.message) else last)
  {
    match i
    case Arrives(Save(id, row)) => SaveShows(w, c, id, row, n, last);
    case Arrives(Delete(id)) => DeleteShows(w, c, id, n, last);
    case Fires(name) => FireShows(w, c, name, n, last);
  }

  /**
   What a client shows for the replacement is decided by the last save it heard about either
   container, whatever else it heard or missed and whenever its timers went off.
   */
  lemma {:induction false} LastSaveWins(w: Setup, c: Client, inputs: seq<Input>, n: Id)
    requires Tidy(w.nameOf, c) && (forall e :: e in c.list ==> e.id != n)
    requires n != w.oldId && w.nameOf(n) == w.nameOf(w.oldId)
    requires forall m :: m in Received(inputs) ==> Heard(w, n, m)
    ensures Tidy(w.nameOf, ReactAll(c, inputs))
    ensures ShowsExactly(w, ReactAll(c, inputs), n, LastSave(Received(inputs), w.oldId, n))
    ensures forall m :: m in ReactAll(c, inputs).timers ==> ReactAll(c, inputs).timers[m] != n
    decreases |inputs|
  {
    if inputs == [] {
      assert forall row :: Entry(n, row) in c.list ==> Entry(n, row).id != n;
    } else {
      var k := |inputs| - 1;
      var i, before, b := inputs[k], Received(inputs[..k]), ReactAll(c, inputs[..k]);
      ReceivedSnoc(inputs);
      LastSaveWins(w, c, inputs[..k], n);
      LastSaveIn(before, w.oldId, n);
      if i.Arrives? {
        assert Heard(w, n, i.message);
        LastSaveAppend(before, i.message, w.oldId, n);
      }
      ReactKeepsTidy(w.nameOf, b, i);
      ReactArmsOthers(b, i, n);
      ReactShows(w, b, i, n, LastSave(before, w.oldId, n));
    }
  }

  lemma ShowsIff(w: Setup, c: Client, n: Id, last: Option<Message>)
    requires ShowsExactly(w, c, n, last) && (last.Some? ==> last.value.Save?)
    ensures ShowsReplacement(w, c, n) <==> last.Some? && last.value.id == n
  {
    if last.Some? && last.value.id == n {
      assert last == Some(Save(n, last.value.row));
      assert Entry(n, last.value.row) in c.list;
    }
    if e :| e in c.list && e.id == n {
      assert e == Entry(n, e.row);
    }
  }

  /**
   At any point of any run, a client that has received some of the published messages, in any
   order, with its delete timers going off anywhere in between, lists the replacement and not
   the old container if and only if the last save it received about either is the
   replacement's. In the order of publication and with none lost that is so once a completed
   upgrade has drained, if every inspection of a live container succeeded. Assumed: no third
   container carries the name.
   */
  lemma ClientFollowsUpgrade(w: Setup, s0: State, steps: seq<Step>, s: State, c: Client, inputs: seq<Input>)
    requires Init(w, s0) && Reaches(w, s0, steps, s) && HasReplacement(s.up.pc)
    requires Tidy(w.nameOf, c) && (forall e :: e in c.list ==> e.id in s0.host.used)
    requires forall m :: m in Received(inputs) ==> m in s.published
    requires forall id :: id in s.host.used && id != w.oldId && s.up.replacement != Some(id) ==>
             w.nameOf(id) != w.nameOf(w.oldId)
    ensures s.up.replacement.Some?
    ensures ShowsReplacement(w, ReactAll(c, inputs), s.up.replacement.value) <==>
            LastSaved(Received(inputs), w.oldId, s.up.replacement.value)
    ensures s.up.pc == Done && Quiescent(s) && s.faithful && Received(inputs) == s.published ==>
            ShowsReplacement(w, ReactAll(c, inputs), s.up.replacement.value)
  {
    RunKeeps(w, s0, steps, s);
    RunTells(w, s0, steps, s);
    var n := s.up.replacement.value;
    assert Quiescent(s) ==> !Coming(s, n);
    PublishedOk(w, s);
    ReplacementIsNew(w, s0, steps, s);
    LastSaveWins(w, c, inputs, n);
    LastSaveIn(Received(inputs), w.oldId, n);
    ShowsIff(w, ReactAll(c, inputs), n, LastSave(Received(inputs), w.oldId, n));
  }

  /** The replacement's id was never handed out before the run. */
  lemma ReplacementIsNew(w: Setup, s0: State, steps: seq<Step>, s: State)
    requires Init(w, s0) && Reaches(w, s0, steps, s) && s.up.replacement.Some?
    ensures s.up.replacement.value !in s0.host.used
  {
    RunKeeps(w, s0, steps, s);
  }

  lemma PublishedOk(w: Setup, s: State)
    requires MessagesOk(w, s) && HasReplacement(s.up.pc) && s.up.replacement.Some?
    requires w.nameOf(s.up.replacement.value) == w.nameOf(w.oldId)
    requires forall id :: id in s.host.used && id != w.oldId && s.up.replacement != Some(id) ==>
             w.nameOf(id) != w.nameOf(w.oldId)
    ensures var n := s.up.replacement.value;
            forall m :: m in s.published ==>
              Heard(w, n, m)
  {
  }
}
