/**
 What a browser lists for the upgraded container: the monitor may read the replacement's
 row before the commit and publish it after the upgrade's own notice, so the settings
 listed can end up wrong although those stored are right; here is exactly when.
 */
module UpgradeListing {
  import opened Wrappers
  import opened ContainerTable
  import opened UpgradeProtocol
  import opened UpgradeCode
  import opened UpgradeWitness
  import opened UpgradeState
  import opened ClientView
  import opened UpgradeClient

  // ----- what the monitor may publish -----

  /** Until the commit the replacement's row, if the monitor made one, has the defaults. */
  ghost predicate Plain(s: State) {
    !PostSwap(s.up.pc) && s.up.replacement.Some? && s.up.replacement.value in s.rows ==>
      s.rows[s.up.replacement.value].autoUpdate == 0 && s.rows[s.up.replacement.value].lastUpdatedAt == None
  }

  /** The save was read after some upgrade had written the row. */
  predicate Dated(m: Message) {
    m.Save? && m.row.lastUpdatedAt.Some?
  }

  /** A dated save of the replacement carries the settings the upgrade loaded. */
  ghost predicate Honest(u: Upgrade, m: Message) {
    u.replacement.Some? && m.id == u.replacement.value && Dated(m) ==> CarriedOver(m.row, u.existing, u.plan)
  }

  ghost predicate MessagesHonest(s: State) {
    && (forall i :: 0 <= i < |s.published| ==> Honest(s.up, s.published[i]))
    && (s.monitor.Announcing? ==> Honest(s.up, s.monitor.message))
  }

  ghost predicate Candid(s: State) {
    Plain(s) && MessagesHonest(s)
  }

  lemma WorldCandid(w: Setup, s: State, step: Step)
    requires Candid(s) && WorldEnabled(w, s, step)
    ensures Candid(Apply(w, s, step))
  {
  }

  lemma MonitorPlain(s: State, step: Step)
    requires Plain(s) && MonitorEnabled(s, step)
    ensures Plain(MonitorApply(s, step))
  {
  }

  /** The monitor publishes what it announced, and announces a row as it reads it. */
  lemma MonitorCandid(w: Setup, rows0: Rows, s: State, step: Step)
    requires Inv(w, rows0, s) && Candid(s) && MonitorEnabled(s, step)
    ensures Candid(MonitorApply(s, step))
  {
    MonitorPlain(s, step);
  }

  /** While there is no replacement, or nothing about it changes, the messages stay honest. */
  lemma QuietCandid(s: State, s': State)
    requires Candid(s) && s'.published == s.published && s'.monitor == s.monitor
    requires s'.up.replacement.None? ||
             (s'.rows == s.rows && s'.up.replacement == s.up.replacement && s'.up.existing == s.up.existing
              && s'.up.plan == s.up.plan && (PostSwap(s.up.pc) ==> PostSwap(s'.up.pc)))
    ensures Candid(s')
  {
  }

  lemma TeardownCandid(w: Setup, rows0: Rows, s: State, step: Step)
    requires Inv(w, rows0, s) && Candid(s) && TeardownEnabled(w, s, step)
    ensures Candid(TeardownApply(w, s, step))
  {
    QuietCandid(s, TeardownApply(w, s, step));
  }

  /** Nothing has been said about an id before it is handed out. */
  lemma CreateCandid(w: Setup, rows0: Rows, s: State, step: Step)
    requires Inv(w, rows0, s) && MessagesOk(w, s) && Candid(s) && RecreateEnabled(w, s, step) && step.Create?
    ensures Candid(RecreateApply(w, s, step))
  {
  }

  lemma RecreateCandid(w: Setup, rows0: Rows, s: State, step: Step)
    requires Inv(w, rows0, s) && MessagesOk(w, s) && Candid(s) && RecreateEnabled(w, s, step)
    ensures Candid(RecreateApply(w, s, step))
  {
    if step.Create? {
      CreateCandid(w, rows0, s, step);
    } else {
      QuietCandid(s, RecreateApply(w, s, step));
    }
  }

  lemma CommitCandid(w: Setup, rows0: Rows, s: State, step: Step)
    requires Inv(w, rows0, s) && Candid(s) && CommitEnabled(s, step)
    ensures Candid(CommitApply(w, s, step))
  {
  }

  lemma StepCandid(w: Setup, rows0: Rows, s: State, step: Step)
    requires Inv(w, rows0, s) && MessagesOk(w, s) && Candid(s) && Enabled(w, s, step)
    ensures Candid(Apply(w, s, step))
  {
    if WorldEnabled(w, s, step) {
      WorldCandid(w, s, step);
    } else if MonitorEnabled(s, step) {
      MonitorCandid(w, rows0, s, step);
    } else if TeardownEnabled(w, s, step) {
      TeardownCandid(w, rows0, s, step);
    } else if RecreateEnabled(w, s, step) {
      RecreateCandid(w, rows0, s, step);
    } else {
      CommitCandid(w, rows0, s, step);
    }
  }

  lemma {:induction false} RunCandid(w: Setup, s0: State, steps: seq<Step>, s: State)
    requires Init(w, s0) && Reaches(w, s0, steps, s)
    ensures Candid(s)
    decreases |steps|
  {
    if steps != [] {
      var n := |steps| - 1;
      var p :| Reaches(w, s0, steps[..n], p) && Enabled(w, p, steps[n]) && s == Apply(w, p, steps[n]);
      RunKeeps(w, s0, steps[..n], p);
      RunTells(w, s0, steps[..n], p);
      RunCandid(w, s0, steps[..n], p);
      StepCandid(w, s0.rows, p, steps[n]);
    }
  }

  // ----- the last word about the replacement -----

  /** The row of the last save of the container, published or about to be. */
  function Spoken(s: State, n: Id): Option<Message> {
    if s.monitor.Announcing? && s.monitor.message.Save? && s.monitor.message.id == n then Some(s.monitor.message)
    else LastSave(s.published, n, n)
  }

  /** The monitor has still to read the container's row. */
  ghost predicate ToBeRead(s: State, n: Id) {
    Correcting(s, n) || s.monitor == Reading(n)
  }

  ghost predicate EndsWell(s: State, n: Id) {
    (Spoken(s, n).Some? && Dated(Spoken(s, n).value)) || ToBeRead(s, n)
  }

  /** The upgrade is done; the host and the monitor go on. */
  ghost predicate Finished(w: Setup, rows0: Rows, s: State, n: Id) {
    Inv(w, rows0, s) && s.up.pc.Done? && s.up.replacement == Some(n)
  }

  lemma WorldEndsWell(w: Setup, rows0: Rows, s: State, step: Step, n: Id)
    requires Finished(w, rows0, s, n) && WorldEnabled(w, s, step)
    ensures EndsWell(s.(host := HostApply(w, s.host, step.host)), n) <==> EndsWell(s, n) || Touches(step, n)
  {
    var h := HostApply(w, s.host, step.host);
    Appended(s.host.queue, h.queue[|s.host.queue|]);
  }

  lemma ReceiveEndsWell(w: Setup, rows0: Rows, s: State, step: Step, n: Id)
    requires Finished(w, rows0, s, n) && step.Receive? && MonitorEnabled(s, step) && MonitorApply(s, step).faithful
    ensures EndsWell(MonitorApply(s, step), n) <==> EndsWell(s, n)
  {
    HostPops(w, s.host);
  }

  lemma AnnounceEndsWell(s: State, n: Id)
    requires MonitorEnabled(s, Announce)
    ensures EndsWell(MonitorApply(s, Announce), n) <==> EndsWell(s, n)
  {
    var s' := MonitorApply(s, Announce);
    assert Spoken(s', n) == Spoken(s, n) by {
      LastSaveAppend(s.published, s.monitor.message, n, n);
    }
    assert s'.host.queue == s.host.queue && s'.up == s.up;
    assert ToBeRead(s', n) <==> ToBeRead(s, n);
  }

  /** After the commit whatever the monitor reads is right. */
  lemma BroadcastEndsWell(w: Setup, rows0: Rows, s: State, step: Step, n: Id)
    requires Finished(w, rows0, s, n) && (step.Upsert? || step.ReadRow?) && MonitorEnabled(s, step)
    ensures EndsWell(MonitorApply(s, step), n) <==> EndsWell(s, n)
  {
  }

  lemma OnlyOthersLeft(w: Setup, s: State, step: Step)
    requires s.up.pc.Done? && Enabled(w, s, step)
    ensures WorldEnabled(w, s, step) || MonitorEnabled(s, step)
    ensures Apply(w, s, step).up == s.up
  {
  }

  lemma StepEndsWell(w: Setup, rows0: Rows, s: State, step: Step, n: Id)
    requires Finished(w, rows0, s, n) && Enabled(w, s, step) && Apply(w, s, step).faithful
    ensures Finished(w, rows0, Apply(w, s, step), n)
    ensures EndsWell(Apply(w, s, step), n) <==> EndsWell(s, n) || Touches(step, n)
  {
    OnlyOthersLeft(w, s, step);
    StepKeeps(w, rows0, s, step);
    if WorldEnabled(w, s, step) {
      WorldEndsWell(w, rows0, s, step, n);
    } else if step.Receive? {
      ReceiveEndsWell(w, rows0, s, step, n);
    } else if step.Announce? {
      AnnounceEndsWell(s, n);
    } else {
      BroadcastEndsWell(w, rows0, s, step, n);
    }
  }

  lemma {:induction false} RunEndsWell(w: Setup, rows0: Rows, c: State, steps: seq<Step>, s: State, n: Id)
    requires Finished(w, rows0, c, n) && Reaches(w, c, steps, s) && s.faithful
    ensures Finished(w, rows0, s, n) && s.up == c.up
    ensures EndsWell(s, n) <==> EndsWell(c, n) || EverTouched(steps, n)
    decreases |steps|
  {
    if steps != [] {
      var k := |steps| - 1;
      var p :| Reaches(w, c, steps[..k], p) && Enabled(w, p, steps[k]) && s == Apply(w, p, steps[k]);
      FaithfulBefore(w, p, steps[k]);
      RunEndsWell(w, rows0, c, steps[..k], p, n);
      OnlyOthersLeft(w, p, steps[k]);
      StepEndsWell(w, rows0, p, steps[k], n);
      EverTouchedSnoc(steps, n);
    }
  }

  /** The monitor holds a row of the container read before the commit: no upgrade has dated it. */
  ghost predicate HoldsStale(s: State, n: Id) {
    s.monitor.Announcing? && s.monitor.message.Save? && s.monitor.message.id == n
      && s.monitor.message.row.lastUpdatedAt == None
  }

  /** The upgrade's own notice is right. */
  lemma NoticeEndsWell(w: Setup, rows0: Rows, p: State, n: Id)
    requires Inv(w, rows0, p) && CommitEnabled(p, PublishSave) && p.up.replacement == Some(n)
    ensures Finished(w, rows0, CommitApply(w, p, PublishSave), n)
    ensures EndsWell(CommitApply(w, p, PublishSave), n) <==> !HoldsStale(p, n) || ToBeRead(p, n)
  {
    CommitKeeps(w, rows0, p, PublishSave);
    LastSaveAppend(p.published, Save(n, p.up.readBack), n, n);
  }

  lemma {:induction false} LastSaveOfOne(msgs: seq<Message>, a: Id, b: Id)
    requires LastSaved(msgs, a, b)
    ensures LastSave(msgs, b, b) == LastSave(msgs, a, b)
    decreases |msgs|
  {
    var k := |msgs| - 1;
    if !(msgs[k].Save? && msgs[k].id == b) {
      LastSaveOfOne(msgs[..k], a, b);
    }
  }

  /** Once drained, the last save of the pair published is the last word. */
  lemma DrainedEndsWell(w: Setup, s: State, n: Id)
    requires Quiescent(s) && LastSaved(s.published, w.oldId, n)
    ensures EndsWell(s, n) <==> Dated(LastSave(s.published, w.oldId, n).value)
  {
    LastSaveOfOne(s.published, w.oldId, n);
  }

  /** No third container ever carries the upgraded one's name. */
  ghost predicate NameIsTheirs(w: Setup, s: State) {
    forall id :: id in s.host.used && id != w.oldId && s.up.replacement != Some(id) ==>
      w.nameOf(id) != w.nameOf(w.oldId)
  }

  /** A client lists for the replacement what the last save it received about the pair says. */
  lemma ListsLastSave(w: Setup, s0: State, steps: seq<Step>, s: State, c: Client, inputs: seq<Input>, n: Id)
    requires Init(w, s0) && Reaches(w, s0, steps, s) && HasReplacement(s.up.pc) && NameIsTheirs(w, s)
    requires Tidy(w.nameOf, c) && (forall e :: e in c.list ==> e.id in s0.host.used)
    requires (forall m :: m in Received(inputs) ==> m in s.published) && s.up.replacement == Some(n)
    ensures forall row :: Entry(n, row) in ReactAll(c, inputs).list <==>
            LastSave(Received(inputs), w.oldId, n) == Some(Save(n, row))
  {
    RunKeeps(w, s0, steps, s);
    RunTells(w, s0, steps, s);
    PublishedOk(w, s);
    ReplacementIsNew(w, s0, steps, s);
    LastSaveWins(w, c, inputs, n);
  }

  /** The client lists the replacement with the settings carried over. */
  ghost predicate ListsCarriedOver(c: Client, n: Id, existing: Row, plan: Container) {
    exists row :: Entry(n, row) in c.list && CarriedOver(row, existing, plan)
  }

  lemma CarriedFromStart(w: Setup, s0: State, steps: seq<Step>, s: State, row: Row)
    requires Init(w, s0) && Reaches(w, s0, steps, s) && HasReplacement(s.up.pc)
    ensures CarriedOver(row, s.up.existing, s.up.plan) <==> CarriedOver(row, s0.rows[w.oldId], s0.host.daemon[w.oldId])
  {
    RunKeeps(w, s0, steps, s);
    RunInherits(w, s0, steps, s);
  }

  /** Of the published saves of the replacement exactly the dated ones carry the settings. */
  lemma PublishedDated(w: Setup, s0: State, steps: seq<Step>, s: State, m: Message)
    requires Init(w, s0) && Reaches(w, s0, steps, s) && HasReplacement(s.up.pc)
    requires m in s.published && m.Save? && s.up.replacement == Some(m.id)
    ensures Dated(m) <==> CarriedOver(m.row, s0.rows[w.oldId], s0.host.daemon[w.oldId])
  {
    RunCandid(w, s0, steps, s);
    assert Honest(s.up, m);
    CarriedFromStart(w, s0, steps, s, m.row);
  }

  /**
   At any point of any run, a client that has received some of the published messages, in any
   order and with any timer firings, lists the replacement with the settings carried over if and
   only if the last save it received about the pair is the replacement's and has a
   `last_updated_at`.
   */
  lemma ListsCarriedOverIff(w: Setup, s0: State, steps: seq<Step>, s: State, c: Client, inputs: seq<Input>, n: Id)
    requires Init(w, s0) && Reaches(w, s0, steps, s) && HasReplacement(s.up.pc) && NameIsTheirs(w, s)
    requires Tidy(w.nameOf, c) && (forall e :: e in c.list ==> e.id in s0.host.used)
    requires (forall m :: m in Received(inputs) ==> m in s.published) && s.up.replacement == Some(n)
    ensures ListsCarriedOver(ReactAll(c, inputs), n, s0.rows[w.oldId], s0.host.daemon[w.oldId]) <==>
            LastSaved(Received(inputs), w.oldId, n) && Dated(LastSave(Received(inputs), w.oldId, n).value)
  {
    var last, shown := LastSave(Received(inputs), w.oldId, n), ReactAll(c, inputs);
    ListsLastSave(w, s0, steps, s, c, inputs, n);
    LastSaveIn(Received(inputs), w.oldId, n);
    if LastSaved(Received(inputs), w.oldId, n) {
      assert last == Some(Save(n, last.value.row));
      assert Entry(n, last.value.row) in shown.list;
      PublishedDated(w, s0, steps, s, last.value);
    }
  }

  lemma NoticeDecides(w: Setup, s0: State, before: seq<Step>, p: State, after: seq<Step>, s: State, n: Id)
    requires Init(w, s0) && Reaches(w, s0, before, p) && CommitEnabled(p, PublishSave) && p.up.replacement == Some(n)
    requires Reaches(w, CommitApply(w, p, PublishSave), after, s) && s.faithful
    ensures s.up.pc == Done && s.up.replacement == Some(n)
    ensures EndsWell(s, n) <==> !HoldsStale(p, n) || Pending(p.host.queue, Change(n)) || EverTouched(after, n)
  {
    RunKeeps(w, s0, before, p);
    NoticeEndsWell(w, s0.rows, p, n);
    RunEndsWell(w, s0.rows, CommitApply(w, p, PublishSave), after, s, n);
  }

  lemma ReachesAcross(w: Setup, s0: State, before: seq<Step>, p: State, after: seq<Step>, s: State)
    requires Reaches(w, s0, before, p) && CommitEnabled(p, PublishSave)
    requires Reaches(w, CommitApply(w, p, PublishSave), after, s)
    ensures Reaches(w, s0, before + [PublishSave] + after, s)
  {
    CommitExtends(w, s0, before, p, PublishSave);
    Concatenated(w, s0, before + [PublishSave], CommitApply(w, p, PublishSave), after, s);
  }

  /** Once drained the replacement has the last word. */
  lemma DrainedLastSaved(w: Setup, s0: State, steps: seq<Step>, s: State, n: Id)
    requires Init(w, s0) && Reaches(w, s0, steps, s) && s.up.pc == Done && s.up.replacement == Some(n)
    requires Quiescent(s) && s.faithful
    ensures LastSaved(s.published, w.oldId, n)
  {
    RunTells(w, s0, steps, s);
    assert !Coming(s, n);
  }

  /**
   Let `p` be the state in which the upgrade publishes its notice. Once the queue has
   drained, a client that received every message lists the replacement with the settings
   carried over if and only if the monitor was not then holding a row read before the
   commit, or had a further event of the container to handle, or the container changed later.
   */
  lemma ListingIsExact(w: Setup, s0: State, before: seq<Step>, p: State, after: seq<Step>, s: State, c: Client,
                       inputs: seq<Input>)
    requires Init(w, s0) && Reaches(w, s0, before, p) && CommitEnabled(p, PublishSave)
    requires Reaches(w, CommitApply(w, p, PublishSave), after, s) && Quiescent(s) && s.faithful && NameIsTheirs(w, s)
    requires Tidy(w.nameOf, c) && (forall e :: e in c.list ==> e.id in s0.host.used) && Received(inputs) == s.published
    ensures var n := p.up.replacement.value;
            ListsCarriedOver(ReactAll(c, inputs), n, s0.rows[w.oldId], s0.host.daemon[w.oldId]) <==>
            !HoldsStale(p, n) || Pending(p.host.queue, Change(n)) || EverTouched(after, n)
  {
    var n, steps := p.up.replacement.value, before + [PublishSave] + after;
    NoticeDecides(w, s0, before, p, after, s, n);
    ReachesAcross(w, s0, before, p, after, s);
    DrainedLastSaved(w, s0, steps, s, n);
    DrainedEndsWell(w, s, n);
    ListsCarriedOverIff(w, s0, steps, s, c, inputs, n);
  }

  // ----- it happens -----

  /** The monitor upserts and reads the row back. */
  lemma RowIsRead(w: Setup, s0: State, steps: seq<Step>, s: State) returns (s': State)
    requires Reaches(w, s0, steps, s) && s.monitor.Writing?
    ensures Reaches(w, s0, steps + [Upsert] + [ReadRow], s')
    ensures var rows := Upserted(s.rows, s.monitor.id, s.monitor.snap);
            s' == s.(rows := rows, monitor := Announcing(Save(s.monitor.id, rows[s.monitor.id])))
  {
    MonitorExtends(w, s0, steps, s, Upsert);
    var s1 := MonitorApply(s, Upsert);
    MonitorExtends(w, s0, steps + [Upsert], s1, ReadRow);
    s' := MonitorApply(s1, ReadRow);
  }

  lemma ContainerChanges(w: Setup, s0: State, steps: seq<Step>, s: State, n: Id, state: string) returns (s': State)
    requires Reaches(w, s0, steps, s) && Quiescent(s) && n in s.host.daemon
    ensures Reaches(w, s0, steps + [World(Touch(n, state))], s')
    ensures s' == s.(host := s'.host) && n in s'.host.daemon && s'.host.queue == [Change(n)]
  {
    var touch := World(Touch(n, state));
    s' := s.(host := HostApply(w, s.host, touch.host));
    assert WorldEnabled(w, s, touch) && Enabled(w, s, touch) && Apply(w, s, touch) == s';
    Extends(w, s0, steps, s, touch);
  }

  lemma ChangeIsInspected(w: Setup, s0: State, steps: seq<Step>, s: State, n: Id) returns (s': State)
    requires Reaches(w, s0, steps, s) && s.monitor == Idle && s.host.queue == [Change(n)] && n in s.host.daemon
    ensures Reaches(w, s0, steps + [Receive(true)], s')
    ensures s' == s.(host := s.host.(queue := []), monitor := Writing(n, s.host.daemon[n].snap))
  {
    MonitorExtends(w, s0, steps, s, Receive(true));
    s' := MonitorApply(s, Receive(true));
  }

  /** From every initial state: a run up to the commit after which the monitor has handled everything. */
  lemma DrainedBeforeCommit(w: Setup, s0: State, newId: Id) returns (steps: seq<Step>, s: State, n: Id)
    requires Init(w, s0) && newId !in s0.host.used && w.nameOf(newId) == w.nameOf(w.oldId)
    ensures Reaches(w, s0, steps, s) && s.up.pc == Sampled && s.up.replacement == Some(n) && s.faithful && Quiescent(s)
    ensures w.oldId !in s.rows && n in s.host.daemon && n != w.oldId
  {
    var torn, s1 := TornDown(w, s0, "image");
    var sampled, s2 := Recreated(w, s0, torn, s1, newId);
    var drain;
    drain, s := Drains(w, s2);
    steps, n := sampled + drain, s2.up.replacement.value;
    Concatenated(w, s0, sampled, s2, drain, s);
    RunKeeps(w, s0, steps, s);
    assert w.oldId in s.rows ==> Accounted(s.host, w.oldId);
  }

  /** The container changes, and the monitor gets as far as having read its row. */
  lemma ChangeIsHeld(w: Setup, s0: State, steps: seq<Step>, s: State, n: Id) returns (steps': seq<Step>, s': State)
    requires Reaches(w, s0, steps, s) && Quiescent(s) && n in s.host.daemon
    ensures Reaches(w, s0, steps', s') && s'.up == s.up && s'.faithful == s.faithful && s'.host.queue == []
    ensures s'.rows.Keys == s.rows.Keys + {n} && s'.monitor == Announcing(Save(n, s'.rows[n]))
  {
    var s1 := ContainerChanges(w, s0, steps, s, n, "running");
    var changed := steps + [World(Touch(n, "running"))];
    var s2 := ChangeIsInspected(w, s0, changed, s1, n);
    s' := RowIsRead(w, s0, changed + [Receive(true)], s2);
    steps' := changed + [Receive(true)] + [Upsert] + [ReadRow];
  }

  lemma PlainBeforeCommit(w: Setup, s0: State, steps: seq<Step>, s: State, n: Id)
    requires Init(w, s0) && Reaches(w, s0, steps, s) && s.up.pc == Sampled && s.up.replacement == Some(n) && n in s.rows
    ensures s.rows[n].autoUpdate == 0
  {
    RunCandid(w, s0, steps, s);
  }

  /** And one in which it then holds a row with the defaults. */
  lemma StaleRowIsHeld(w: Setup, s0: State, newId: Id) returns (steps: seq<Step>, s: State, n: Id)
    requires Init(w, s0) && newId !in s0.host.used && w.nameOf(newId) == w.nameOf(w.oldId)
    ensures Reaches(w, s0, steps, s) && s.up.pc == Sampled && s.up.replacement == Some(n) && s.faithful
            && s.host.queue == []
    ensures w.oldId !in s.rows && n in s.rows && s.monitor == Announcing(Save(n, s.rows[n]))
            && s.rows[n].autoUpdate == 0
  {
    var drained, s1;
    drained, s1, n := DrainedBeforeCommit(w, s0, newId);
    steps, s := ChangeIsHeld(w, s0, drained, s1, n);
    PlainBeforeCommit(w, s0, steps, s, n);
  }

  /**
   It can be wrong: the monitor reads the row before the commit, the upgrade commits and
   publishes, and then the monitor publishes what it read. The table has the settings, and
   every client that received everything shows auto-update off.
   */
  lemma StaleListingHappens(w: Setup, s0: State, newId: Id) returns (steps: seq<Step>, s: State, n: Id, stale: Row)
    requires Init(w, s0) && newId !in s0.host.used && w.nameOf(newId) == w.nameOf(w.oldId)
    ensures Reaches(w, s0, steps, s) && s.up.pc == Done && Quiescent(s) && s.faithful && s.up.replacement == Some(n)
    ensures n in s.rows && s.rows[n].autoUpdate == s0.rows[w.oldId].autoUpdate && stale.autoUpdate == 0
    ensures forall c: Client, inputs: seq<Input> ::
      Tidy(w.nameOf, c) && (forall e :: e in c.list ==> e.id in s0.host.used) && Received(inputs) == s.published
        && NameIsTheirs(w, s) ==>
        Entry(n, stale) in ReactAll(c, inputs).list
  {
    var held, p;
    held, p, n := StaleRowIsHeld(w, s0, newId);
    stale := p.rows[n];
    var done := CommitIsProtocolRun(w, p, 0);
    Concatenated(w, s0, held, p, CommitSteps(w, p, 0), done);
    var all := held + CommitSteps(w, p, 0);
    MonitorExtends(w, s0, all, done, Announce);
    steps, s := all + [Announce], MonitorApply(done, Announce);
    RunKeeps(w, s0, steps, s);
    LastSaveAppend(done.published, Save(n, stale), w.oldId, n);
    forall c: Client, inputs: seq<Input> |
      Tidy(w.nameOf, c) && (forall e :: e in c.list ==> e.id in s0.host.used) && Received(inputs) == s.published
        && NameIsTheirs(w, s)
      ensures Entry(n, stale) in ReactAll(c, inputs).list
    {
      ListsLastSave(w, s0, steps, s, c, inputs, n);
    }
  }
}
