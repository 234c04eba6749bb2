/**
 The daemon's columns of the replacement's row: `name`, `image`, `image_id` and `state`.
 The upgrade writes what it sampled earlier, so unlike the settings these can end up
 wrong; here is exactly when.
 */
module UpgradeState {
  import opened Wrappers
  import opened ContainerTable
  import opened UpgradeProtocol
  import opened UpgradeCode
  import opened UpgradeWitness
  import opened UpgradeClient

  /** A snapshot about to be written is current, or a newer event about the container is queued. */
  ghost predicate WritingCurrent(s: State) {
    s.monitor.Writing? && s.monitor.id in s.host.daemon ==>
      s.monitor.snap == s.host.daemon[s.monitor.id].snap || Pending(s.host.queue, Change(s.monitor.id))
  }

  /** The monitor has an event about the container to handle, or is about to write its row. */
  ghost predicate Correcting(s: State, n: Id) {
    Pending(s.host.queue, Change(n)) || (s.monitor.Writing? && s.monitor.id == n)
  }

  /** The row is right, as far as `view` looks, or the monitor is about to correct it. */
  ghost predicate Fresh<T>(view: Snapshot -> T, s: State, n: Id)
    requires n in s.rows && n in s.host.daemon
  {
    view(SnapshotOf(s.rows[n])) == view(s.host.daemon[n].snap) || Correcting(s, n)
  }

  predicate Touches(step: Step, n: Id) {
    step.World? && step.host.Touch? && step.host.id == n
  }

  // ----- snapshots in flight -----

  lemma WorldWriting(w: Setup, rows0: Rows, s: State, step: HostStep)
    requires Inv(w, rows0, s) && WritingCurrent(s) && HostEnabled(w, s.host, step)
    ensures WritingCurrent(s.(host := HostApply(w, s.host, step)))
  {
    HostAdvances(w, s.host, step);
    var h := HostApply(w, s.host, step);
    Appended(s.host.queue, h.queue[|s.host.queue|]);
  }

  lemma TeardownWriting(w: Setup, rows0: Rows, s: State, step: Step)
    requires Inv(w, rows0, s) && WritingCurrent(s) && TeardownEnabled(w, s, step)
    ensures WritingCurrent(TeardownApply(w, s, step))
  {
    match step
    case Stop(running) =>
      if running {
        var touch := Touch(w.oldId, "exited");
        WorldWriting(w, rows0, s, touch);
        WorldKeeps(w, rows0, s, World(touch));
        WorldWriting(w, rows0, s.(host := HostApply(w, s.host, touch)), touch);
      }
    case Remove => WorldWriting(w, rows0, s, Vanish(w.oldId));
    case _ =>
  }

  lemma RecreateWriting(w: Setup, rows0: Rows, s: State, step: Step)
    requires Inv(w, rows0, s) && WritingCurrent(s) && RecreateEnabled(w, s, step)
    ensures WritingCurrent(RecreateApply(w, s, step))
  {
    match step
    case Create(id, first, imageId) => WorldWriting(w, rows0, s, Appear(id, NewContainer(s.up, first, imageId)));
    case ConnectFails(_) => WorldWriting(w, rows0, s, Vanish(s.up.replacement.value));
    case Start => WorldWriting(w, rows0, s, Touch(s.up.replacement.value, "running"));
    case _ =>
  }

  lemma MonitorWriting(s: State, step: Step)
    requires WritingCurrent(s) && MonitorEnabled(s, step)
    ensures WritingCurrent(MonitorApply(s, step))
  {
  }

  lemma StepWriting(w: Setup, rows0: Rows, s: State, step: Step)
    requires Inv(w, rows0, s) && WritingCurrent(s) && Enabled(w, s, step)
    ensures WritingCurrent(Apply(w, s, step))
  {
    if WorldEnabled(w, s, step) {
      WorldWriting(w, rows0, s, step.host);
    } else if MonitorEnabled(s, step) {
      MonitorWriting(s, step);
    } else if TeardownEnabled(w, s, step) {
      TeardownWriting(w, rows0, s, step);
    } else if RecreateEnabled(w, s, step) {
      RecreateWriting(w, rows0, s, step);
    }
  }

  lemma {:induction false} RunWriting(w: Setup, s0: State, steps: seq<Step>, s: State)
    requires Init(w, s0) && Reaches(w, s0, steps, s)
    ensures WritingCurrent(s)
    decreases |steps|
  {
    if steps != [] {
      var n := |steps| - 1;
      var p :| Reaches(w, s0, steps[..n], p) && Enabled(w, p, steps[n]) && s == Apply(w, p, steps[n]);
      RunKeeps(w, s0, steps[..n], p);
      RunWriting(w, s0, steps[..n], p);
      StepWriting(w, s0.rows, p, steps[n]);
    }
  }

  // ----- after the commit -----

  /** The commit has happened and the column's fate is decided by freshness alone. */
  ghost predicate Settled(w: Setup, rows0: Rows, s: State, n: Id) {
    Inv(w, rows0, s) && WritingCurrent(s) && PostSwap(s.up.pc) && s.up.replacement == Some(n)
  }

  lemma WorldFresh<T>(view: Snapshot -> T, w: Setup, rows0: Rows, s: State, step: Step, n: Id)
    requires Settled(w, rows0, s, n) && WorldEnabled(w, s, step)
    ensures n in s.rows && n in s.host.daemon && n in HostApply(w, s.host, step.host).daemon
    ensures Fresh(view, s.(host := HostApply(w, s.host, step.host)), n) <==> Fresh(view, s, n) || Touches(step, n)
  {
    var h := HostApply(w, s.host, step.host);
    Appended(s.host.queue, h.queue[|s.host.queue|]);
  }

  lemma MonitorFresh<T>(view: Snapshot -> T, w: Setup, rows0: Rows, s: State, step: Step, n: Id)
    requires Settled(w, rows0, s, n) && MonitorEnabled(s, step) && MonitorApply(s, step).faithful
    ensures n in s.rows && n in s.host.daemon && n in MonitorApply(s, step).rows
            && n in MonitorApply(s, step).host.daemon
    ensures s.faithful && (Fresh(view, MonitorApply(s, step), n) <==> Fresh(view, s, n))
  {
    if step.Receive? {
      HostPops(w, s.host);
    }
  }

  lemma CommitFresh(w: Setup, s: State, step: Step)
    requires PostSwap(s.up.pc) && CommitEnabled(s, step)
    ensures var s' := CommitApply(w, s, step);
            && s'.rows == s.rows && s'.host == s.host && s'.monitor == s.monitor && s'.faithful == s.faithful
            && PostSwap(s'.up.pc) && s'.up.replacement == s.up.replacement
  {
  }

  /** After the commit only the host, the monitor and the notices are left. */
  lemma CommitIsLast(w: Setup, s: State, step: Step)
    requires PostSwap(s.up.pc) && Enabled(w, s, step)
    ensures !TeardownEnabled(w, s, step) && !RecreateEnabled(w, s, step)
    ensures WorldEnabled(w, s, step) || MonitorEnabled(s, step) || CommitEnabled(s, step)
    ensures PostSwap(Apply(w, s, step).up.pc) && Apply(w, s, step).up.replacement == s.up.replacement
  {
    if CommitEnabled(s, step) {
      CommitFresh(w, s, step);
    }
  }

  lemma StepSettled(w: Setup, rows0: Rows, s: State, step: Step, n: Id)
    requires Settled(w, rows0, s, n) && Enabled(w, s, step)
    ensures Settled(w, rows0, Apply(w, s, step), n)
  {
    StepKeeps(w, rows0, s, step);
    StepWriting(w, rows0, s, step);
    CommitIsLast(w, s, step);
  }

  lemma SettledHasRow(w: Setup, rows0: Rows, s: State, n: Id)
    requires Settled(w, rows0, s, n)
    ensures n in s.rows && n in s.host.daemon
  {
  }

  lemma StepFresh<T>(view: Snapshot -> T, w: Setup, rows0: Rows, s: State, step: Step, n: Id)
    requires Settled(w, rows0, s, n) && Enabled(w, s, step) && Apply(w, s, step).faithful
    requires n in Apply(w, s, step).rows && n in Apply(w, s, step).host.daemon && n in s.rows && n in s.host.daemon
    ensures Fresh(view, Apply(w, s, step), n) <==> Fresh(view, s, n) || Touches(step, n)
  {
    CommitIsLast(w, s, step);
    if WorldEnabled(w, s, step) {
      WorldFresh(view, w, rows0, s, step, n);
    } else if MonitorEnabled(s, step) {
      MonitorFresh(view, w, rows0, s, step, n);
    } else {
      CommitFresh(w, s, step);
    }
  }

  ghost predicate EverTouched(steps: seq<Step>, n: Id) {
    exists i :: 0 <= i < |steps| && Touches(steps[i], n)
  }

  lemma EverTouchedSnoc(steps: seq<Step>, n: Id)
    requires steps != []
    ensures EverTouched(steps, n) <==> EverTouched(steps[..|steps| - 1], n) || Touches(steps[|steps| - 1], n)
  {
    var k := |steps| - 1;
    if i :| 0 <= i < k && Touches(steps[..k][i], n) {
      assert Touches(steps[i], n);
    }
    if i :| 0 <= i < k && Touches(steps[i], n) {
      assert Touches(steps[..k][i], n);
    }
  }

  lemma {:induction false} RunFresh<T>(view: Snapshot -> T, w: Setup, rows0: Rows, c: State, steps: seq<Step>,
                                       s: State, n: Id)
    requires Settled(w, rows0, c, n) && Reaches(w, c, steps, s) && s.faithful
    ensures Settled(w, rows0, s, n) && n in s.rows && n in s.host.daemon && n in c.rows && n in c.host.daemon
    ensures Fresh(view, s, n) <==> Fresh(view, c, n) || EverTouched(steps, n)
    decreases |steps|
  {
    SettledHasRow(w, rows0, c, n);
    if steps != [] {
      var k := |steps| - 1;
      var p :| Reaches(w, c, steps[..k], p) && Enabled(w, p, steps[k]) && s == Apply(w, p, steps[k]);
      FaithfulBefore(w, p, steps[k]);
      RunFresh(view, w, rows0, c, steps[..k], p, n);
      StepSettled(w, rows0, p, steps[k], n);
      SettledHasRow(w, rows0, s, n);
      StepFresh(view, w, rows0, p, steps[k], n);
      EverTouchedSnoc(steps, n);
    }
  }

  lemma FaithfulBefore(w: Setup, s: State, step: Step)
    requires Enabled(w, s, step) && Apply(w, s, step).faithful
    ensures s.faithful
  {
  }

  /** The step that writes the replacement's row: the swap if it finds the old row, else the fallback. */
  predicate Commits(w: Setup, s: State, step: Step) {
    CommitEnabled(s, step) && (step.Fallback? || (step.Swap? && w.oldId in s.rows))
  }

  lemma CommitSettles(w: Setup, rows0: Rows, p: State, step: Step)
    requires Inv(w, rows0, p) && WritingCurrent(p) && Commits(w, p, step)
    ensures Settled(w, rows0, CommitApply(w, p, step), p.up.replacement.value)
  {
    CommitKeeps(w, rows0, p, step);
    if step.Swap? {
      NoConflict(w, rows0, p);
    }
  }

  /** While the old row is there its destroy event is still queued, and behind it the replacement's own events. */
  lemma SwapIsCorrected(w: Setup, rows0: Rows, p: State)
    requires Inv(w, rows0, p) && LastWordOk(w, p) && p.up.pc.Sampled? && p.up.replacement.Some? && w.oldId in p.rows
    ensures Pending(p.host.queue, Change(p.up.replacement.value))
  {
    assert Accounted(p.host, w.oldId);
  }

  lemma CommitFreshIff<T>(view: Snapshot -> T, w: Setup, rows0: Rows, p: State, step: Step)
    requires Inv(w, rows0, p) && WritingCurrent(p) && LastWordOk(w, p) && Commits(w, p, step)
    ensures var n, c := p.up.replacement.value, CommitApply(w, p, step);
            && n in p.host.daemon && n in c.rows && n in c.host.daemon
            && (Fresh(view, c, n) <==>
                  step.Swap? || Correcting(p, n) || view(UpgradeSnapshot(p.up)) == view(p.host.daemon[n].snap))
  {
    CommitSettles(w, rows0, p, step);
    SettledHasRow(w, rows0, CommitApply(w, p, step), p.up.replacement.value);
    if step.Swap? {
      SwapIsCorrected(w, rows0, p);
    }
  }

  lemma DrainedFresh<T>(view: Snapshot -> T, s: State, n: Id)
    requires Quiescent(s) && n in s.rows && n in s.host.daemon
    ensures Fresh(view, s, n) <==> view(SnapshotOf(s.rows[n])) == view(s.host.daemon[n].snap)
  {
  }

  /**
   Whatever columns `view` looks at: once the queue has drained they are right if and only
   if the swap wrote the row; or, in the state in which the fallback did, what it was about
   to write was right, or the monitor still had an event about the container to handle or a
   snapshot of it to write; or the container changed later. So a swap always ends right.
   */
  lemma ReplacementRowIsExact<T>(view: Snapshot -> T, w: Setup, s0: State, before: seq<Step>, p: State,
                                 step: Step, after: seq<Step>, s: State)
    requires Init(w, s0) && Reaches(w, s0, before, p) && Commits(w, p, step)
    requires Reaches(w, CommitApply(w, p, step), after, s) && Quiescent(s) && s.faithful
    ensures var n := p.up.replacement.value;
            && n in p.host.daemon && n in s.rows && n in s.host.daemon
            && (view(SnapshotOf(s.rows[n])) == view(s.host.daemon[n].snap) <==>
                  || step.Swap?
                  || view(UpgradeSnapshot(p.up)) == view(p.host.daemon[n].snap)
                  || Correcting(p, n)
                  || EverTouched(after, n))
  {
    var n, c := p.up.replacement.value, CommitApply(w, p, step);
    RunKeeps(w, s0, before, p);
    RunWriting(w, s0, before, p);
    RunTells(w, s0, before, p);
    CommitFreshIff(view, w, s0.rows, p, step);
    CommitSettles(w, s0.rows, p, step);
    RunFresh(view, w, s0.rows, c, after, s, n);
    DrainedFresh(view, s, n);
  }

  // ----- what the commit writes -----

  /** What the last pull of the run reported. */
  function LastPulled(steps: seq<Step>): Option<string>
    decreases |steps|
  {
    if steps == [] then None
    else
      var n := |steps| - 1;
      if steps[n].Pull? then Some(steps[n].imageId) else LastPulled(steps[..n])
  }

  /** The state the upgrade last saw. */
  function LastSampled(steps: seq<Step>): Option<string>
    decreases |steps|
  {
    if steps == [] then None
    else
      var n := |steps| - 1;
      if steps[n].Sample? then Some(steps[n].seen) else LastSampled(steps[..n])
  }

  predicate HasPulled(pc: Pc) {
    pc.Pulled? || pc.Stopped? || pc.Removed? || HasReplacement(pc)
  }

  predicate HasSampled(pc: Pc) {
    pc.Sampled? || pc.NeedsSave? || PostSwap(pc)
  }

  /** The upgrade remembers what the pull reported and what it saw. */
  ghost predicate Remembers(steps: seq<Step>, u: Upgrade) {
    && (HasPulled(u.pc) ==> LastPulled(steps) == Some(u.newImageId))
    && (HasSampled(u.pc) ==> LastSampled(steps) == Some(u.sampled))
  }

  ghost predicate Retains(u: Upgrade, u': Upgrade, step: Step) {
    && (step.Pull? ==> u'.newImageId == step.imageId && !HasSampled(u'.pc))
    && (step.Sample? ==> u'.sampled == step.seen && u'.newImageId == u.newImageId && HasPulled(u.pc))
    && (!step.Pull? && HasPulled(u'.pc) ==> HasPulled(u.pc) && u'.newImageId == u.newImageId)
    && (!step.Sample? && HasSampled(u'.pc) ==> HasSampled(u.pc) && u'.sampled == u.sampled)
  }

  lemma TeardownRetains(w: Setup, s: State, step: Step)
    requires TeardownEnabled(w, s, step)
    ensures Retains(s.up, TeardownApply(w, s, step).up, step)
  {
  }

  lemma RecreateRetains(w: Setup, s: State, step: Step)
    requires RecreateEnabled(w, s, step)
    ensures Retains(s.up, RecreateApply(w, s, step).up, step)
  {
  }

  lemma CommitRetains(w: Setup, s: State, step: Step)
    requires CommitEnabled(s, step)
    ensures Retains(s.up, CommitApply(w, s, step).up, step)
  {
  }

  lemma StepRetains(w: Setup, s: State, step: Step)
    requires Enabled(w, s, step)
    ensures Retains(s.up, Apply(w, s, step).up, step)
  {
    if WorldEnabled(w, s, step) {
    } else if MonitorEnabled(s, step) {
    } else if TeardownEnabled(w, s, step) {
      TeardownRetains(w, s, step);
    } else if RecreateEnabled(w, s, step) {
      RecreateRetains(w, s, step);
    } else {
      CommitRetains(w, s, step);
    }
  }

  lemma {:induction false} RunRemembers(w: Setup, s0: State, steps: seq<Step>, s: State)
    requires Init(w, s0) && Reaches(w, s0, steps, s)
    ensures Remembers(steps, s.up)
    decreases |steps|
  {
    if steps != [] {
      var n := |steps| - 1;
      var p :| Reaches(w, s0, steps[..n], p) && Enabled(w, p, steps[n]) && s == Apply(w, p, steps[n]);
      RunRemembers(w, s0, steps[..n], p);
      StepRetains(w, p, steps[n]);
    }
  }

  /** The old row is there as long as its destroy event may come, and the fallback runs only after that. */
  ghost predicate OldTracked(w: Setup, s: State) {
    && (s.up.pc.Begin? || PreSwap(s.up.pc) ==> Accounted(s.host, w.oldId) ==> w.oldId in s.rows)
    && (s.up.pc.NeedsSave? ==> !Accounted(s.host, w.oldId))
  }

  lemma WorldTracked(w: Setup, rows0: Rows, s: State, step: HostStep)
    requires Inv(w, rows0, s) && OldTracked(w, s) && HostEnabled(w, s.host, step)
    ensures OldTracked(w, s.(host := HostApply(w, s.host, step)))
  {
    HostAdvances(w, s.host, step);
  }

  lemma MonitorTracked(w: Setup, rows0: Rows, s: State, step: Step)
    requires Inv(w, rows0, s) && OldTracked(w, s) && MonitorEnabled(s, step)
    ensures OldTracked(w, MonitorApply(s, step))
  {
    if step.Receive? {
      HostPops(w, s.host);
    }
  }

  lemma TeardownTracked(w: Setup, rows0: Rows, s: State, step: Step)
    requires Inv(w, rows0, s) && OldTracked(w, s) && TeardownEnabled(w, s, step)
    ensures OldTracked(w, TeardownApply(w, s, step))
  {
  }

  lemma RecreateTracked(w: Setup, rows0: Rows, s: State, step: Step)
    requires Inv(w, rows0, s) && OldTracked(w, s) && RecreateEnabled(w, s, step)
    ensures OldTracked(w, RecreateApply(w, s, step))
  {
    match step
    case Create(id, first, imageId) => WorldTracked(w, rows0, s, Appear(id, NewContainer(s.up, first, imageId)));
    case Start => WorldTracked(w, rows0, s, Touch(s.up.replacement.value, "running"));
    case _ =>
  }

  lemma CommitTracked(w: Setup, s: State, step: Step)
    requires OldTracked(w, s) && CommitEnabled(s, step)
    ensures OldTracked(w, CommitApply(w, s, step))
  {
  }

  lemma StepTracked(w: Setup, rows0: Rows, s: State, step: Step)
    requires Inv(w, rows0, s) && OldTracked(w, s) && Enabled(w, s, step)
    ensures OldTracked(w, Apply(w, s, step))
  {
    if WorldEnabled(w, s, step) {
      WorldTracked(w, rows0, s, step.host);
    } else if MonitorEnabled(s, step) {
      MonitorTracked(w, rows0, s, step);
    } else if TeardownEnabled(w, s, step) {
      TeardownTracked(w, rows0, s, step);
    } else if RecreateEnabled(w, s, step) {
      RecreateTracked(w, rows0, s, step);
    } else {
      CommitTracked(w, s, step);
    }
  }

  lemma {:induction false} RunTracked(w: Setup, s0: State, steps: seq<Step>, s: State)
    requires Init(w, s0) && Reaches(w, s0, steps, s)
    ensures OldTracked(w, s)
    decreases |steps|
  {
    if steps != [] {
      var n := |steps| - 1;
      var p :| Reaches(w, s0, steps[..n], p) && Enabled(w, p, steps[n]) && s == Apply(w, p, steps[n]);
      RunKeeps(w, s0, steps[..n], p);
      RunTracked(w, s0, steps[..n], p);
      StepTracked(w, s0.rows, p, steps[n]);
    }
  }

  /** The time of the write. */
  function CommitTime(step: Step): int
    requires step.Swap? || step.Fallback?
  {
    if step.Swap? then step.now else step.at
  }

  lemma CommitWrites(w: Setup, rows0: Rows, p: State, step: Step)
    requires Inv(w, rows0, p) && OldTracked(w, p) && Commits(w, p, step)
    ensures var n, c := p.up.replacement.value, CommitApply(w, p, step);
            && c.rows.Keys == p.rows.Keys - {w.oldId} + {n} && n != w.oldId
            && c.rows[n] == Row(p.up.plan.snap.name, p.up.plan.snap.image, p.up.newImageId, p.up.sampled,
                                rows0[w.oldId].autoUpdate, 0, rows0[w.oldId].latestImageDigest,
                                rows0[w.oldId].lastCheckedAt, Some(CommitTime(step)))
            && (forall id :: id in p.rows && id != n && id != w.oldId ==> c.rows[id] == p.rows[id])
  {
    if step.Swap? {
      NoConflict(w, rows0, p);
    } else {
      assert w.oldId in p.rows ==> Accounted(p.host, w.oldId);
    }
  }

  /** The plan is the old container as it was at the start. */
  lemma PlanFromStart(w: Setup, s0: State, steps: seq<Step>, p: State)
    requires Init(w, s0) && Reaches(w, s0, steps, p) && HasPlan(p.up.pc)
    ensures p.up.plan.snap.name == s0.host.daemon[w.oldId].snap.name
    ensures p.up.plan.snap.image == s0.host.daemon[w.oldId].snap.image
  {
    RunKeeps(w, s0, steps, p);
    RunInherits(w, s0, steps, p);
  }

  /**
   Over every run, the step that commits leaves in the replacement's row the old container's name
   and image, the image id the pull reported, the state the upgrade saw, the settings of the
   start, no update available and the time; the old row is gone and no other row changes.
   */
  lemma CommittedColumns(w: Setup, s0: State, steps: seq<Step>, p: State, step: Step)
    requires Init(w, s0) && Reaches(w, s0, steps, p) && Commits(w, p, step)
    ensures var n, c, was := p.up.replacement.value, CommitApply(w, p, step), s0.rows[w.oldId];
            && c.rows.Keys == p.rows.Keys - {w.oldId} + {n} && n != w.oldId
            && LastPulled(steps).Some? && LastSampled(steps).Some?
            && c.rows[n] == Row(s0.host.daemon[w.oldId].snap.name, s0.host.daemon[w.oldId].snap.image,
                                LastPulled(steps).value, LastSampled(steps).value,
                                was.autoUpdate, 0, was.latestImageDigest, was.lastCheckedAt, Some(CommitTime(step)))
            && (forall id :: id in p.rows && id != n && id != w.oldId ==> c.rows[id] == p.rows[id])
  {
    RunKeeps(w, s0, steps, p);
    RunTracked(w, s0, steps, p);
    RunRemembers(w, s0, steps, p);
    PlanFromStart(w, s0, steps, p);
    CommitWrites(w, s0.rows, p, step);
  }

  /**
   It can be wrong: the replacement dies after its state was sampled, the monitor handles
   everything, and only then the upgrade writes what it sampled.
   */
  lemma StaleStateHappens(w: Setup, s0: State, newId: Id) returns (steps: seq<Step>, s: State)
    requires Init(w, s0) && newId !in s0.host.used && w.nameOf(newId) == w.nameOf(w.oldId)
    ensures Reaches(w, s0, steps, s) && s.up.pc == Done && Quiescent(s) && s.faithful
    ensures s.up.replacement.Some?
    ensures var n := s.up.replacement.value;
            n in s.rows && n in s.host.daemon && s.rows[n].state == "running" && s.host.daemon[n].snap.state == "exited"
  {
    var torn, s1 := TornDown(w, s0, "image");
    var sampled, s2 := Recreated(w, s0, torn, s1, newId);
    RunKeeps(w, s0, sampled, s2);
    var n := s2.up.replacement.value;
    var death := World(Touch(n, "exited"));
    assert WorldEnabled(w, s2, death) && Enabled(w, s2, death);
    Extends(w, s0, sampled, s2, death);
    var s3 := Apply(w, s2, death);
    var drain, s4 := Drains(w, s3);
    Concatenated(w, s0, sampled + [death], s3, drain, s4);
    var all := sampled + [death] + drain;
    RunKeeps(w, s0, all, s4);
    assert w.oldId in s4.rows ==> Accounted(s4.host, w.oldId);
    s := CommitIsProtocolRun(w, s4, 0);
    steps := all + CommitSteps(w, s4, 0);
    Concatenated(w, s0, all, s4, CommitSteps(w, s4, 0), s);
    RunKeeps(w, s0, steps, s);
  }
}
