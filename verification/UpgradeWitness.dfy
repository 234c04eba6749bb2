/** Both ways an upgrade can end do occur: runs that complete through the swap and through the fallback. */
module UpgradeWitness {
  import opened Wrappers
  import opened ContainerTable
  import opened UpgradeProtocol
  import opened UpgradeCode

  lemma {:induction false} Concatenated(w: Setup, a: State, xs: seq<Step>, b: State, ys: seq<Step>, c: State)
    requires Reaches(w, a, xs, b) && Reaches(w, b, ys, c)
    ensures Reaches(w, a, xs + ys, c)
    decreases |ys|
  {
    if ys == [] {
      assert xs + ys == xs;
    } else {
      var n := |ys| - 1;
      var p :| Reaches(w, b, ys[..n], p) && Enabled(w, p, ys[n]) && c == Apply(w, p, ys[n]);
      Concatenated(w, a, xs, b, ys[..n], p);
      Extends(w, a, xs + ys[..n], p, ys[n]);
      assert xs + ys[..n] + [ys[n]] == xs + ys;
    }
  }

  lemma TeardownExtends(w: Setup, s0: State, steps: seq<Step>, s: State, step: Step)
    requires Reaches(w, s0, steps, s) && TeardownEnabled(w, s, step)
    ensures Reaches(w, s0, steps + [step], TeardownApply(w, s, step))
  {
    assert Enabled(w, s, step) && Apply(w, s, step) == TeardownApply(w, s, step);
    Extends(w, s0, steps, s, step);
  }

  lemma RecreateExtends(w: Setup, s0: State, steps: seq<Step>, s: State, step: Step)
    requires Reaches(w, s0, steps, s) && RecreateEnabled(w, s, step)
    ensures Reaches(w, s0, steps + [step], RecreateApply(w, s, step))
  {
    assert Enabled(w, s, step) && Apply(w, s, step) == RecreateApply(w, s, step);
    Extends(w, s0, steps, s, step);
  }

  /** Left alone, the monitor empties the queue. */
  lemma {:induction false} Drains(w: Setup, s: State) returns (steps: seq<Step>, s': State)
    requires s.monitor == Idle
    ensures Reaches(w, s, steps, s') && Quiescent(s') && s'.up == s.up && s'.faithful == s.faithful
    ensures s'.host.daemon == s.host.daemon && s'.host.used == s.host.used
    decreases |s.host.queue|
  {
    if s.host.queue == [] {
      steps, s' := [], s;
    } else {
      var s1 := HandlerIsMonitorRun(w, s, true);
      var rest;
      rest, s' := Drains(w, s1);
      steps := HandlingSteps(s, true) + rest;
      Concatenated(w, s, HandlingSteps(s, true), s1, rest, s');
    }
  }

  lemma Prepared(w: Setup, s0: State, imageId: string) returns (steps: seq<Step>, s: State)
    requires Init(w, s0)
    ensures Reaches(w, s0, steps, s)
    ensures s == s0.(up := s0.up.(pc := Pulled, existing := s0.rows[w.oldId], plan := s0.host.daemon[w.oldId],
            newImageId := imageId))
  {
    TeardownExtends(w, s0, [], s0, Load);
    var s1 := TeardownApply(w, s0, Load);
    TeardownExtends(w, s0, [] + [Load], s1, Inspect);
    var s2 := TeardownApply(w, s1, Inspect);
    TeardownExtends(w, s0, [] + [Load] + [Inspect], s2, Pull(imageId));
    steps, s := [] + [Load] + [Inspect] + [Pull(imageId)], TeardownApply(w, s2, Pull(imageId));
  }

  /** Up to the removal of the old container, with the monitor asleep. */
  lemma TornDown(w: Setup, s0: State, imageId: string) returns (steps: seq<Step>, s: State)
    requires Init(w, s0)
    ensures Reaches(w, s0, steps, s) && s.up.pc == Removed && s.monitor == Idle && s.faithful
    ensures s.rows == s0.rows && s.host.queue == [Destroy(w.oldId)] && s.host.used == s0.host.used
    ensures s.up.plan == s0.host.daemon[w.oldId]
  {
    var done, s1 := Prepared(w, s0, imageId);
    TeardownExtends(w, s0, done, s1, Stop(false));
    var s2 := TeardownApply(w, s1, Stop(false));
    TeardownExtends(w, s0, done + [Stop(false)], s2, Remove);
    steps, s := done + [Stop(false)] + [Remove], TeardownApply(w, s2, Remove);
  }

  /** Every remaining network gets connected. */
  lemma {:induction false} AllConnected(w: Setup, s0: State, done: seq<Step>, s: State)
    returns (steps: seq<Step>, s': State)
    requires Reaches(w, s0, done, s) && s.up.pc == Connecting && Alive(s)
    ensures Reaches(w, s0, steps, s') && s'.up.pc == Connecting && Alive(s') && s'.up.rest == map[]
    ensures s'.rows == s.rows && s'.monitor == s.monitor && s'.faithful == s.faithful
    decreases |s.up.rest|
  {
    if s.up.rest == map[] {
      steps, s' := done, s;
    } else {
      var net :| net in s.up.rest;
      RecreateExtends(w, s0, done, s, Connect(net));
      var next := RecreateApply(w, s, Connect(net));
      assert next.up.rest.Keys == s.up.rest.Keys - {net};
      steps, s' := AllConnected(w, s0, done + [Connect(net)], next);
    }
  }

  /** From the removal to the sampled state. */
  lemma Recreated(w: Setup, s0: State, done: seq<Step>, s: State, newId: Id) returns (steps: seq<Step>, s': State)
    requires Reaches(w, s0, done, s) && s.up.pc == Removed && newId !in s.host.used
             && w.nameOf(newId) == s.up.plan.snap.name
    ensures Reaches(w, s0, steps, s') && s'.up.pc == Sampled && s'.up.replacement.Some? && s'.up.sampled == "running"
    ensures s'.rows == s.rows && s'.monitor == s.monitor && s'.faithful == s.faithful
  {
    var first := None;
    if s.up.plan.networks != map[] {
      var net :| net in s.up.plan.networks;
      first := Some(net);
    }
    var create := Create(newId, first, s.up.newImageId);
    RecreateExtends(w, s0, done, s, create);
    var s1 := RecreateApply(w, s, create);
    var connected, s2 := AllConnected(w, s0, done + [create], s1);
    steps, s' := StartedAndSampled(w, s0, connected, s2);
  }

  lemma StartedAndSampled(w: Setup, s0: State, done: seq<Step>, s: State) returns (steps: seq<Step>, s': State)
    requires Reaches(w, s0, done, s) && s.up.pc == Connecting && Alive(s) && s.up.rest == map[]
    ensures Reaches(w, s0, steps, s') && s'.up.pc == Sampled && s'.up.replacement.Some? && s'.up.sampled == "running"
    ensures s'.rows == s.rows && s'.monitor == s.monitor && s'.faithful == s.faithful
  {
    RecreateExtends(w, s0, done, s, Start);
    var s1 := RecreateApply(w, s, Start);
    RecreateExtends(w, s0, done + [Start], s1, Sample("running"));
    steps, s' := done + [Start] + [Sample("running")], RecreateApply(w, s1, Sample("running"));
  }

  /**
   From every initial state an upgrade can complete and drain with every inspection
   succeeding, and it can do so on either path: `p` is the state the swap runs in, and the
   old row is there or not as asked.
   */
  lemma EitherPathCompletes(w: Setup, s0: State, newId: Id, imageId: string, fallback: bool)
    returns (before: seq<Step>, p: State, steps: seq<Step>, s: State)
    requires Init(w, s0) && newId !in s0.host.used && w.nameOf(newId) == w.nameOf(w.oldId)
    ensures Reaches(w, s0, before, p) && p.up.pc == Sampled && (w.oldId in p.rows <==> !fallback)
    ensures before <= steps && Reaches(w, s0, steps, s) && s.up.pc == Done && Quiescent(s) && s.faithful
  {
    before, p := TornDown(w, s0, imageId);
    if fallback {
      var handled := HandlerIsMonitorRun(w, p, true);
      Concatenated(w, s0, before, p, HandlingSteps(p, true), handled);
      before, p := before + HandlingSteps(p, true), handled;
    }
    before, p := Recreated(w, s0, before, p, newId);
    SwapNeverConflicts(w, s0, before, p);
    s := CommitIsProtocolRun(w, p, 0);
    Concatenated(w, s0, before, p, CommitSteps(w, p, 0), s);
    steps := before + CommitSteps(w, p, 0);
    var rest, drained := Drains(w, s);
    Concatenated(w, s0, steps, s, rest, drained);
    steps, s := steps + rest, drained;
  }
}
