/**
 The upgrade of one container running against the Docker event monitor.

 Three parties interleave: the upgrade (one daemon call or query per step), the
 monitor (a FIFO queue of daemon events, inspect and upsert being separate steps),
 and the rest of the host (containers come, change and go). Both the upgrade and
 the monitor publish to the streaming clients.

 Assumed: the event stream loses nothing, no query fails, ids are never reused and
 keep their name, and nobody else removes the replacement or writes the settings of
 the two rows. An inspection of a live container may still fail; `faithful` records
 that none has.
 */
module UpgradeProtocol {
  import opened Wrappers
  import opened ContainerTable

  datatype Container = Container(snap: Snapshot, networks: map<string, string>)

  // create, start, stop, die and update are handled alike; any other action is ignored.
  datatype Event = Destroy(id: Id) | Change(id: Id) | Ignored(id: Id)

  datatype Message = Delete(id: Id) | Save(id: Id, row: Row)

  /** The Docker daemon: live containers, every id it ever handed out, and the undelivered events. */
  datatype Host = Host(daemon: map<Id, Container>, used: set<Id>, queue: seq<Event>)

  // Taking an event off the queue is invisible to the other parties, so it is one
  // step with the first thing the handler does.
  datatype Monitor = Idle | Writing(id: Id, snap: Snapshot) | Reading(id: Id) | Announcing(message: Message)

  datatype Pc =
    | Begin | Loaded | Inspected | Pulled | Stopped | Removed | Connecting | Started | Sampled
    | NeedsSave | NeedsDelete | NeedsReadBack | NeedsAnnounce | Done
    | Failed | Conflicted

  /** The local variables of the upgrade. */
  datatype Upgrade = Upgrade(
    pc: Pc,
    existing: Row,
    plan: Container,
    newImageId: string,
    replacement: Option<Id>,
    rest: map<string, string>,
    sampled: string,
    readBack: Row)

  datatype State = State(
    host: Host,
    rows: Rows,
    monitor: Monitor,
    up: Upgrade,
    published: seq<Message>,
    faithful: bool)

  datatype HostStep =
    | Appear(id: Id, c: Container)
    | Touch(id: Id, state: string)
    | Vanish(id: Id)
    | Noise(id: Id)

  datatype Step =
    | World(host: HostStep)
    // the monitor
    | Receive(inspectOk: bool)
    | Upsert
    | ReadRow
    | Announce
    // the upgrade
    | Load
    | Inspect
    | Pull(imageId: string)
    | Stop(running: bool)
    | Remove
    | Create(newId: Id, first: Option<string>, createdImageId: string)
    | Connect(network: string)
    | ConnectFails(network: string)
    | Start
    | Sample(seen: string)
    | Swap(now: int)
    | Fallback(at: int)
    | PublishDelete
    | ReadBack
    | PublishSave
    | Fail

  /** The two facts fixed for a whole run: the container being upgraded, and the name of every id. */
  datatype Setup = Setup(oldId: Id, nameOf: Id -> string)

  // ----- the host -----

  predicate HostEnabled(w: Setup, h: Host, step: HostStep) {
    match step
    case Appear(id, c) => id !in h.used && c.snap.name == w.nameOf(id)
    case Touch(id, _) => id in h.daemon
    case Vanish(id) => id in h.daemon
    case Noise(id) => id in h.daemon
  }

  function HostApply(w: Setup, h: Host, step: HostStep): Host
    requires HostEnabled(w, h, step)
  {
    match step
    case Appear(id, c) => Host(h.daemon[id := c], h.used + {id}, h.queue + [Change(id)])
    case Touch(id, state) =>
      var c := h.daemon[id];
      Host(h.daemon[id := c.(snap := c.snap.(state := state))], h.used, h.queue + [Change(id)])
    case Vanish(id) => Host(h.daemon - {id}, h.used, h.queue + [Destroy(id)])
    case Noise(id) => h.(queue := h.queue + [Ignored(id)])
  }

  // ----- the monitor -----

  predicate MonitorEnabled(s: State, step: Step) {
    match step
    case Receive(_) => s.monitor.Idle? && s.host.queue != []
    case Upsert => s.monitor.Writing?
    case ReadRow => s.monitor.Reading?
    case Announce => s.monitor.Announcing?
    case _ => false
  }

  function MonitorApply(s: State, step: Step): State
    requires MonitorEnabled(s, step)
  {
    match step
    case Receive(inspectOk) =>
      var e := s.host.queue[0];
      var s' := s.(host := s.host.(queue := s.host.queue[1..]));
      if e.Destroy? then s'.(rows := s.rows - {e.id}, monitor := Announcing(Delete(e.id)))
      else if e.Ignored? then s'
      else if e.id in s.host.daemon && inspectOk then s'.(monitor := Writing(e.id, s.host.daemon[e.id].snap))
      else s'.(faithful := s.faithful && e.id !in s.host.daemon)
    case Upsert => s.(rows := Upserted(s.rows, s.monitor.id, s.monitor.snap), monitor := Reading(s.monitor.id))
    case ReadRow =>
      if s.monitor.id in s.rows then s.(monitor := Announcing(Save(s.monitor.id, s.rows[s.monitor.id])))
      else s.(monitor := Idle)
    case Announce => s.(published := s.published + [s.monitor.message], monitor := Idle)
  }

  // ----- the upgrade -----

  predicate PreSwap(pc: Pc) {
    pc.Loaded? || pc.Inspected? || pc.Pulled? || pc.Stopped? || pc.Removed? || pc.Connecting? || pc.Started?
      || pc.Sampled?
  }

  predicate PostSwap(pc: Pc) {
    pc.NeedsDelete? || pc.NeedsReadBack? || pc.NeedsAnnounce? || pc.Done?
  }

  /** The replacement has all its networks. */
  predicate Assembled(pc: Pc) {
    pc.Started? || pc.Sampled? || pc.NeedsSave? || PostSwap(pc)
  }

  predicate HasReplacement(pc: Pc) {
    pc.Connecting? || Assembled(pc)
  }

  predicate HasPlan(pc: Pc) {
    pc.Inspected? || pc.Pulled? || pc.Stopped? || pc.Removed? || HasReplacement(pc)
  }

  /** Once Create has run there is a live replacement, as nobody else removes it. */
  predicate Alive(s: State) {
    s.up.replacement.Some? && s.up.replacement.value in s.host.daemon
  }

  function UpgradeSnapshot(u: Upgrade): Snapshot {
    Snapshot(u.plan.snap.name, u.plan.snap.image, u.newImageId, u.sampled)
  }

  function FallbackRow(u: Upgrade, now: int): Row {
    Row(u.plan.snap.name, u.plan.snap.image, u.newImageId, u.sampled, u.existing.autoUpdate, 0,
        u.existing.latestImageDigest, u.existing.lastCheckedAt, Some(now))
  }

  /** Up to and including the removal of the old container, and giving up. */
  predicate TeardownEnabled(w: Setup, s: State, step: Step) {
    match step
    case Load => s.up.pc.Begin? && w.oldId in s.rows
    case Inspect => s.up.pc.Loaded? && w.oldId in s.host.daemon
    case Pull(_) => s.up.pc.Inspected?
    case Stop(_) => s.up.pc.Pulled? && w.oldId in s.host.daemon
    case Remove => s.up.pc.Stopped? && w.oldId in s.host.daemon
    case Fail => s.up.pc.Begin? || (PreSwap(s.up.pc) && !s.up.pc.Started? && !s.up.pc.Sampled?)
    case _ => false
  }

  function TeardownApply(w: Setup, s: State, step: Step): State
    requires TeardownEnabled(w, s, step)
  {
    match step
    case Load => s.(up := s.up.(existing := s.rows[w.oldId], pc := Loaded))
    case Inspect => s.(up := s.up.(plan := s.host.daemon[w.oldId], pc := Inspected))
    case Pull(imageId) => s.(up := s.up.(newImageId := imageId, pc := Pulled))
    case Stop(running) =>
      if running then
        var touch := Touch(w.oldId, "exited");
        s.(host := HostApply(w, HostApply(w, s.host, touch), touch), up := s.up.(pc := Stopped))
      else s.(up := s.up.(pc := Stopped))
    case Remove => s.(host := HostApply(w, s.host, Vanish(w.oldId)), up := s.up.(pc := Removed))
    case Fail => s.(up := s.up.(pc := Failed))
  }

  function FirstNetwork(plan: Container, first: Option<string>): map<string, string> {
    if first.Some? && first.value in plan.networks then map[first.value := plan.networks[first.value]] else map[]
  }

  function NewContainer(u: Upgrade, first: Option<string>, imageId: string): Container {
    Container(Snapshot(u.plan.snap.name, u.plan.snap.image, imageId, "created"), FirstNetwork(u.plan, first))
  }

  function Connected(c: Container, net: string, config: string): Container {
    c.(networks := c.networks[net := config])
  }

  predicate RecreateEnabled(w: Setup, s: State, step: Step) {
    match step
    case Create(id, first, _) =>
      && s.up.pc.Removed? && id !in s.host.used && w.nameOf(id) == s.up.plan.snap.name
      && (first.None? <==> s.up.plan.networks == map[])
      && (first.Some? ==> first.value in s.up.plan.networks)
    case Connect(net) => s.up.pc.Connecting? && net in s.up.rest && Alive(s)
    case ConnectFails(net) => s.up.pc.Connecting? && net in s.up.rest && Alive(s)
    case Start => s.up.pc.Connecting? && s.up.rest == map[] && Alive(s)
    case Sample(seen) =>
      s.up.pc.Started? && Alive(s) && (seen == "running" || seen == s.host.daemon[s.up.replacement.value].snap.state)
    case _ => false
  }

  function RecreateApply(w: Setup, s: State, step: Step): State
    requires RecreateEnabled(w, s, step)
  {
    match step
    case Create(id, first, imageId) =>
      s.(host := HostApply(w, s.host, Appear(id, NewContainer(s.up, first, imageId))),
         up := s.up.(replacement := Some(id), rest := s.up.plan.networks - FirstNetwork(s.up.plan, first).Keys,
                     pc := Connecting))
    case Connect(net) =>
      var n := s.up.replacement.value;
      s.(host := s.host.(daemon := s.host.daemon[n := Connected(s.host.daemon[n], net, s.up.rest[net])]),
         up := s.up.(rest := s.up.rest - {net}))
    case ConnectFails(_) =>
      s.(host := HostApply(w, s.host, Vanish(s.up.replacement.value)), up := s.up.(pc := Failed))
    case Start =>
      s.(host := HostApply(w, s.host, Touch(s.up.replacement.value, "running")), up := s.up.(pc := Started))
    case Sample(seen) => s.(up := s.up.(sampled := seen, pc := Sampled))
  }

  predicate CommitEnabled(s: State, step: Step) {
    && s.up.replacement.Some?
    && match step
       case Swap(_) => s.up.pc.Sampled?
       case Fallback(_) => s.up.pc.NeedsSave?
       case PublishDelete => s.up.pc.NeedsDelete?
       case ReadBack => s.up.pc.NeedsReadBack?
       case PublishSave => s.up.pc.NeedsAnnounce?
       case _ => false
  }

  function CommitApply(w: Setup, s: State, step: Step): State
    requires CommitEnabled(s, step)
  {
    var n := s.up.replacement.value;
    match step
    case Swap(now) =>
      (match SwapOutcome(s.rows, w.oldId, n)
       case PrimaryKeyConflict => s.(up := s.up.(pc := Conflicted))
       case Affected(k) =>
         s.(rows := Swapped(s.rows, w.oldId, n, UpgradeSnapshot(s.up), now),
            up := s.up.(pc := if k == 0 then NeedsSave else NeedsDelete)))
    case Fallback(now) => s.(rows := s.rows[n := FallbackRow(s.up, now)], up := s.up.(pc := NeedsDelete))
    case PublishDelete =>
      s.(published := if n != w.oldId then s.published + [Delete(w.oldId)] else s.published,
         up := s.up.(pc := NeedsReadBack))
    case ReadBack =>
      if n in s.rows then s.(up := s.up.(readBack := s.rows[n], pc := NeedsAnnounce)) else s.(up := s.up.(pc := Done))
    case PublishSave => s.(published := s.published + [Save(n, s.up.readBack)], up := s.up.(pc := Done))
  }

  // ----- runs -----

  predicate WorldEnabled(w: Setup, s: State, step: Step) {
    step.World? && HostEnabled(w, s.host, step.host) && !(step.host.Vanish? && s.up.replacement == Some(step.host.id))
  }

  predicate Enabled(w: Setup, s: State, step: Step) {
    || WorldEnabled(w, s, step)
    || MonitorEnabled(s, step)
    || TeardownEnabled(w, s, step)
    || RecreateEnabled(w, s, step)
    || CommitEnabled(s, step)
  }

  function Apply(w: Setup, s: State, step: Step): State
    requires Enabled(w, s, step)
  {
    if WorldEnabled(w, s, step) then s.(host := HostApply(w, s.host, step.host))
    else if MonitorEnabled(s, step) then MonitorApply(s, step)
    else if TeardownEnabled(w, s, step) then TeardownApply(w, s, step)
    else if RecreateEnabled(w, s, step) then RecreateApply(w, s, step)
    else CommitApply(w, s, step)
  }

  /** After startup reconciliation: the table mirrors the host and nothing is in flight. */
  ghost predicate Init(w: Setup, s: State) {
    && s.rows.Keys == s.host.daemon.Keys == s.host.used
    && w.oldId in s.host.used
    && (forall id :: id in s.host.daemon ==> s.host.daemon[id].snap.name == w.nameOf(id))
    && (forall id :: id in s.rows ==> s.rows[id].name == w.nameOf(id))
    && s.host.queue == [] && s.monitor == Idle && s.up.pc == Begin && s.up.replacement == None
    && s.published == [] && s.faithful
  }

  /** The `steps`, taken in order from `s0`, lead to `s`. */
  ghost predicate Reaches(w: Setup, s0: State, steps: seq<Step>, s: State)
    decreases |steps|
  {
    if steps == [] then s == s0
    else
      var n := |steps| - 1;
      exists p :: Reaches(w, s0, steps[..n], p) && Enabled(w, p, steps[n]) && s == Apply(w, p, steps[n])
  }

  predicate Quiescent(s: State) {
    s.host.queue == [] && s.monitor == Idle
  }

  // ----- the daemon's side of the invariant -----

  ghost predicate Pending(q: seq<Event>, e: Event) {
    exists i :: 0 <= i < |q| && q[i] == e
  }

  /** A destroy is the last event about its id. */
  ghost predicate LastWord(q: seq<Event>) {
    forall i, j :: 0 <= i < j < |q| && q[i].Destroy? ==> q[j].id != q[i].id
  }

  /** destroy(old) precedes every event about the replacement. */
  ghost predicate Ordered(q: seq<Event>, oldId: Id, n: Id) {
    forall i, j :: 0 <= i < |q| && 0 <= j < |q| && q[i] == Destroy(oldId) && q[j].id == n ==> i < j
  }

  /** The container is live, or its destroy event is still to be handled. */
  ghost predicate Accounted(h: Host, id: Id) {
    id in h.daemon || Pending(h.queue, Destroy(id))
  }

  ghost predicate HostOk(w: Setup, h: Host) {
    && LastWord(h.queue)
    && (forall i :: 0 <= i < |h.queue| ==> h.queue[i].id in h.used)
    && (forall i :: 0 <= i < |h.queue| && h.queue[i].Destroy? ==> h.queue[i].id !in h.daemon)
    && (forall i :: 0 <= i < |h.queue| && h.queue[i].Change? ==> Accounted(h, h.queue[i].id))
    && (forall id :: id in h.daemon ==> id in h.used && h.daemon[id].snap.name == w.nameOf(id))
  }

  /** What a step of the daemon may do to anything the other parties rely on. */
  ghost predicate Advances(h: Host, h': Host) {
    && h.used <= h'.used
    && (forall id :: Accounted(h, id) ==> Accounted(h', id))
    && (forall id :: Pending(h.queue, Change(id)) ==> Pending(h'.queue, Change(id)))
    && (forall id :: id in h'.daemon ==> id in h.daemon || (id !in h.used && Pending(h'.queue, Change(id))))
    && (forall id :: id in h'.daemon && id in h.daemon ==> h'.daemon[id].snap.image == h.daemon[id].snap.image)
    && (forall id :: Pending(h'.queue, Destroy(id)) ==> Pending(h.queue, Destroy(id)) || id in h.daemon)
  }

  lemma Appended(q: seq<Event>, x: Event)
    ensures forall e :: Pending(q + [x], e) <==> Pending(q, e) || e == x
  {
    var r := q + [x];
    forall e
      ensures Pending(r, e) <==> Pending(q, e) || e == x
    {
      if Pending(q, e) {
        var i :| 0 <= i < |q| && q[i] == e;
        assert r[i] == e;
      }
      assert r[|q|] == x;
    }
  }

  lemma Popped(q: seq<Event>)
    requires q != []
    ensures forall e :: Pending(q, e) <==> q[0] == e || Pending(q[1..], e)
  {
    forall e
      ensures Pending(q, e) <==> q[0] == e || Pending(q[1..], e)
    {
      if Pending(q[1..], e) {
        var i :| 0 <= i < |q[1..]| && q[1..][i] == e;
        assert q[i + 1] == e;
      }
      if Pending(q, e) && q[0] != e {
        var i :| 0 <= i < |q| && q[i] == e;
        assert q[1..][i - 1] == e;
      }
    }
  }

  lemma HostAdvances(w: Setup, h: Host, step: HostStep)
    requires HostOk(w, h) && HostEnabled(w, h, step)
    ensures HostOk(w, HostApply(w, h, step))
    ensures Advances(h, HostApply(w, h, step))
  {
    var h' := HostApply(w, h, step);
    Appended(h.queue, h'.queue[|h.queue|]);
    forall i | 0 <= i < |h'.queue| && h'.queue[i].Change?
      ensures Accounted(h', h'.queue[i].id)
    {
      if i < |h.queue| {
        assert h'.queue[i] == h.queue[i];
      }
    }
  }

  /** Removing the head leaves a well-formed queue; only the head stops being pending. */
  lemma HostPops(w: Setup, h: Host)
    requires HostOk(w, h) && h.queue != []
    ensures HostOk(w, h.(queue := h.queue[1..]))
    ensures forall e :: Pending(h.queue, e) <==> h.queue[0] == e || Pending(h.queue[1..], e)
    ensures h.queue[0].Destroy? ==> h.queue[0].id !in h.daemon
    ensures !h.queue[0].Destroy? ==> forall id :: Accounted(h, id) ==> Accounted(h.(queue := h.queue[1..]), id)
    ensures h.queue[0].Change? ==> Accounted(h.(queue := h.queue[1..]), h.queue[0].id)
    ensures forall id :: Accounted(h, id) && h.queue[0] != Destroy(id) ==> Accounted(h.(queue := h.queue[1..]), id)
  {
    var h' := h.(queue := h.queue[1..]);
    Popped(h.queue);
    forall i | 0 <= i < |h'.queue| && h'.queue[i].Change?
      ensures Accounted(h', h'.queue[i].id)
    {
      assert h'.queue[i] == h.queue[i + 1];
    }
  }

  // ----- the invariant of the whole protocol -----

  /** The id whose save the monitor is in the middle of. */
  function Saving(m: Monitor): Option<Id> {
    match m
    case Idle => None
    case Writing(id, _) => Some(id)
    case Reading(id) => Some(id)
    case Announcing(message) => if message.Save? then Some(message.id) else None
  }

  /** No row outlives its container's destroy event, nor does a save in progress. */
  ghost predicate NoZombies(s: State) {
    && (forall id :: id in s.rows ==> id in s.host.used && Accounted(s.host, id))
    && (Saving(s.monitor).Some? ==>
        Saving(s.monitor).value in s.host.used && Accounted(s.host, Saving(s.monitor).value))
  }

  ghost predicate NamesOk(w: Setup, s: State) {
    && (forall id :: id in s.rows ==> s.rows[id].name == w.nameOf(id))
    && (s.monitor.Writing? ==> s.monitor.snap.name == w.nameOf(s.monitor.id))
    && (HasPlan(s.up.pc) ==> s.up.plan.snap.name == w.nameOf(w.oldId))
  }

  /** Unless an inspection of a live container failed, every live container has a row or is about to get one. */
  ghost predicate NothingMissing(s: State) {
    s.faithful ==> forall id :: id in s.host.daemon ==>
      id in s.rows || Pending(s.host.queue, Change(id)) || (s.monitor.Writing? && s.monitor.id == id)
  }

  /** Until the swap the old row, if present, keeps its settings; the upgrade's copy has them too. */
  ghost predicate OldRowOk(w: Setup, rows0: Rows, s: State) {
    && w.oldId in rows0
    && (s.up.pc.Begin? || PreSwap(s.up.pc) ==>
          && (w.oldId in s.rows ==> SettingsOf(s.rows[w.oldId]) == SettingsOf(rows0[w.oldId]))
          && (w.oldId in s.host.daemon ==> w.oldId in s.rows)
          && (s.monitor.Writing? && s.monitor.id == w.oldId ==> w.oldId in s.rows))
    && (PreSwap(s.up.pc) || s.up.pc.NeedsSave? || PostSwap(s.up.pc) ==>
          SettingsOf(s.up.existing) == SettingsOf(rows0[w.oldId]))
  }

  ghost predicate ReplacementOk(w: Setup, s: State) {
    && w.oldId in s.host.used
    && !s.up.pc.Conflicted?
    && (s.up.pc.Removed? || HasReplacement(s.up.pc) ==> w.oldId !in s.host.daemon)
    && (HasReplacement(s.up.pc) ==> Alive(s))
    && (s.up.replacement.Some? ==>
          var n := s.up.replacement.value;
          && (HasReplacement(s.up.pc) || s.up.pc.Failed?)
          && n != w.oldId && n in s.host.used && w.oldId !in s.host.daemon
          && w.nameOf(n) == w.nameOf(w.oldId)
          && Ordered(s.host.queue, w.oldId, n)
          && (Saving(s.monitor) == Some(n) ==> !Pending(s.host.queue, Destroy(w.oldId)))
          && (n in s.rows && PreSwap(s.up.pc) ==> !Pending(s.host.queue, Destroy(w.oldId))))
  }

  /** The replacement's row after the swap or the fallback. */
  ghost predicate CarriedOver(r: Row, existing: Row, plan: Container) {
    && r.autoUpdate == existing.autoUpdate
    && r.updateAvailable == 0
    && r.latestImageDigest == existing.latestImageDigest
    && r.lastCheckedAt == existing.lastCheckedAt
    && r.lastUpdatedAt.Some?
    && r.name == plan.snap.name
    && r.image == plan.snap.image
  }

  ghost predicate NewRowOk(s: State) {
    && (HasReplacement(s.up.pc) && Alive(s) ==>
          && s.host.daemon[s.up.replacement.value].snap.image == s.up.plan.snap.image
          && (s.monitor.Writing? && s.monitor.id == s.up.replacement.value ==>
              s.monitor.snap.image == s.up.plan.snap.image))
    && (PostSwap(s.up.pc) && s.up.replacement.Some? ==>
          && s.up.replacement.value in s.rows
          && CarriedOver(s.rows[s.up.replacement.value], s.up.existing, s.up.plan))
    && (s.up.pc.NeedsAnnounce? ==> CarriedOver(s.up.readBack, s.up.existing, s.up.plan))
  }

  /** Rows of bystanders keep their settings. */
  ghost predicate BystandersOk(w: Setup, rows0: Rows, s: State) {
    && rows0.Keys <= s.host.used
    && (s.up.replacement.Some? ==> s.up.replacement.value !in rows0)
    && (forall id :: id in rows0 && id != w.oldId && id in s.host.daemon ==>
          id in s.rows && SettingsOf(s.rows[id]) == SettingsOf(rows0[id]))
  }

  ghost predicate Inv(w: Setup, rows0: Rows, s: State) {
    && HostOk(w, s.host)
    && NoZombies(s)
    && NamesOk(w, s)
    && NothingMissing(s)
    && OldRowOk(w, rows0, s)
    && ReplacementOk(w, s)
    && NewRowOk(s)
    && BystandersOk(w, rows0, s)
  }

  lemma InitInv(w: Setup, s: State)
    requires Init(w, s)
    ensures Inv(w, s.rows, s)
  {
  }

  lemma OrderedAppend(q: seq<Event>, x: Event, oldId: Id, n: Id)
    requires Ordered(q, oldId, n) && x != Destroy(oldId)
    ensures Ordered(q + [x], oldId, n)
  {
  }

  /** Daemon steps that keep the upgrade's containers where they are. */
  lemma AdvanceKeeps(w: Setup, rows0: Rows, s: State, h: Host)
    requires Inv(w, rows0, s)
    requires HostOk(w, h) && Advances(s.host, h)
    requires s.up.replacement.Some? ==> Ordered(h.queue, w.oldId, s.up.replacement.value)
    requires HasReplacement(s.up.pc) ==> s.up.replacement.value in h.daemon
    ensures Inv(w, rows0, s.(host := h))
  {
  }

  lemma WorldKeeps(w: Setup, rows0: Rows, s: State, step: Step)
    requires Inv(w, rows0, s) && WorldEnabled(w, s, step)
    ensures Inv(w, rows0, Apply(w, s, step))
  {
    HostAdvances(w, s.host, step.host);
    var h := HostApply(w, s.host, step.host);
    if s.up.replacement.Some? {
      OrderedAppend(s.host.queue, h.queue[|s.host.queue|], w.oldId, s.up.replacement.value);
    }
    AdvanceKeeps(w, rows0, s, h);
  }

  lemma DestroyKeepsMirror(w: Setup, rows0: Rows, s: State, step: Step)
    requires Inv(w, rows0, s) && step.Receive? && MonitorEnabled(s, step) && s.host.queue[0].Destroy?
    ensures var s' := MonitorApply(s, step);
            HostOk(w, s'.host) && NoZombies(s') && NamesOk(w, s') && NothingMissing(s')
  {
    HostPops(w, s.host);
  }

  lemma DestroyKeepsUpgrade(w: Setup, rows0: Rows, s: State, step: Step)
    requires Inv(w, rows0, s) && step.Receive? && MonitorEnabled(s, step) && s.host.queue[0].Destroy?
    ensures var s' := MonitorApply(s, step);
            OldRowOk(w, rows0, s') && ReplacementOk(w, s') && NewRowOk(s') && BystandersOk(w, rows0, s')
  {
    HostPops(w, s.host);
  }

  lemma DestroyKeeps(w: Setup, rows0: Rows, s: State, step: Step)
    requires Inv(w, rows0, s) && step.Receive? && MonitorEnabled(s, step) && s.host.queue[0].Destroy?
    ensures Inv(w, rows0, MonitorApply(s, step))
  {
    DestroyKeepsMirror(w, rows0, s, step);
    DestroyKeepsUpgrade(w, rows0, s, step);
  }

  lemma InspectedKeeps(w: Setup, rows0: Rows, s: State, step: Step)
    requires Inv(w, rows0, s) && step.Receive? && MonitorEnabled(s, step) && s.host.queue[0].Change?
    requires s.host.queue[0].id in s.host.daemon && step.inspectOk
    ensures Inv(w, rows0, MonitorApply(s, step))
  {
    HostPops(w, s.host);
  }

  lemma SkippedKeeps(w: Setup, rows0: Rows, s: State, step: Step)
    requires Inv(w, rows0, s) && step.Receive? && MonitorEnabled(s, step) && !s.host.queue[0].Destroy?
    requires s.host.queue[0].Ignored? || s.host.queue[0].id !in s.host.daemon || !step.inspectOk
    ensures Inv(w, rows0, MonitorApply(s, step))
  {
    HostPops(w, s.host);
  }

  lemma UpsertKeeps(w: Setup, rows0: Rows, s: State)
    requires Inv(w, rows0, s) && MonitorEnabled(s, Upsert)
    ensures Inv(w, rows0, MonitorApply(s, Upsert))
  {
  }

  /** Reading a row back and announcing it touch neither the table nor the host. */
  lemma BroadcastKeeps(w: Setup, rows0: Rows, s: State, m: Monitor, published: seq<Message>)
    requires Inv(w, rows0, s) && !s.monitor.Writing? && !m.Writing?
    requires Saving(m).Some? ==> Saving(m) == Saving(s.monitor)
    ensures Inv(w, rows0, s.(monitor := m, published := published))
  {
  }

  lemma MonitorKeeps(w: Setup, rows0: Rows, s: State, step: Step)
    requires Inv(w, rows0, s) && MonitorEnabled(s, step)
    ensures Inv(w, rows0, MonitorApply(s, step))
  {
    if step.Receive? {
      if s.host.queue[0].Destroy? {
        DestroyKeeps(w, rows0, s, step);
      } else if s.host.queue[0].Change? && s.host.queue[0].id in s.host.daemon && step.inspectOk {
        InspectedKeeps(w, rows0, s, step);
      } else {
        SkippedKeeps(w, rows0, s, step);
      }
    } else if step.Upsert? {
      UpsertKeeps(w, rows0, s);
    } else {
      BroadcastKeeps(w, rows0, s, MonitorApply(s, step).monitor, MonitorApply(s, step).published);
    }
  }

  lemma LoadKeeps(w: Setup, rows0: Rows, s: State)
    requires Inv(w, rows0, s) && TeardownEnabled(w, s, Load)
    ensures Inv(w, rows0, TeardownApply(w, s, Load))
  {
  }

  lemma InspectKeeps(w: Setup, rows0: Rows, s: State)
    requires Inv(w, rows0, s) && TeardownEnabled(w, s, Inspect)
    ensures Inv(w, rows0, TeardownApply(w, s, Inspect))
  {
  }

  lemma PullKeeps(w: Setup, rows0: Rows, s: State, step: Step)
    requires Inv(w, rows0, s) && TeardownEnabled(w, s, step) && step.Pull?
    ensures Inv(w, rows0, TeardownApply(w, s, step))
  {
  }

  lemma FailKeeps(w: Setup, rows0: Rows, s: State)
    requires Inv(w, rows0, s) && TeardownEnabled(w, s, Fail)
    ensures Inv(w, rows0, TeardownApply(w, s, Fail))
  {
  }

  lemma StopKeeps(w: Setup, rows0: Rows, s: State, step: Step)
    requires Inv(w, rows0, s) && TeardownEnabled(w, s, step) && step.Stop?
    ensures Inv(w, rows0, TeardownApply(w, s, step))
  {
    var s1 := s.(up := s.up.(pc := Stopped));
    assert Inv(w, rows0, s1);
    if step.running {
      var touch := Touch(w.oldId, "exited");
      WorldKeeps(w, rows0, s1, World(touch));
      WorldKeeps(w, rows0, s1.(host := HostApply(w, s1.host, touch)), World(touch));
    }
  }

  lemma RemoveKeeps(w: Setup, rows0: Rows, s: State)
    requires Inv(w, rows0, s) && TeardownEnabled(w, s, Remove)
    ensures Inv(w, rows0, TeardownApply(w, s, Remove))
  {
    WorldKeeps(w, rows0, s, World(Vanish(w.oldId)));
  }

  lemma CreateKeeps(w: Setup, rows0: Rows, s: State, step: Step)
    requires Inv(w, rows0, s) && RecreateEnabled(w, s, step) && step.Create?
    ensures Inv(w, rows0, RecreateApply(w, s, step))
  {
    var birth := Appear(step.newId, NewContainer(s.up, step.first, step.createdImageId));
    WorldKeeps(w, rows0, s, World(birth));
    BirthOrdered(w, s.host, step.newId);
  }

  /** No event mentions an id before it is handed out, so the first event about it comes last. */
  lemma BirthOrdered(w: Setup, h: Host, id: Id)
    requires HostOk(w, h) && id !in h.used && id != w.oldId
    ensures Ordered(h.queue + [Change(id)], w.oldId, id)
  {
  }

  /** Connecting a network emits no container event and leaves the snapshot alone. */
  lemma NetworksAdvance(w: Setup, h: Host, id: Id, c: Container)
    requires HostOk(w, h) && id in h.daemon && c.snap == h.daemon[id].snap
    ensures HostOk(w, h.(daemon := h.daemon[id := c]))
    ensures Advances(h, h.(daemon := h.daemon[id := c]))
  {
    var h' := h.(daemon := h.daemon[id := c]);
    assert forall x :: Accounted(h, x) <==> Accounted(h', x);
  }

  lemma RestKeeps(w: Setup, rows0: Rows, s: State, rest: map<string, string>)
    requires Inv(w, rows0, s)
    ensures Inv(w, rows0, s.(up := s.up.(rest := rest)))
  {
  }

  lemma ConnectKeeps(w: Setup, rows0: Rows, s: State, step: Step)
    requires Inv(w, rows0, s) && RecreateEnabled(w, s, step) && step.Connect?
    ensures Inv(w, rows0, RecreateApply(w, s, step))
  {
    var h := RecreateApply(w, s, step).host;
    NetworksAdvance(w, s.host, s.up.replacement.value, h.daemon[s.up.replacement.value]);
    AdvanceKeeps(w, rows0, s, h);
    RestKeeps(w, rows0, s.(host := h), s.up.rest - {step.network});
  }

  lemma SampleKeeps(w: Setup, rows0: Rows, s: State, step: Step)
    requires Inv(w, rows0, s) && RecreateEnabled(w, s, step) && step.Sample?
    ensures Inv(w, rows0, RecreateApply(w, s, step))
  {
  }

  lemma RollbackKeeps(w: Setup, rows0: Rows, s: State, step: Step)
    requires Inv(w, rows0, s) && RecreateEnabled(w, s, step) && step.ConnectFails?
    ensures Inv(w, rows0, RecreateApply(w, s, step))
  {
    var n := s.up.replacement.value;
    HostAdvances(w, s.host, Vanish(n));
    OrderedAppend(s.host.queue, Destroy(n), w.oldId, n);
    AdvanceKeeps(w, rows0, s.(up := s.up.(pc := Failed)), HostApply(w, s.host, Vanish(n)));
  }

  lemma StartKeeps(w: Setup, rows0: Rows, s: State)
    requires Inv(w, rows0, s) && RecreateEnabled(w, s, Start)
    ensures Inv(w, rows0, RecreateApply(w, s, Start))
  {
    WorldKeeps(w, rows0, s.(up := s.up.(pc := Started)), World(Touch(s.up.replacement.value, "running")));
  }

  /** Both rows are never present together when the swap runs. */
  lemma NoConflict(w: Setup, rows0: Rows, s: State)
    requires Inv(w, rows0, s) && s.up.pc.Sampled?
    ensures s.up.replacement.Some? && !(w.oldId in s.rows && s.up.replacement.value in s.rows)
    ensures SwapOutcome(s.rows, w.oldId, s.up.replacement.value) != PrimaryKeyConflict
  {
    if w.oldId in s.rows {
      assert Accounted(s.host, w.oldId);
    }
  }

  lemma SwapKeeps(w: Setup, rows0: Rows, s: State, step: Step)
    requires Inv(w, rows0, s) && CommitEnabled(s, step) && step.Swap?
    ensures Inv(w, rows0, CommitApply(w, s, step))
  {
    NoConflict(w, rows0, s);
  }

  lemma FallbackKeeps(w: Setup, rows0: Rows, s: State, step: Step)
    requires Inv(w, rows0, s) && CommitEnabled(s, step) && step.Fallback?
    ensures Inv(w, rows0, CommitApply(w, s, step))
  {
  }

  lemma PublishKeeps(w: Setup, rows0: Rows, s: State, step: Step)
    requires Inv(w, rows0, s) && CommitEnabled(s, step) && (step.PublishDelete? || step.PublishSave?)
    ensures Inv(w, rows0, CommitApply(w, s, step))
  {
  }

  lemma ReadBackKeeps(w: Setup, rows0: Rows, s: State)
    requires Inv(w, rows0, s) && CommitEnabled(s, ReadBack)
    ensures Inv(w, rows0, CommitApply(w, s, ReadBack))
  {
  }

  lemma TeardownKeeps(w: Setup, rows0: Rows, s: State, step: Step)
    requires Inv(w, rows0, s) && TeardownEnabled(w, s, step)
    ensures Inv(w, rows0, TeardownApply(w, s, step))
  {
    match step
    case Load => LoadKeeps(w, rows0, s);
    case Inspect => InspectKeeps(w, rows0, s);
    case Pull(_) => PullKeeps(w, rows0, s, step);
    case Stop(_) => StopKeeps(w, rows0, s, step);
    case Remove => RemoveKeeps(w, rows0, s);
    case Fail => FailKeeps(w, rows0, s);
  }

  lemma RecreateKeeps(w: Setup, rows0: Rows, s: State, step: Step)
    requires Inv(w, rows0, s) && RecreateEnabled(w, s, step)
    ensures Inv(w, rows0, RecreateApply(w, s, step))
  {
    match step
    case Create(_, _, _) => CreateKeeps(w, rows0, s, step);
    case Connect(_) => ConnectKeeps(w, rows0, s, step);
    case ConnectFails(_) => RollbackKeeps(w, rows0, s, step);
    case Start => StartKeeps(w, rows0, s);
    case Sample(_) => SampleKeeps(w, rows0, s, step);
  }

  lemma CommitKeeps(w: Setup, rows0: Rows, s: State, step: Step)
    requires Inv(w, rows0, s) && CommitEnabled(s, step)
    ensures Inv(w, rows0, CommitApply(w, s, step))
  {
    match step
    case Swap(_) => SwapKeeps(w, rows0, s, step);
    case Fallback(_) => FallbackKeeps(w, rows0, s, step);
    case ReadBack => ReadBackKeeps(w, rows0, s);
    case PublishDelete => PublishKeeps(w, rows0, s, step);
    case PublishSave => PublishKeeps(w, rows0, s, step);
  }

  lemma StepKeeps(w: Setup, rows0: Rows, s: State, step: Step)
    requires Inv(w, rows0, s) && Enabled(w, s, step)
    ensures Inv(w, rows0, Apply(w, s, step))
  {
    if WorldEnabled(w, s, step) {
      WorldKeeps(w, rows0, s, step);
    } else if MonitorEnabled(s, step) {
      MonitorKeeps(w, rows0, s, step);
    } else if TeardownEnabled(w, s, step) {
      TeardownKeeps(w, rows0, s, step);
    } else if RecreateEnabled(w, s, step) {
      RecreateKeeps(w, rows0, s, step);
    } else {
      CommitKeeps(w, rows0, s, step);
    }
  }

  lemma {:induction false} RunKeeps(w: Setup, s0: State, steps: seq<Step>, s: State)
    requires Init(w, s0) && Reaches(w, s0, steps, s)
    ensures Inv(w, s0.rows, s)
    decreases |steps|
  {
    if steps == [] {
      InitInv(w, s0);
    } else {
      var n := |steps| - 1;
      var p :| Reaches(w, s0, steps[..n], p) && Enabled(w, p, steps[n]) && s == Apply(w, p, steps[n]);
      RunKeeps(w, s0, steps[..n], p);
      StepKeeps(w, s0.rows, p, steps[n]);
    }
  }

  // ----- what the replacement inherits from the old container itself -----

  /** Connected networks and those still to be connected make up the old container's; the image never changes. */
  ghost predicate Inherited(w: Setup, c0: Container, s: State) {
    && (w.oldId in s.host.daemon ==>
          s.host.daemon[w.oldId].networks == c0.networks && s.host.daemon[w.oldId].snap.image == c0.snap.image)
    && (HasPlan(s.up.pc) ==> s.up.plan.networks == c0.networks && s.up.plan.snap.image == c0.snap.image)
    && (s.up.pc.Connecting? && Alive(s) ==> s.host.daemon[s.up.replacement.value].networks + s.up.rest == c0.networks)
    && (Assembled(s.up.pc) && Alive(s) ==> s.host.daemon[s.up.replacement.value].networks == c0.networks)
  }

  lemma FirstNetworkPartitions(plan: Container, first: Option<string>)
    requires first.None? <==> plan.networks == map[]
    requires first.Some? ==> first.value in plan.networks
    ensures FirstNetwork(plan, first) + (plan.networks - FirstNetwork(plan, first).Keys) == plan.networks
  {
  }

  lemma TeardownInherits(w: Setup, c0: Container, s: State, step: Step)
    requires HostOk(w, s.host) && ReplacementOk(w, s) && Inherited(w, c0, s) && TeardownEnabled(w, s, step)
    ensures Inherited(w, c0, TeardownApply(w, s, step))
  {
  }

  lemma CreateInherits(w: Setup, c0: Container, s: State, step: Step)
    requires HostOk(w, s.host) && ReplacementOk(w, s) && Inherited(w, c0, s) && RecreateEnabled(w, s, step)
             && step.Create?
    ensures Inherited(w, c0, RecreateApply(w, s, step))
  {
    FirstNetworkPartitions(s.up.plan, step.first);
  }

  lemma RecreateInherits(w: Setup, c0: Container, s: State, step: Step)
    requires HostOk(w, s.host) && ReplacementOk(w, s) && Inherited(w, c0, s) && RecreateEnabled(w, s, step)
    ensures Inherited(w, c0, RecreateApply(w, s, step))
  {
    if step.Create? {
      CreateInherits(w, c0, s, step);
    }
  }

  lemma WorldInherits(w: Setup, c0: Container, s: State, step: Step)
    requires HostOk(w, s.host) && ReplacementOk(w, s) && Inherited(w, c0, s) && WorldEnabled(w, s, step)
    ensures Inherited(w, c0, s.(host := HostApply(w, s.host, step.host)))
  {
  }

  lemma MonitorInherits(w: Setup, c0: Container, s: State, step: Step)
    requires Inherited(w, c0, s) && MonitorEnabled(s, step)
    ensures Inherited(w, c0, MonitorApply(s, step))
  {
  }

  lemma CommitInherits(w: Setup, c0: Container, s: State, step: Step)
    requires Inherited(w, c0, s) && CommitEnabled(s, step)
    ensures Inherited(w, c0, CommitApply(w, s, step))
  {
  }

  lemma StepInherits(w: Setup, c0: Container, s: State, step: Step)
    requires HostOk(w, s.host) && ReplacementOk(w, s) && Inherited(w, c0, s) && Enabled(w, s, step)
    ensures Inherited(w, c0, Apply(w, s, step))
  {
    if WorldEnabled(w, s, step) {
      WorldInherits(w, c0, s, step);
    } else if MonitorEnabled(s, step) {
      MonitorInherits(w, c0, s, step);
    } else if TeardownEnabled(w, s, step) {
      TeardownInherits(w, c0, s, step);
    } else if RecreateEnabled(w, s, step) {
      RecreateInherits(w, c0, s, step);
    } else {
      CommitInherits(w, c0, s, step);
    }
  }

  lemma {:induction false} RunInherits(w: Setup, s0: State, steps: seq<Step>, s: State)
    requires Init(w, s0) && Reaches(w, s0, steps, s)
    ensures Inherited(w, s0.host.daemon[w.oldId], s)
    decreases |steps|
  {
    if steps != [] {
      var n := |steps| - 1;
      var p :| Reaches(w, s0, steps[..n], p) && Enabled(w, p, steps[n]) && s == Apply(w, p, steps[n]);
      RunKeeps(w, s0, steps[..n], p);
      RunInherits(w, s0, steps[..n], p);
      StepInherits(w, s0.host.daemon[w.oldId], p, steps[n]);
    }
  }

  // ----- main results -----

  /**
   In every interleaving of a completed upgrade with the monitor, once the queue has
   drained the old id has no row and the replacement has one carrying the settings the
   old row had at the start, whether the swap or the fallback wrote it; the replacement
   is live on all the old container's networks.
   */
  lemma CompletedUpgrade(w: Setup, s0: State, steps: seq<Step>, s: State)
    requires Init(w, s0) && Reaches(w, s0, steps, s)
    requires s.up.pc == Done && Quiescent(s)
    ensures w.oldId !in s.rows && w.oldId !in s.host.daemon
    ensures s.up.replacement.Some?
    ensures var n := s.up.replacement.value;
            && n !in s0.host.used && n in s.host.daemon && n in s.rows
            && CarriedOver(s.rows[n], s0.rows[w.oldId], s0.host.daemon[w.oldId])
            && s.host.daemon[n].networks == s0.host.daemon[w.oldId].networks
  {
    RunKeeps(w, s0, steps, s);
    RunInherits(w, s0, steps, s);
    assert !Pending(s.host.queue, Destroy(w.oldId));
    assert w.oldId in s.rows ==> Accounted(s.host, w.oldId);
  }

  /** In no interleaving does the swap find both rows present. */
  lemma SwapNeverConflicts(w: Setup, s0: State, steps: seq<Step>, s: State)
    requires Init(w, s0) && Reaches(w, s0, steps, s)
    ensures s.up.pc != Conflicted
    ensures s.up.pc == Sampled ==>
      s.up.replacement.Some? && !(w.oldId in s.rows && s.up.replacement.value in s.rows)
  {
    RunKeeps(w, s0, steps, s);
    if s.up.pc == Sampled {
      NoConflict(w, s0.rows, s);
    }
  }

  /**
   Whatever the outcome of the upgrade: once the queue has drained no row lacks a live
   container, no live container lacks a row unless one of its inspections failed, and
   every surviving bystander keeps its settings.
   */
  lemma DrainedTableMirrorsHost(w: Setup, s0: State, steps: seq<Step>, s: State)
    requires Init(w, s0) && Reaches(w, s0, steps, s) && Quiescent(s)
    ensures s.rows.Keys <= s.host.daemon.Keys
    ensures s.faithful ==> s.rows.Keys == s.host.daemon.Keys
    ensures forall id :: id in s0.rows && id != w.oldId && id in s.host.daemon ==>
      id in s.rows && SettingsOf(s.rows[id]) == SettingsOf(s0.rows[id])
  {
    RunKeeps(w, s0, steps, s);
    forall id | id in s.rows
      ensures id in s.host.daemon
    {
      assert Accounted(s.host, id);
    }
  }
}
