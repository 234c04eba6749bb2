/**
 The monitor's event handler and the last part of the upgrade as straight-line code on
 the table, and the runs of the protocol they are when nobody interrupts them.
 */
module UpgradeCode {
  import opened Wrappers
  import opened ContainerTable
  import opened UpgradeProtocol

  // ----- the event handler -----

  function Classify(action: string, id: Id): Event {
    if id == "" then Ignored(id)
    else if action == "destroy" || action == "delete" then Destroy(id)
    else if action == "create" || action == "start" || action == "stop" || action == "die" || action == "update"
      then Change(id)
    else Ignored(id)
  }

  function HandledRows(rows: Rows, daemon: map<Id, Container>, e: Event, inspectOk: bool): Rows {
    match e
    case Destroy(id) => rows - {id}
    case Change(id) => if id in daemon && inspectOk then Upserted(rows, id, daemon[id].snap) else rows
    case Ignored(_) => rows
  }

  function HandledMessages(rows: Rows, daemon: map<Id, Container>, e: Event, inspectOk: bool): seq<Message> {
    match e
    case Destroy(id) => [Delete(id)]
    case Change(id) =>
      if id in daemon && inspectOk then [Save(id, Upserted(rows, id, daemon[id].snap)[id])] else []
    case Ignored(_) => []
  }

  /** The monitor's steps for one event, taken without interruption. */
  function HandlingSteps(s: State, inspectOk: bool): seq<Step>
    requires s.host.queue != []
  {
    var e := s.host.queue[0];
    match e
    case Destroy(_) => [Receive(inspectOk)] + [Announce]
    case Change(id) =>
      if id in s.host.daemon && inspectOk
        then [Receive(inspectOk)] + [Upsert] + [ReadRow] + [Announce] else [Receive(inspectOk)]
    case Ignored(_) => [Receive(inspectOk)]
  }

  lemma Extends(w: Setup, s0: State, steps: seq<Step>, s: State, step: Step)
    requires Reaches(w, s0, steps, s) && Enabled(w, s, step)
    ensures Reaches(w, s0, steps + [step], Apply(w, s, step))
  {
    assert (steps + [step])[..|steps|] == steps;
  }

  lemma MonitorExtends(w: Setup, s0: State, steps: seq<Step>, s: State, step: Step)
    requires Reaches(w, s0, steps, s) && MonitorEnabled(s, step)
    ensures Reaches(w, s0, steps + [step], MonitorApply(s, step))
  {
    assert Enabled(w, s, step) && Apply(w, s, step) == MonitorApply(s, step);
    Extends(w, s0, steps, s, step);
  }

  lemma CommitExtends(w: Setup, s0: State, steps: seq<Step>, s: State, step: Step)
    requires Reaches(w, s0, steps, s) && CommitEnabled(s, step)
    ensures Reaches(w, s0, steps + [step], CommitApply(w, s, step))
  {
    assert Enabled(w, s, step) && Apply(w, s, step) == CommitApply(w, s, step);
    Extends(w, s0, steps, s, step);
  }

  /** Upsert, read back and announce, uninterrupted. */
  lemma UpsertIsAnnounced(w: Setup, s0: State, steps: seq<Step>, s: State) returns (s': State)
    requires Reaches(w, s0, steps, s) && s.monitor.Writing?
    ensures Reaches(w, s0, steps + [Upsert] + [ReadRow] + [Announce], s')
    ensures var rows := Upserted(s.rows, s.monitor.id, s.monitor.snap);
            s' == s.(rows := rows, monitor := Idle, published := s.published + [Save(s.monitor.id, rows[s.monitor.id])])
  {
    MonitorExtends(w, s0, steps, s, Upsert);
    var s1 := MonitorApply(s, Upsert);
    MonitorExtends(w, s0, steps + [Upsert], s1, ReadRow);
    var s2 := MonitorApply(s1, ReadRow);
    MonitorExtends(w, s0, steps + [Upsert] + [ReadRow], s2, Announce);
    s' := MonitorApply(s2, Announce);
  }

  /** The handler is the protocol's monitor: same table, same messages, queue one event shorter. */
  lemma HandlerIsMonitorRun(w: Setup, s: State, inspectOk: bool) returns (s': State)
    requires s.monitor == Idle && s.host.queue != []
    ensures Reaches(w, s, HandlingSteps(s, inspectOk), s')
    ensures s'.monitor == Idle && s'.host == s.host.(queue := s.host.queue[1..]) && s'.up == s.up
    ensures inspectOk ==> s'.faithful == s.faithful
    ensures s'.rows == HandledRows(s.rows, s.host.daemon, s.host.queue[0], inspectOk)
    ensures s'.published == s.published + HandledMessages(s.rows, s.host.daemon, s.host.queue[0], inspectOk)
  {
    var e, receive := s.host.queue[0], Receive(inspectOk);
    MonitorExtends(w, s, [], s, receive);
    assert [] + [receive] == [receive];
    s' := MonitorApply(s, receive);
    if e.Destroy? {
      MonitorExtends(w, s, [receive], s', Announce);
      s' := MonitorApply(s', Announce);
    } else if e.Change? && e.id in s.host.daemon && inspectOk {
      s' := UpsertIsAnnounced(w, s, [receive], s');
    }
  }

  /** Handles one event; `daemon` answers the inspection, which may fail. */
  method HandleEvent(table: Containers, action: string, id: Id, daemon: map<Id, Container>, inspectOk: bool)
    returns (published: seq<Message>)
    modifies table
    ensures table.rows == HandledRows(old(table.rows), daemon, Classify(action, id), inspectOk)
    ensures published == HandledMessages(old(table.rows), daemon, Classify(action, id), inspectOk)
    // a container that was created, started, stopped, died or was updated is inspected, saved and announced
    ensures id != ""
            && (action == "create" || action == "start" || action == "stop" || action == "die" || action == "update")
              && id in daemon && inspectOk ==>
      && table.rows.Keys == old(table.rows).Keys + {id}
      && table.rows[id].name == daemon[id].snap.name && table.rows[id].image == daemon[id].snap.image
      && table.rows[id].imageId == daemon[id].snap.imageId && table.rows[id].state == daemon[id].snap.state
      && (id in old(table.rows) ==> SettingsOf(table.rows[id]) == SettingsOf(old(table.rows)[id]))
      && (id !in old(table.rows) ==> SettingsOf(table.rows[id]) == Settings(0, 0, None, None, None))
      && (forall k :: k in old(table.rows) && k != id ==> table.rows[k] == old(table.rows)[k])
      && published == [Save(id, table.rows[id])]
    // a destroyed one loses its row
    ensures id != "" && (action == "destroy" || action == "delete") ==>
      table.rows == old(table.rows) - {id} && published == [Delete(id)]
    // and everything else changes nothing
    ensures id == "" || id !in daemon || !inspectOk
              || (action != "create" && action != "start" && action != "stop" && action != "die"
                  && action != "update") ==>
      (id != "" && (action == "destroy" || action == "delete")) || (table.rows == old(table.rows) && published == [])
  {
    published := [];
    if id == "" {
      return;
    }
    if action == "destroy" || action == "delete" {
      table.DeleteContainer(id);
      published := published + [Delete(id)];
      return;
    }
    if action == "create" || action == "start" || action == "stop" || action == "die" || action == "update" {
      if id !in daemon || !inspectOk {
        return;
      }
      table.UpsertContainerFromEvent(id, daemon[id].snap);
      if id in table.rows {
        published := published + [Save(id, table.rows[id])];
      }
    }
  }

  // ----- the upgrade's network plan -----

  /**
   Splits the networks into the one given at creation and those connected afterwards, in
   whatever order the map yields them. An empty name would pass for "none yet"; without
   one, nothing is lost and nothing is connected twice.
   */
  method PlanNetworks(networks: map<string, string>)
    returns (firstName: string, firstConfig: string, others: map<string, string>)
    ensures "" !in networks ==> (firstName == "" <==> networks == map[])
    ensures "" !in networks && networks != map[] ==>
      firstName in networks && firstConfig == networks[firstName] && others == networks - {firstName}
  {
    firstName, firstConfig, others := "", "", map[];
    var todo := networks.Keys;
    while todo != {}
      invariant todo <= networks.Keys
      invariant "" !in networks && firstName == "" ==> todo == networks.Keys && others == map[]
      invariant "" !in networks && firstName != "" ==>
        && firstName in networks && firstName !in todo && firstConfig == networks[firstName]
        && others == map n | n in networks && n !in todo && n != firstName :: networks[n]
      decreases todo
    {
      var name :| name in todo;
      todo := todo - {name};
      if firstName == "" {
        firstName, firstConfig := name, networks[name];
      } else {
        others := others[name := networks[name]];
      }
    }
  }

  // ----- the commit -----

  datatype Committed = Conflict | Ok(published: seq<Message>)

  function CommittedRows(rows: Rows, oldId: Id, newId: Id, u: Upgrade, now: int): Rows {
    if oldId in rows then Swapped(rows, oldId, newId, UpgradeSnapshot(u), now) else rows[newId := FallbackRow(u, now)]
  }

  function Notices(oldId: Id, newId: Id, row: Row): seq<Message> {
    (if newId != oldId then [Delete(oldId)] else []) + [Save(newId, row)]
  }

  /** Swap, fall back to a save if the old row is gone, then tell the clients. */
  method CommitUpgrade(table: Containers, oldId: Id, newId: Id, u: Upgrade, now: int) returns (r: Committed)
    modifies table
    ensures r.Conflict? <==> SwapOutcome(old(table.rows), oldId, newId) == PrimaryKeyConflict
    ensures r.Conflict? ==> table.rows == old(table.rows)
    ensures r.Ok? ==> table.rows == CommittedRows(old(table.rows), oldId, newId, u, now)
    ensures r.Ok? ==> newId in table.rows && r.published == Notices(oldId, newId, table.rows[newId])
    // the same column by column
    ensures r.Conflict? <==> oldId in old(table.rows) && newId != oldId && newId in old(table.rows)
    ensures r.Ok? ==>
      var was := if oldId in old(table.rows) then old(table.rows)[oldId] else u.existing;
      && table.rows.Keys == old(table.rows).Keys - {oldId} + {newId}
      && table.rows[newId] == Row(u.plan.snap.name, u.plan.snap.image, u.newImageId, u.sampled, was.autoUpdate, 0,
                                  was.latestImageDigest, was.lastCheckedAt, Some(now))
      && (forall k :: k in old(table.rows) && k != oldId && k != newId ==> table.rows[k] == old(table.rows)[k])
      && r.published == (if newId == oldId then [Save(newId, table.rows[newId])]
                         else [Delete(oldId), Save(newId, table.rows[newId])])
  {
    var outcome := table.UpdateContainerForUpgrade(newId, UpgradeSnapshot(u), now, oldId);
    if outcome.PrimaryKeyConflict? {
      return Conflict;
    }
    if outcome.count == 0 {
      table.SaveContainer(newId, FallbackRow(u, now));
    }
    var published := [];
    if newId != oldId {
      published := published + [Delete(oldId)];
    }
    if newId in table.rows {
      published := published + [Save(newId, table.rows[newId])];
    }
    r := Ok(published);
  }

  /** From the sampled state to the end, uninterrupted, by either path. */
  function CommitSteps(w: Setup, s: State, now: int): seq<Step> {
    (if w.oldId in s.rows then [Swap(now)] else [Swap(now)] + [Fallback(now)]) + [PublishDelete] + [ReadBack]
      + [PublishSave]
  }

  lemma RowIsReadAndAnnounced(w: Setup, s0: State, steps: seq<Step>, s: State) returns (s': State)
    requires Reaches(w, s0, steps, s) && s.up.pc == NeedsReadBack && s.up.replacement.Some?
             && s.up.replacement.value in s.rows
    ensures Reaches(w, s0, steps + [ReadBack] + [PublishSave], s')
    ensures var row := s.rows[s.up.replacement.value];
            s' == s.(published := s.published + [Save(s.up.replacement.value, row)],
                up := s.up.(pc := Done, readBack := row))
  {
    var s1 := CommitApply(w, s, ReadBack);
    CommitExtends(w, s0, steps, s, ReadBack);
    s' := CommitApply(w, s1, PublishSave);
    CommitExtends(w, s0, steps + [ReadBack], s1, PublishSave);
  }

  lemma NoticesArePublished(w: Setup, s0: State, steps: seq<Step>, s: State) returns (s': State)
    requires Reaches(w, s0, steps, s) && s.up.pc == NeedsDelete && s.up.replacement.Some?
             && s.up.replacement.value in s.rows
    ensures Reaches(w, s0, steps + [PublishDelete] + [ReadBack] + [PublishSave], s')
    ensures s'.up.pc == Done && s'.monitor == s.monitor && s'.host == s.host && s'.rows == s.rows
            && s'.faithful == s.faithful
    ensures s'.up.replacement == s.up.replacement
    ensures s'.published == s.published + Notices(w.oldId, s.up.replacement.value, s.rows[s.up.replacement.value])
  {
    CommitExtends(w, s0, steps, s, PublishDelete);
    var s1 := CommitApply(w, s, PublishDelete);
    s' := RowIsReadAndAnnounced(w, s0, steps + [PublishDelete], s1);
  }

  lemma RowIsCommitted(w: Setup, s: State, now: int) returns (s': State, steps: seq<Step>)
    requires s.up.pc == Sampled && s.up.replacement.Some?
    requires SwapOutcome(s.rows, w.oldId, s.up.replacement.value) != PrimaryKeyConflict
    ensures steps == (if w.oldId in s.rows then [Swap(now)] else [Swap(now)] + [Fallback(now)])
            && Reaches(w, s, steps, s')
    ensures s' == s.(rows := CommittedRows(s.rows, w.oldId, s.up.replacement.value, s.up, now),
            up := s.up.(pc := NeedsDelete))
    ensures s.up.replacement.value in s'.rows
  {
    CommitExtends(w, s, [], s, Swap(now));
    assert [] + [Swap(now)] == [Swap(now)];
    s', steps := CommitApply(w, s, Swap(now)), [Swap(now)];
    if w.oldId !in s.rows {
      CommitExtends(w, s, steps, s', Fallback(now));
      s', steps := CommitApply(w, s', Fallback(now)), steps + [Fallback(now)];
    }
  }

  /** The commit code is the protocol's commit: same table, same messages. */
  lemma CommitIsProtocolRun(w: Setup, s: State, now: int) returns (s': State)
    requires s.up.pc == Sampled && s.up.replacement.Some?
    requires SwapOutcome(s.rows, w.oldId, s.up.replacement.value) != PrimaryKeyConflict
    ensures Reaches(w, s, CommitSteps(w, s, now), s')
    ensures s'.up.pc == Done && s'.monitor == s.monitor && s'.host == s.host && s'.faithful == s.faithful
    ensures s'.up.replacement == s.up.replacement
    ensures var n := s.up.replacement.value;
            && s'.rows == CommittedRows(s.rows, w.oldId, n, s.up, now)
            && n in s'.rows && s'.published == s.published + Notices(w.oldId, n, s'.rows[n])
  {
    var s1, steps := RowIsCommitted(w, s, now);
    s' := NoticesArePublished(w, s, steps, s1);
  }
}
