/**
 The `containers` table of the SQLite cache and the startup reconciliation.

 Each query is a pure function on the rows; the class below performs it in
 place, and the upgrade protocol uses the functions as its atomic steps.
 */
module ContainerTable {
  import opened Wrappers

  type Id = string

  // created_at and updated_at are never read back by the modelled code.
  datatype Row = Row(
    name: string,
    image: string,
    imageId: string,
    state: string,
    autoUpdate: int,
    updateAvailable: int,
    latestImageDigest: Option<string>,
    lastCheckedAt: Option<int>,
    lastUpdatedAt: Option<int>)

  /** What the Docker host says about a container: the columns an event upsert writes. */
  datatype Snapshot = Snapshot(name: string, image: string, imageId: string, state: string)

  type Rows = map<Id, Row>

  /** The columns no Docker event may change. */
  datatype Settings = Settings(autoUpdate: int, updateAvailable: int, latestImageDigest: Option<string>,
                               lastCheckedAt: Option<int>, lastUpdatedAt: Option<int>)

  function SettingsOf(r: Row): Settings {
    Settings(r.autoUpdate, r.updateAvailable, r.latestImageDigest, r.lastCheckedAt, r.lastUpdatedAt)
  }

  function SnapshotOf(r: Row): Snapshot {
    Snapshot(r.name, r.image, r.imageId, r.state)
  }

  function FreshRow(s: Snapshot): Row {
    Row(s.name, s.image, s.imageId, s.state, 0, 0, None, None, None)
  }

  function Rewritten(r: Row, s: Snapshot): Row {
    r.(name := s.name, image := s.image, imageId := s.imageId, state := s.state)
  }

  function Upserted(rows: Rows, id: Id, s: Snapshot): Rows {
    rows[id := if id in rows then Rewritten(rows[id], s) else FreshRow(s)]
  }

  /** Outcome of the in-place swap: a primary-key conflict, or the number of rows changed. */
  datatype SwapResult = PrimaryKeyConflict | Affected(count: nat)

  function SwapOutcome(rows: Rows, oldId: Id, newId: Id): SwapResult {
    if oldId !in rows then Affected(0)
    else if newId != oldId && newId in rows then PrimaryKeyConflict
    else Affected(1)
  }

  function SwappedRow(r: Row, s: Snapshot, now: int): Row {
    Rewritten(r, s).(updateAvailable := 0, lastUpdatedAt := Some(now))
  }

  function Swapped(rows: Rows, oldId: Id, newId: Id, s: Snapshot, now: int): Rows {
    if SwapOutcome(rows, oldId, newId) == Affected(1)
    then (rows - {oldId})[newId := SwappedRow(rows[oldId], s, now)]
    else rows
  }

  /** `id NOT IN (...)`; the empty list is rendered as NULL, which makes the predicate never true. */
  function WithoutOrphans(rows: Rows, active: seq<Id>): Rows {
    if active == [] then rows else map id | id in rows && id in active :: rows[id]
  }

  /** One element of the host's container list; the daemon reports names with a leading slash. */
  datatype Listed = Listed(id: Id, names: seq<string>, image: string, imageId: string, state: string)

  function TrimSlash(name: string): string {
    if name != [] && name[0] == '/' then name[1..] else name
  }

  function ListedSnapshot(c: Listed): Snapshot {
    Snapshot(if c.names == [] then "" else TrimSlash(c.names[0]), c.image, c.imageId, c.state)
  }

  function UpsertAll(rows: Rows, host: seq<Listed>): Rows {
    if host == [] then rows
    else
      var last := host[|host| - 1];
      Upserted(UpsertAll(rows, host[..|host| - 1]), last.id, ListedSnapshot(last))
  }

  function Ids(host: seq<Listed>): seq<Id> {
    seq(|host|, i requires 0 <= i < |host| => host[i].id)
  }

  function Reconciled(rows: Rows, host: seq<Listed>): Rows {
    WithoutOrphans(UpsertAll(rows, host), Ids(host))
  }

  /** The row shows what the host listed: the name without its leading slash, and the other columns as they are. */
  ghost predicate Shows(r: Row, c: Listed) {
    && r.image == c.image && r.imageId == c.imageId && r.state == c.state
    && (c.names == [] ==> r.name == "")
    && (c.names != [] && "/" <= c.names[0] ==> c.names[0] == "/" + r.name)
    && (c.names != [] && !("/" <= c.names[0]) ==> c.names[0] == r.name)
  }

  /** The row shows the last thing the host listed under the id. */
  ghost predicate ShowsLast(r: Row, host: seq<Listed>, id: Id) {
    exists i :: 0 <= i < |host| && host[i].id == id && Shows(r, host[i]) && forall j :: i < j < |host| ==>
      host[j].id != id
  }

  lemma UpsertShows(rows: Rows, c: Listed)
    ensures Shows(Upserted(rows, c.id, ListedSnapshot(c))[c.id], c)
  {
    if c.names != [] && "/" <= c.names[0] {
      assert c.names[0] == "/" + c.names[0][1..];
    }
  }

  ghost predicate OnHost(host: seq<Listed>, id: Id) {
    exists i :: 0 <= i < |host| && host[i].id == id
  }

  lemma UpsertAllSnoc(rows: Rows, host: seq<Listed>, k: nat)
    requires k < |host|
    ensures UpsertAll(rows, host[..k + 1]) == Upserted(UpsertAll(rows, host[..k]), host[k].id, ListedSnapshot(host[k]))
    ensures Ids(host[..k + 1]) == Ids(host[..k]) + [host[k].id]
  {
    assert host[..k + 1][..k] == host[..k];
  }

  lemma OnHostSnoc(host: seq<Listed>, id: Id)
    requires host != []
    ensures OnHost(host, id) <==> OnHost(host[..|host| - 1], id) || host[|host| - 1].id == id
  {
    var n := |host| - 1;
    if i :| 0 <= i < n && host[..n][i].id == id {
      assert host[i].id == id;
    }
    if i :| 0 <= i < n && host[i].id == id {
      assert host[..n][i].id == id;
    }
  }

  lemma {:induction false} UpsertAllContents(rows: Rows, host: seq<Listed>, id: Id)
    ensures id in UpsertAll(rows, host) <==> id in rows || OnHost(host, id)
    ensures id in rows ==> SettingsOf(UpsertAll(rows, host)[id]) == SettingsOf(rows[id])
    ensures id in UpsertAll(rows, host) && id !in rows ==>
              SettingsOf(UpsertAll(rows, host)[id]) == Settings(0, 0, None, None, None)
    ensures OnHost(host, id) ==> ShowsLast(UpsertAll(rows, host)[id], host, id)
    ensures id in rows && !OnHost(host, id) ==> UpsertAll(rows, host)[id] == rows[id]
    decreases |host|
  {
    if host == [] {
    } else {
      var n := |host| - 1;
      UpsertAllContents(rows, host[..n], id);
      OnHostSnoc(host, id);
      if host[n].id == id {
        UpsertShows(UpsertAll(rows, host[..n]), host[n]);
      } else if OnHost(host, id) {
        ShowsLastSnoc(UpsertAll(rows, host)[id], host, id);
      }
    }
  }

  lemma ShowsLastSnoc(r: Row, host: seq<Listed>, id: Id)
    requires host != [] && host[|host| - 1].id != id && ShowsLast(r, host[..|host| - 1], id)
    ensures ShowsLast(r, host, id)
  {
    var before := host[..|host| - 1];
    var i :| 0 <= i < |before| && before[i].id == id && Shows(r, before[i]) && forall j :: i < j < |before| ==>
      before[j].id != id;
    assert host[i] == before[i];
    forall j | i < j < |host|
      ensures host[j].id != id
    {
      if j < |before| {
        assert host[j] == before[j];
      }
    }
  }

  lemma ReconciledWithHost(rows: Rows, host: seq<Listed>)
    requires host != []
    ensures forall id :: id in Reconciled(rows, host) <==> OnHost(host, id)
    ensures forall id :: id in Reconciled(rows, host) && id in rows ==>
              SettingsOf(Reconciled(rows, host)[id]) == SettingsOf(rows[id])
    ensures forall id :: id in Reconciled(rows, host) && id !in rows ==>
              SettingsOf(Reconciled(rows, host)[id]) == Settings(0, 0, None, None, None)
    ensures forall id :: id in Reconciled(rows, host) ==> ShowsLast(Reconciled(rows, host)[id], host, id)
  {
    var active := Ids(host);
    assert active[0] == host[0].id;
    forall id
      ensures id in active <==> OnHost(host, id)
    {
      if id in active {
        var i :| 0 <= i < |active| && active[i] == id;
        assert host[i].id == id;
      }
      if OnHost(host, id) {
        var i :| 0 <= i < |host| && host[i].id == id;
        assert active[i] == id;
      }
    }
    forall id
      ensures id in UpsertAll(rows, host) <==> id in rows || OnHost(host, id)
      ensures id in rows ==> SettingsOf(UpsertAll(rows, host)[id]) == SettingsOf(rows[id])
      ensures id in UpsertAll(rows, host) && id !in rows ==>
                SettingsOf(UpsertAll(rows, host)[id]) == Settings(0, 0, None, None, None)
      ensures OnHost(host, id) ==> ShowsLast(UpsertAll(rows, host)[id], host, id)
    {
      UpsertAllContents(rows, host, id);
    }
  }

  /**
   What startup reconciliation promises, and when it keeps it: the table's ids are exactly
   the host's if and only if the host list is nonempty or the table was empty, since
   `id NOT IN (NULL)` holds of no row. In any case survivors keep every setting, newcomers
   start with the defaults, and every row shows what the host last listed for it or, for
   an empty list, is as it was.
   */
  lemma ReconciledMatchesHost(rows: Rows, host: seq<Listed>)
    ensures (forall id :: id in Reconciled(rows, host) <==> OnHost(host, id)) <==> host != [] || rows == map[]
    ensures forall id :: id in Reconciled(rows, host) && id in rows ==>
              SettingsOf(Reconciled(rows, host)[id]) == SettingsOf(rows[id])
    ensures forall id :: id in Reconciled(rows, host) && id !in rows ==>
              SettingsOf(Reconciled(rows, host)[id]) == Settings(0, 0, None, None, None)
    ensures forall id :: id in Reconciled(rows, host) && host != [] ==> ShowsLast(Reconciled(rows, host)[id], host, id)
    ensures host == [] ==> Reconciled(rows, host) == rows
  {
    if host != [] {
      ReconciledWithHost(rows, host);
    } else if rows != map[] {
      var id :| id in rows;
      assert id in Reconciled(rows, host) && !OnHost(host, id);
    }
  }

  /**
   The swap, column by column: with the old id there and the new one not taken, the row moves
   to the new id with what the upgrade found out, the time and no update available, keeps
   the other settings, and no other row changes. With the old id gone nothing changes.
   */
  lemma SwapColumns(rows: Rows, oldId: Id, newId: Id, s: Snapshot, now: int)
    ensures var rows' := Swapped(rows, oldId, newId, s, now);
            && (oldId in rows && (newId == oldId || newId !in rows) ==>
                  && newId in rows' && (oldId in rows' <==> oldId == newId)
                  && rows'[newId] == Row(s.name, s.image, s.imageId, s.state, rows[oldId].autoUpdate, 0,
                                         rows[oldId].latestImageDigest, rows[oldId].lastCheckedAt, Some(now))
                  && (forall id :: id != oldId && id != newId ==>
                        (id in rows' <==> id in rows) && (id in rows ==> rows'[id] == rows[id])))
            && (oldId !in rows || (newId != oldId && newId in rows) ==> rows' == rows)
  {
  }

  /** The table in place. */
  class Containers {
    var rows: Rows

    constructor ()
      ensures rows == map[]
    {
      rows := map[];
    }

    method DeleteContainer(id: Id)
      modifies this
      ensures rows == old(rows) - {id}
    {
      rows := rows - {id};
    }

    method SaveContainer(id: Id, row: Row)
      modifies this
      ensures rows == old(rows)[id := row]
    {
      rows := rows[id := row];
    }

    method UpsertContainerFromEvent(id: Id, s: Snapshot)
      modifies this
      ensures rows == Upserted(old(rows), id, s)
      ensures rows.Keys == old(rows).Keys + {id}
      ensures rows[id].name == s.name && rows[id].image == s.image
      ensures rows[id].imageId == s.imageId && rows[id].state == s.state
      ensures id in old(rows) ==>
        && rows[id].autoUpdate == old(rows)[id].autoUpdate && rows[id].updateAvailable == old(rows)[id].updateAvailable
        && rows[id].latestImageDigest == old(rows)[id].latestImageDigest
        && rows[id].lastCheckedAt == old(rows)[id].lastCheckedAt
        && rows[id].lastUpdatedAt == old(rows)[id].lastUpdatedAt
      ensures id !in old(rows) ==>
        && rows[id].autoUpdate == 0 && rows[id].updateAvailable == 0 && rows[id].latestImageDigest == None
        && rows[id].lastCheckedAt == None && rows[id].lastUpdatedAt == None
      ensures forall k :: k in old(rows) && k != id ==> rows[k] == old(rows)[k]
    {
      if id in rows {
        rows := rows[id := Rewritten(rows[id], s)];
      } else {
        rows := rows[id := FreshRow(s)];
      }
    }

    method UpdateContainerForUpgrade(newId: Id, s: Snapshot, now: int, oldId: Id) returns (r: SwapResult)
      modifies this
      ensures r == SwapOutcome(old(rows), oldId, newId)
      ensures rows == Swapped(old(rows), oldId, newId, s, now)
      ensures r == Affected(0) <==> oldId !in old(rows)
      ensures r == PrimaryKeyConflict <==> oldId in old(rows) && newId != oldId && newId in old(rows)
      ensures r != Affected(0) && r != PrimaryKeyConflict ==>
        && r == Affected(1) && rows.Keys == old(rows).Keys - {oldId} + {newId}
        && rows[newId] == Row(s.name, s.image, s.imageId, s.state, old(rows)[oldId].autoUpdate, 0,
                              old(rows)[oldId].latestImageDigest, old(rows)[oldId].lastCheckedAt, Some(now))
      ensures r == Affected(0) || r == PrimaryKeyConflict ==> rows == old(rows)
      ensures forall k :: k in old(rows) && k != oldId && k != newId ==> k in rows && rows[k] == old(rows)[k]
    {
      if oldId !in rows {
        return Affected(0);
      }
      if newId != oldId && newId in rows {
        return PrimaryKeyConflict;
      }
      var moved := SwappedRow(rows[oldId], s, now);
      rows := (rows - {oldId})[newId := moved];
      r := Affected(1);
    }

    method DeleteOrphanContainers(active: seq<Id>)
      modifies this
      ensures rows == WithoutOrphans(old(rows), active)
      ensures forall id :: id in rows <==> id in old(rows) && (active == [] || id in active)
      ensures forall id :: id in rows ==> rows[id] == old(rows)[id]
    {
      if |active| > 0 {
        rows := map id | id in rows && id in active :: rows[id];
      }
    }

    /** The reconciliation loop run at startup, given the host's container list. */
    method SyncContainers(host: seq<Listed>)
      modifies this
      ensures rows == Reconciled(old(rows), host)
      ensures host != [] ==> forall id :: id in rows ==> ShowsLast(rows[id], host, id)
    {
      var activeIds: seq<Id> := [];
      for k := 0 to |host|
        invariant activeIds == Ids(host[..k])
        invariant rows == UpsertAll(old(rows), host[..k])
      {
        var c := host[k];
        activeIds := activeIds + [c.id];
        var name := if |c.names| > 0 then TrimSlash(c.names[0]) else "";
        UpsertContainerFromEvent(c.id, Snapshot(name, c.image, c.imageId, c.state));
        UpsertAllSnoc(old(rows), host, k);
      }
      assert host[..|host|] == host;
      DeleteOrphanContainers(activeIds);
      ReconciledMatchesHost(old(rows), host);
    }
  }
}
