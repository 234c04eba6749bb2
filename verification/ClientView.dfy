/**
 The browser's container list: a reducer over the stream of save and delete
 messages in which a delete only arms a timer, so that a container recreated under
 the same name replaces its old entry in place.
 */
module ClientView {
  import opened ContainerTable
  import opened UpgradeProtocol

  datatype Entry = Entry(id: Id, row: Row)

  /** The list shown and the armed delete timers, keyed by container name. */
  datatype Client = Client(list: seq<Entry>, timers: map<string, Id>)

  datatype Input = Arrives(message: Message) | Fires(name: string)

  function IndexOfId(list: seq<Entry>, id: Id): (r: int)
    ensures -1 <= r < |list|
    ensures r >= 0 ==> list[r].id == id && forall j :: 0 <= j < r ==> list[j].id != id
    ensures r < 0 ==> forall j :: 0 <= j < |list| ==> list[j].id != id
  {
    if list == [] then -1
    else if list[0].id == id then 0
    else
      var k := IndexOfId(list[1..], id);
      assert forall j :: 1 <= j < |list| ==> list[j] == list[1..][j - 1];
      if k < 0 then -1 else k + 1
  }

  function IndexOfName(list: seq<Entry>, name: string): (r: int)
    ensures -1 <= r < |list|
    ensures r >= 0 ==> list[r].row.name == name && forall j :: 0 <= j < r ==> list[j].row.name != name
    ensures r < 0 ==> forall j :: 0 <= j < |list| ==> list[j].row.name != name
  {
    if list == [] then -1
    else if list[0].row.name == name then 0
    else
      var k := IndexOfName(list[1..], name);
      assert forall j :: 1 <= j < |list| ==> list[j] == list[1..][j - 1];
      if k < 0 then -1 else k + 1
  }

  /** `filter((c) => c.id !== id)`. */
  function Without(list: seq<Entry>, id: Id): (r: seq<Entry>)
    ensures |r| <= |list|
    ensures forall e :: e in r <==> e in list && e.id != id
  {
    if list == [] then []
    else
      var rest := Without(list[1..], id);
      assert list == [list[0]] + list[1..];
      if list[0].id == id then rest else [list[0]] + rest
  }

  function OnDelete(c: Client, id: Id): Client {
    var k := IndexOfId(c.list, id);
    if k >= 0 then c.(timers := c.timers[c.list[k].row.name := id])
    else c.(list := Without(c.list, id))
  }

  /** Where a saved container goes: its own entry, else the entry with its name. */
  function SlotFor(list: seq<Entry>, id: Id, name: string): (r: int)
    ensures -1 <= r < |list|
  {
    var k := IndexOfId(list, id);
    if k >= 0 then k else IndexOfName(list, name)
  }

  function OnSave(c: Client, id: Id, row: Row): Client {
    var k := SlotFor(c.list, id, row.name);
    Client(if k >= 0 then c.list[k := Entry(id, row)] else c.list + [Entry(id, row)], c.timers - {row.name})
  }

  function OnFire(c: Client, name: string): Client {
    if name in c.timers then Client(Without(c.list, c.timers[name]), c.timers - {name}) else c
  }

  function React(c: Client, i: Input): Client {
    match i
    case Arrives(m) => (match m
                        case Delete(id) => OnDelete(c, id)
                        case Save(id, row) => OnSave(c, id, row))
    case Fires(name) => OnFire(c, name)
  }

  function ReactAll(c: Client, inputs: seq<Input>): Client
    decreases |inputs|
  {
    if inputs == [] then c
    else React(ReactAll(c, inputs[..|inputs| - 1]), inputs[|inputs| - 1])
  }

  // ----- ids stay distinct, whatever arrives -----

  ghost predicate IdsDistinct(list: seq<Entry>) {
    forall i, j :: 0 <= i < j < |list| ==> list[i].id != list[j].id
  }

  lemma {:induction false} WithoutKeepsDistinct(list: seq<Entry>, id: Id)
    requires IdsDistinct(list)
    ensures IdsDistinct(Without(list, id))
  {
    if list != [] {
      WithoutKeepsDistinct(list[1..], id);
      var rest := Without(list[1..], id);
      forall k | 0 <= k < |rest|
        ensures rest[k].id != list[0].id
      {
        assert rest[k] in list[1..];
      }
    }
  }

  lemma ReactKeepsIdsDistinct(c: Client, i: Input)
    requires IdsDistinct(c.list)
    ensures IdsDistinct(React(c, i).list)
  {
    match i
    case Arrives(Delete(id)) => WithoutKeepsDistinct(c.list, id);
    case Arrives(Save(id, row)) =>
    case Fires(name) =>
      if name in c.timers {
        WithoutKeepsDistinct(c.list, c.timers[name]);
      }
  }

  /** For any inputs at all, no id is ever listed twice. */
  lemma {:induction false} IdsAlwaysDistinct(c: Client, inputs: seq<Input>)
    requires IdsDistinct(c.list)
    ensures IdsDistinct(ReactAll(c, inputs).list)
    decreases |inputs|
  {
    if inputs != [] {
      IdsAlwaysDistinct(c, inputs[..|inputs| - 1]);
      ReactKeepsIdsDistinct(ReactAll(c, inputs[..|inputs| - 1]), inputs[|inputs| - 1]);
    }
  }

  // ----- the list is the server's table -----

  /** The table a client is entitled to believe in: the messages folded as they were meant. */
  function Serve(rows: Rows, i: Input): Rows {
    match i
    case Arrives(Delete(id)) => rows - {id}
    case Arrives(Save(id, row)) => rows[id := row]
    case Fires(_) => rows
  }

  function ServeAll(rows: Rows, inputs: seq<Input>): Rows
    decreases |inputs|
  {
    if inputs == [] then rows
    else Serve(ServeAll(rows, inputs[..|inputs| - 1]), inputs[|inputs| - 1])
  }

  /** No other container in the table has the name. */
  ghost predicate NameFree(nameOf: Id -> string, rows: Rows, id: Id) {
    forall other :: other in rows && other != id ==> nameOf(other) != nameOf(id)
  }

  /** Every saved container has the name of its id, and takes a name nobody else in the table has. */
  ghost predicate Fair(nameOf: Id -> string, rows: Rows, i: Input) {
    i.Arrives? && i.message.Save? ==>
      i.message.row.name == nameOf(i.message.id) && NameFree(nameOf, rows, i.message.id)
  }

  ghost predicate AllFair(nameOf: Id -> string, rows: Rows, inputs: seq<Input>)
    decreases |inputs|
  {
    inputs != [] ==>
      && AllFair(nameOf, rows, inputs[..|inputs| - 1])
      && Fair(nameOf, ServeAll(rows, inputs[..|inputs| - 1]), inputs[|inputs| - 1])
  }

  /** The entry is waiting for its timer. */
  predicate Armed(c: Client, e: Entry) {
    e.row.name in c.timers && c.timers[e.row.name] == e.id
  }

  /** The list minus the armed entries is the table. */
  ghost predicate Agrees(c: Client, rows: Rows) {
    forall e: Entry :: (e in c.list && !Armed(c, e)) <==> (e.id in rows && rows[e.id] == e.row)
  }

  ghost predicate NamesDistinct(list: seq<Entry>) {
    forall i, j :: 0 <= i < j < |list| ==> list[i].row.name != list[j].row.name
  }

  /** Names follow ids, and every timer waits for an entry that is listed. */
  ghost predicate Tidy(nameOf: Id -> string, c: Client) {
    && NamesDistinct(c.list)
    && (forall e :: e in c.list ==> e.row.name == nameOf(e.id))
    && (forall n :: n in c.timers ==> nameOf(c.timers[n]) == n && exists e :: e in c.list && e.id == c.timers[n])
  }

  lemma {:induction false} WithoutKeepsNames(list: seq<Entry>, id: Id)
    requires NamesDistinct(list)
    ensures NamesDistinct(Without(list, id))
  {
    if list != [] {
      WithoutKeepsNames(list[1..], id);
      var rest := Without(list[1..], id);
      forall k | 0 <= k < |rest|
        ensures rest[k].row.name != list[0].row.name
      {
        assert rest[k] in list[1..];
      }
    }
  }

  lemma FireKeepsTidy(nameOf: Id -> string, c: Client, name: string)
    requires Tidy(nameOf, c)
    ensures Tidy(nameOf, OnFire(c, name))
  {
    if name in c.timers {
      WithoutKeepsNames(c.list, c.timers[name]);
      var c' := OnFire(c, name);
      forall n | n in c'.timers
        ensures exists e :: e in c'.list && e.id == c'.timers[n]
      {
        var e :| e in c.list && e.id == c.timers[n];
        assert e in c'.list;
      }
    }
  }

  /** A save leaves exactly the saved entry under its name. */
  lemma SaveMembers(nameOf: Id -> string, c: Client, id: Id, row: Row)
    requires Tidy(nameOf, c) && row.name == nameOf(id)
    ensures forall e :: e in OnSave(c, id, row).list <==> e == Entry(id, row) || (e in c.list && e.row.name != row.name)
    ensures NamesDistinct(OnSave(c, id, row).list)
  {
    var c' := OnSave(c, id, row);
    var k := SlotFor(c.list, id, row.name);
    assert k >= 0 ==> c.list[k] in c.list && c.list[k].row.name == row.name;
    forall e
      ensures e in c'.list <==> e == Entry(id, row) || (e in c.list && e.row.name != row.name)
    {
      if k >= 0 {
        assert c'.list[k] == Entry(id, row);
        if e in c.list && e.row.name != row.name {
          var j :| 0 <= j < |c.list| && c.list[j] == e;
          assert c'.list[j] == e;
        }
      }
    }
  }

  lemma SaveKeepsTidy(nameOf: Id -> string, c: Client, id: Id, row: Row)
    requires Tidy(nameOf, c) && row.name == nameOf(id)
    ensures Tidy(nameOf, OnSave(c, id, row))
    ensures forall e :: e in OnSave(c, id, row).list <==> e == Entry(id, row) || (e in c.list && e.row.name != row.name)
  {
    SaveMembers(nameOf, c, id, row);
    var c' := OnSave(c, id, row);
    forall n | n in c'.timers
      ensures exists e :: e in c'.list && e.id == c'.timers[n]
    {
      var e :| e in c.list && e.id == c.timers[n];
      assert e in c'.list;
    }
  }

  lemma DeleteKeepsTidy(nameOf: Id -> string, c: Client, id: Id)
    requires Tidy(nameOf, c)
    ensures Tidy(nameOf, OnDelete(c, id))
    ensures forall e :: e in OnDelete(c, id).list <==> e in c.list
  {
    var k := IndexOfId(c.list, id);
    if k >= 0 {
      assert c.list[k] in c.list;
    } else {
      WithoutKeepsNames(c.list, id);
      var c' := OnDelete(c, id);
      forall n | n in c'.timers
        ensures exists e :: e in c'.list && e.id == c'.timers[n]
      {
        var e :| e in c.list && e.id == c.timers[n];
        assert e in c'.list;
      }
    }
  }

  lemma ReactKeepsTidy(nameOf: Id -> string, c: Client, i: Input)
    requires Tidy(nameOf, c)
    requires i.Arrives? && i.message.Save? ==> i.message.row.name == nameOf(i.message.id)
    ensures Tidy(nameOf, React(c, i))
  {
    match i
    case Arrives(Delete(id)) => DeleteKeepsTidy(nameOf, c, id);
    case Arrives(Save(id, row)) => SaveKeepsTidy(nameOf, c, id, row);
    case Fires(name) => FireKeepsTidy(nameOf, c, name);
  }

  /** In a tidy list an id occurs once, and so does a name. */
  lemma TidyUnique(nameOf: Id -> string, c: Client, e: Entry, e': Entry)
    requires Tidy(nameOf, c) && e in c.list && e' in c.list && e.row.name == e'.row.name
    ensures e == e'
  {
    var i :| 0 <= i < |c.list| && c.list[i] == e;
    var j :| 0 <= j < |c.list| && c.list[j] == e';
  }

  /** Deleting a listed container arms its entry and changes nothing else. */
  lemma DeleteArms(nameOf: Id -> string, c: Client, id: Id, k: nat, e: Entry)
    requires Tidy(nameOf, c) && k < |c.list| && k == IndexOfId(c.list, id) && e in c.list
    ensures Armed(OnDelete(c, id), e) <==> Armed(c, e) || e.id == id
  {
    assert c.list[k] in c.list;
    if e.row.name == c.list[k].row.name {
      TidyUnique(nameOf, c, e, c.list[k]);
    }
  }

  lemma DeleteAgrees(nameOf: Id -> string, c: Client, rows: Rows, id: Id)
    requires Tidy(nameOf, c) && Agrees(c, rows)
    ensures Agrees(OnDelete(c, id), rows - {id})
  {
    var c', rows' := OnDelete(c, id), rows - {id};
    var k := IndexOfId(c.list, id);
    forall e: Entry
      ensures (e in c'.list && !Armed(c', e)) <==> (e.id in rows' && rows'[e.id] == e.row)
    {
      assert (e in c.list && !Armed(c, e)) <==> (e.id in rows && rows[e.id] == e.row);
      if k >= 0 {
        if e in c.list {
          DeleteArms(nameOf, c, id, k, e);
        }
      } else {
        assert e in c'.list <==> e in c.list && e.id != id;
      }
    }
  }

  lemma FireAgrees(nameOf: Id -> string, c: Client, rows: Rows, name: string)
    requires Tidy(nameOf, c) && Agrees(c, rows)
    ensures Agrees(OnFire(c, name), rows)
  {
    var c' := OnFire(c, name);
    if name in c.timers {
      forall e: Entry
        ensures (e in c'.list && !Armed(c', e)) <==> (e.id in rows && rows[e.id] == e.row)
      {
        if e in c.list && e.row.name == name {
          var e' :| e' in c.list && e'.id == c.timers[name];
          TidyUnique(nameOf, c, e, e');
        }
      }
    }
  }

  /**
   A save keeps list and table in agreement exactly when the name is not already taken
   by another container in the table.
   */
  lemma SaveAgreesIff(nameOf: Id -> string, c: Client, rows: Rows, id: Id, row: Row)
    requires Tidy(nameOf, c) && Agrees(c, rows) && row.name == nameOf(id)
    ensures Agrees(OnSave(c, id, row), rows[id := row]) <==> NameFree(nameOf, rows, id)
  {
    SaveKeepsTidy(nameOf, c, id, row);
    var c' := OnSave(c, id, row);
    var rows' := rows[id := row];
    if NameFree(nameOf, rows, id) {
      forall e: Entry
        ensures (e in c'.list && !Armed(c', e)) <==> (e.id in rows' && rows'[e.id] == e.row)
      {
        if e.id in rows && e.id != id && rows[e.id] == e.row {
          assert e in c.list && !Armed(c, e);
        }
      }
    } else {
      var other :| other in rows && other != id && nameOf(other) == nameOf(id);
      var e := Entry(other, rows[other]);
      assert e in c.list;
      assert e !in c'.list;
      assert !Agrees(c', rows');
    }
  }

  /**
   For every sequence of saves, deletes and timer firings in which names follow ids and
   are distinct in the table, the list minus the armed entries is the table after every
   input, and the list is the table once no timer is armed.
   */
  lemma {:induction false} ListIsTable(nameOf: Id -> string, c: Client, rows: Rows, inputs: seq<Input>)
    requires Tidy(nameOf, c) && Agrees(c, rows) && AllFair(nameOf, rows, inputs)
    ensures Tidy(nameOf, ReactAll(c, inputs))
    ensures Agrees(ReactAll(c, inputs), ServeAll(rows, inputs))
    ensures ReactAll(c, inputs).timers == map[] ==>
      forall e: Entry :: e in ReactAll(c, inputs).list <==>
        e.id in ServeAll(rows, inputs) && ServeAll(rows, inputs)[e.id] == e.row
    decreases |inputs|
  {
    if inputs != [] {
      var n := |inputs| - 1;
      ListIsTable(nameOf, c, rows, inputs[..n]);
      var b, t := ReactAll(c, inputs[..n]), ServeAll(rows, inputs[..n]);
      ReactKeepsTidy(nameOf, b, inputs[n]);
      match inputs[n]
      case Arrives(Delete(id)) => DeleteAgrees(nameOf, b, t, id);
      case Arrives(Save(id, row)) => SaveAgreesIff(nameOf, b, t, id, row);
      case Fires(name) => FireAgrees(nameOf, b, t, name);
    }
  }

  lemma {:induction false} WithoutNone(list: seq<Entry>, id: Id)
    requires forall j :: 0 <= j < |list| ==> list[j].id != id
    ensures Without(list, id) == list
  {
    if list != [] {
      WithoutNone(list[1..], id);
      assert list == [list[0]] + list[1..];
    }
  }

  /** The first entry with the id. */
  ghost predicate FirstWithId(list: seq<Entry>, k: int, id: Id) {
    0 <= k < |list| && list[k].id == id && forall j :: 0 <= j < k ==> list[j].id != id
  }

  /** The first entry with the name, where none has the id. */
  ghost predicate FirstWithName(list: seq<Entry>, k: int, id: Id, name: string) {
    && (forall j :: 0 <= j < |list| ==> list[j].id != id)
    && 0 <= k < |list| && list[k].row.name == name && forall j :: 0 <= j < k ==> list[j].row.name != name
  }

  /**
   What the debounce is for: a container that is deleted and comes back under its name before the
   timer goes off keeps its place in the list; nothing else moves, and the timer is off.
   */
  lemma RecreatedInPlace(c: Client, k: nat, newId: Id, row: Row)
    requires k < |c.list| && FirstWithId(c.list, k, c.list[k].id) && FirstWithName(c.list, k, newId, row.name)
    ensures var deleted := React(c, Arrives(Delete(c.list[k].id)));
            && deleted == Client(c.list, c.timers[row.name := c.list[k].id])
            && React(deleted, Arrives(Save(newId, row))) ==
               Client(c.list[k := Entry(newId, row)], c.timers - {row.name})
            && React(deleted, Fires(row.name)).timers == c.timers - {row.name}
            && (forall e :: e in React(deleted, Fires(row.name)).list <==> e in c.list && e.id != c.list[k].id)
  {
    assert IndexOfId(c.list, c.list[k].id) == k && IndexOfId(c.list, newId) < 0 && IndexOfName(c.list, row.name) == k;
    assert c.timers[row.name := c.list[k].id] - {row.name} == c.timers - {row.name};
  }

  /** The hook's mutable state, driven by the stream and by the browser's timers. */
  class ContainersHook {
    var list: seq<Entry>
    var pendingDeletes: map<string, Id>

    ghost function View(): Client
      reads this
    {
      Client(list, pendingDeletes)
    }

    /** Starts from the list fetched on mount. */
    constructor (fetched: seq<Entry>)
      ensures View() == Client(fetched, map[])
    {
      list, pendingDeletes := fetched, map[];
    }

    method OnMessage(m: Message)
      modifies this
      ensures View() == React(old(View()), Arrives(m))
      ensures m.Delete? ==> list == old(list)
      ensures m.Delete? ==>
        forall k :: FirstWithId(old(list), k, m.id) ==>
          pendingDeletes == old(pendingDeletes)[old(list)[k].row.name := m.id]
      ensures m.Delete? && (forall j :: 0 <= j < |old(list)| ==> old(list)[j].id != m.id) ==>
        pendingDeletes == old(pendingDeletes)
      ensures m.Save? ==> pendingDeletes == old(pendingDeletes) - {m.row.name}
      ensures m.Save? ==>
        forall k :: FirstWithId(old(list), k, m.id) || FirstWithName(old(list), k, m.id, m.row.name) ==>
          list == old(list)[k := Entry(m.id, m.row)]
      ensures m.Save?
              && (forall j :: 0 <= j < |old(list)| ==>
                  old(list)[j].id != m.id && old(list)[j].row.name != m.row.name) ==>
        list == old(list) + [Entry(m.id, m.row)]
    {
      match m
      case Delete(id) =>
        var k := IndexOfId(list, id);
        if k < 0 {
          WithoutNone(list, id);
        }
        if k >= 0 {
          pendingDeletes := pendingDeletes[list[k].row.name := id];
        } else {
          list := Without(list, id);
        }
      case Save(id, row) =>
        if row.name in pendingDeletes {
          pendingDeletes := pendingDeletes - {row.name};
        }
        assert pendingDeletes == old(pendingDeletes) - {row.name};
        var k := IndexOfId(list, id);
        if k < 0 {
          k := IndexOfName(list, row.name);
        }
        if k >= 0 {
          list := list[k := Entry(id, row)];
        } else {
          list := list + [Entry(id, row)];
        }
    }

    /** The timer armed for `name` goes off; a cleared timer never does. */
    method OnTimer(name: string)
      requires name in pendingDeletes
      modifies this
      ensures View() == React(old(View()), Fires(name))
      ensures pendingDeletes == old(pendingDeletes) - {name}
      ensures forall e :: e in list <==> e in old(list) && e.id != old(pendingDeletes)[name]
    {
      list := Without(list, pendingDeletes[name]);
      pendingDeletes := pendingDeletes - {name};
    }
  }
}
