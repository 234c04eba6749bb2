/**
 WebAuthn challenges: created by the Begin handlers, looked up and consumed by the
 Finish handlers, deleted by the background purge. Lookup and consumption are two
 queries; runs here are serialized, one operation at a time, and ChallengeRaces has
 the others.
 */
module Challenges {
  import opened Wrappers

  const LIFETIME := 120_000_000_000

  datatype Kind = Registration | Login

  datatype Challenge = Challenge(bytes: string, kind: Kind, owner: Option<int>, expiresAt: int, consumed: bool)

  /** `nextId` is the AUTOINCREMENT counter: ids are never reused. */
  datatype Table = Table(rows: map<nat, Challenge>, nextId: nat)

  /** `verified` stands for everything the Finish handlers check beyond the challenge. */
  datatype Op =
    | BeginRegistration(bytes: string, user: int, now: int)
    | BeginLogin(bytes: string, now: int)
    | FinishRegistration(bytes: string, user: int, verified: bool, now: int)
    | FinishLogin(bytes: string, verified: bool, now: int)
    | Purge(now: int)

  predicate Usable(t: Table, id: nat, now: int) {
    id in t.rows && !t.rows[id].consumed && t.rows[id].expiresAt > now
  }

  predicate Matches(t: Table, id: nat, bytes: string, kind: Kind, now: int) {
    Usable(t, id, now) && t.rows[id].bytes == bytes && t.rows[id].kind == kind
  }

  /** The unconsumed, unexpired row with the challenge, the oldest should there be several. */
  function FirstMatch(t: Table, lo: nat, bytes: string, kind: Kind, now: int): (r: Option<nat>)
    requires lo <= t.nextId
    ensures r.Some? ==> lo <= r.value < t.nextId && Matches(t, r.value, bytes, kind, now)
    ensures r.Some? ==> forall id :: lo <= id < r.value ==> !Matches(t, id, bytes, kind, now)
    ensures r.None? ==> forall id :: lo <= id < t.nextId ==> !Matches(t, id, bytes, kind, now)
    decreases t.nextId - lo
  {
    if lo == t.nextId then None
    else if Matches(t, lo, bytes, kind, now) then Some(lo)
    else FirstMatch(t, lo + 1, bytes, kind, now)
  }

  function Insert(t: Table, c: Challenge): Table {
    Table(t.rows[t.nextId := c], t.nextId + 1)
  }

  function Consume(t: Table, id: nat): Table {
    if id in t.rows then t.(rows := t.rows[id := t.rows[id].(consumed := true)]) else t
  }

  function Purged(t: Table, now: int): Table {
    t.(rows := map id | id in t.rows && !(t.rows[id].expiresAt < now || t.rows[id].consumed) :: t.rows[id])
  }

  /** The row a Finish operation finds and, for a registration, is entitled to. */
  function Claimed(t: Table, op: Op): Option<nat> {
    match op
    case FinishLogin(bytes, _, now) => FirstMatch(t, 0, bytes, Login, now)
    case FinishRegistration(bytes, user, _, now) =>
      var m := FirstMatch(t, 0, bytes, Registration, now);
      if m.Some? && t.rows[m.value].owner == Some(user) then m else None
    case _ => None
  }

  function Do(t: Table, op: Op): Table {
    match op
    case BeginRegistration(bytes, user, now) =>
      Insert(t, Challenge(bytes, Registration, Some(user), now + LIFETIME, false))
    case BeginLogin(bytes, now) => Insert(t, Challenge(bytes, Login, None, now + LIFETIME, false))
    case Purge(now) => Purged(t, now)
    case _ => if Claimed(t, op).Some? then Consume(t, Claimed(t, op).value) else t
  }

  /** The row a successful ceremony completed with. */
  function Completed(t: Table, op: Op): Option<nat> {
    if (op.FinishLogin? || op.FinishRegistration?) && op.verified then Claimed(t, op) else None
  }

  /** The table after the first `n` operations on an empty one. */
  function After(ops: seq<Op>, n: nat): Table
    requires n <= |ops|
  {
    if n == 0 then Table(map[], 0) else Do(After(ops, n - 1), ops[n - 1])
  }

  ghost predicate Clocked(ops: seq<Op>) {
    forall i, j :: 0 <= i < j < |ops| ==> ops[i].now <= ops[j].now
  }

  // ----- every row stems from one Begin -----

  function Born(op: Op): Challenge
    requires op.BeginLogin? || op.BeginRegistration?
  {
    if op.BeginLogin? then Challenge(op.bytes, Login, None, op.now + LIFETIME, false)
    else Challenge(op.bytes, Registration, Some(op.user), op.now + LIFETIME, false)
  }

  /** Operation `i` created row `id`. */
  ghost predicate Creates(ops: seq<Op>, i: nat, id: nat)
    requires i < |ops|
  {
    (ops[i].BeginLogin? || ops[i].BeginRegistration?) && After(ops, i).nextId == id
  }

  ghost predicate Stems(ops: seq<Op>, n: nat, id: nat, c: Challenge)
    requires n <= |ops|
  {
    exists i: nat :: i < n && Creates(ops, i, id) && c.(consumed := false) == Born(ops[i])
  }

  /** A step keeps every old row up to its consumed flag, and adds at most the next id. */
  lemma StepRows(t: Table, op: Op, id: nat)
    requires forall k :: k in t.rows ==> k < t.nextId
    requires id in Do(t, op).rows
    ensures id < Do(t, op).nextId
    ensures id in t.rows ==> Do(t, op).rows[id].(consumed := false) == t.rows[id].(consumed := false)
    ensures id !in t.rows ==>
            (op.BeginLogin? || op.BeginRegistration?) && id == t.nextId && Do(t, op).rows[id] == Born(op)
  {
  }

  lemma StemsLater(ops: seq<Op>, m: nat, n: nat, id: nat, c: Challenge, c': Challenge)
    requires m <= n <= |ops| && Stems(ops, m, id, c) && c.(consumed := false) == c'.(consumed := false)
    ensures Stems(ops, n, id, c')
  {
    var i: nat :| i < m && Creates(ops, i, id) && c.(consumed := false) == Born(ops[i]);
    assert i < n && Creates(ops, i, id) && c'.(consumed := false) == Born(ops[i]);
  }

  lemma {:induction false} RowsStem(ops: seq<Op>, n: nat)
    requires n <= |ops|
    ensures forall id :: id in After(ops, n).rows ==>
            id < After(ops, n).nextId && Stems(ops, n, id, After(ops, n).rows[id])
  {
    if n > 0 {
      RowsStem(ops, n - 1);
      var before, t := After(ops, n - 1), After(ops, n);
      forall id | id in t.rows
        ensures id < t.nextId && Stems(ops, n, id, t.rows[id])
      {
        StepRows(before, ops[n - 1], id);
        if id in before.rows {
          StemsLater(ops, n - 1, n, id, before.rows[id], t.rows[id]);
        } else {
          assert Creates(ops, n - 1, id) && t.rows[id] == Born(ops[n - 1]);
        }
      }
    }
  }

  /**
   Each completed ceremony goes back to a Begin of its own kind with the same bytes, less
   than 120 seconds earlier; a registration's was made for the same user.
   */
  lemma {:induction false} CompletionHasOrigin(ops: seq<Op>, j: nat) returns (i: nat)
    requires Clocked(ops) && j < |ops| && Completed(After(ops, j), ops[j]).Some?
    ensures i < j && Creates(ops, i, Completed(After(ops, j), ops[j]).value)
    ensures ops[j].FinishLogin? ==> ops[i].BeginLogin?
    ensures ops[j].FinishRegistration? ==> ops[i].BeginRegistration? && ops[i].user == ops[j].user
    ensures ops[i].bytes == ops[j].bytes
    ensures 0 <= ops[j].now - ops[i].now < 120_000_000_000
  {
    var t := After(ops, j);
    var id := Completed(t, ops[j]).value;
    RowsStem(ops, j);
    assert Stems(ops, j, id, t.rows[id]);
    i :| i < j && Creates(ops, i, id) && t.rows[id].(consumed := false) == Born(ops[i]);
  }

  // ----- a challenge completes at most one ceremony -----

  /** The id has been handed out and its row, if still there, is consumed. */
  ghost predicate Spent(t: Table, id: nat) {
    id < t.nextId && (id in t.rows ==> t.rows[id].consumed)
  }

  lemma SpentStays(t: Table, op: Op, id: nat)
    requires Spent(t, id)
    ensures Spent(Do(t, op), id) && Claimed(t, op) != Some(id)
  {
  }

  lemma {:induction false} SpentForever(ops: seq<Op>, m: nat, n: nat, id: nat)
    requires m <= n <= |ops| && Spent(After(ops, m), id)
    ensures Spent(After(ops, n), id)
    decreases n
  {
    if m < n {
      SpentForever(ops, m, n - 1, id);
      SpentStays(After(ops, n - 1), ops[n - 1], id);
    }
  }

  /** Claiming consumes, whether or not the rest of the ceremony verifies. */
  lemma ClaimSpends(t: Table, op: Op)
    requires Claimed(t, op).Some?
    ensures Spent(Do(t, op), Claimed(t, op).value)
  {
  }

  /** Two claims never share a row, so completed ceremonies map injectively to challenges. */
  lemma {:induction false} ClaimsAreDistinct(ops: seq<Op>, j: nat, k: nat)
    requires j < k < |ops|
    requires Claimed(After(ops, j), ops[j]).Some? && Claimed(After(ops, k), ops[k]).Some?
    ensures Claimed(After(ops, j), ops[j]) != Claimed(After(ops, k), ops[k])
  {
    var id := Claimed(After(ops, j), ops[j]).value;
    ClaimSpends(After(ops, j), ops[j]);
    SpentForever(ops, j + 1, k, id);
    SpentStays(After(ops, k), ops[k], id);
  }

  /** Two completed ceremonies have two different origins. */
  lemma {:induction false} CompletionsMapInjectively(ops: seq<Op>, j: nat, k: nat) returns (i: nat, i': nat)
    requires Clocked(ops) && j < k < |ops|
    requires Completed(After(ops, j), ops[j]).Some? && Completed(After(ops, k), ops[k]).Some?
    ensures i < j && i' < k && i != i'
    ensures Creates(ops, i, Completed(After(ops, j), ops[j]).value)
    ensures Creates(ops, i', Completed(After(ops, k), ops[k]).value)
  {
    i := CompletionHasOrigin(ops, j);
    i' := CompletionHasOrigin(ops, k);
    ClaimsAreDistinct(ops, j, k);
  }

  // ----- a challenge can be used for two minutes -----

  /** No operation since has looked for the bytes, and no other Begin has used them. */
  ghost predicate Untouched(ops: seq<Op>, i: nat, k: nat, bytes: string) {
    forall m :: 0 <= m < k && m < |ops| && m != i && !ops[m].Purge? ==> ops[m].bytes != bytes
  }

  /** While nobody uses its bytes, a row stays as it was made until it expires. */
  lemma StepUntouched(t: Table, op: Op, id: nat)
    requires (forall k :: k in t.rows ==> k < t.nextId) && id in t.rows && !t.rows[id].consumed
    requires op.now < t.rows[id].expiresAt && (op.Purge? || op.bytes != t.rows[id].bytes)
    ensures id in Do(t, op).rows && Do(t, op).rows[id] == t.rows[id]
  {
  }

  lemma {:induction false} RunUntouched(ops: seq<Op>, i: nat, k: nat)
    requires Clocked(ops) && i < k < |ops| && (ops[i].BeginLogin? || ops[i].BeginRegistration?)
    requires Untouched(ops, i, k, ops[i].bytes) && ops[k].now < ops[i].now + LIFETIME
    ensures var id := After(ops, i).nextId;
            id in After(ops, k).rows && After(ops, k).rows[id] == Born(ops[i])
    decreases k
  {
    if k > i + 1 {
      RunUntouched(ops, i, k - 1);
      RowsStem(ops, k - 1);
      StepUntouched(After(ops, k - 1), ops[k - 1], After(ops, i).nextId);
    }
  }

  /** Nothing else in the table has the bytes. */
  lemma OnlyRow(ops: seq<Op>, i: nat, k: nat, id: nat)
    requires i < k < |ops| && (ops[i].BeginLogin? || ops[i].BeginRegistration?)
    requires Untouched(ops, i, k, ops[i].bytes) && id in After(ops, k).rows
             && After(ops, k).rows[id].bytes == ops[i].bytes
    ensures id == After(ops, i).nextId
  {
    RowsStem(ops, k);
    var c := After(ops, k).rows[id];
    assert Stems(ops, k, id, c);
    var m: nat :| m < k && Creates(ops, m, id) && c.(consumed := false) == Born(ops[m]);
  }

  /**
   A Finish with the bytes of a Begin that nobody else used completes if and only if it is
   verified, of the same kind, for the same user if a registration, and less than two minutes
   later, wherever purges happen.
   */
  lemma UsableForTwoMinutes(ops: seq<Op>, i: nat, k: nat)
    requires Clocked(ops) && i < k < |ops| && (ops[i].BeginLogin? || ops[i].BeginRegistration?)
    requires (ops[k].FinishLogin? || ops[k].FinishRegistration?) && ops[k].bytes == ops[i].bytes
    requires Untouched(ops, i, k, ops[i].bytes)
    ensures Completed(After(ops, k), ops[k]).Some? <==>
      && ops[k].verified && ops[k].now < ops[i].now + 120_000_000_000
      && ((ops[i].BeginLogin? && ops[k].FinishLogin?)
          || (ops[i].BeginRegistration? && ops[k].FinishRegistration? && ops[i].user == ops[k].user))
  {
    var t, id := After(ops, k), After(ops, i).nextId;
    RowsStem(ops, k);
    var kind := if ops[k].FinishLogin? then Login else Registration;
    var found := FirstMatch(t, 0, ops[k].bytes, kind, ops[k].now);
    if found.Some? {
      OnlyRow(ops, i, k, found.value);
      assert Stems(ops, k, id, t.rows[id]);
      var m: nat :| m < k && Creates(ops, m, id) && t.rows[id].(consumed := false) == Born(ops[m]);
    }
    if ops[k].now < ops[i].now + LIFETIME {
      RunUntouched(ops, i, k);
      assert found.None? ==> !Matches(t, id, ops[k].bytes, kind, ops[k].now);
    }
  }

  /** After a purge every row left is of a Begin not more than two minutes old, and nobody has used it. */
  lemma PurgeLeavesFresh(ops: seq<Op>, k: nat, id: nat) returns (i: nat)
    requires k < |ops| && ops[k].Purge? && id in After(ops, k + 1).rows
    ensures i < k && Creates(ops, i, id) && ops[k].now <= ops[i].now + 120_000_000_000
    ensures !After(ops, k + 1).rows[id].consumed
  {
    var t := After(ops, k);
    RowsStem(ops, k);
    assert Stems(ops, k, id, t.rows[id]);
    i :| i < k && Creates(ops, i, id) && t.rows[id].(consumed := false) == Born(ops[i]);
  }

  // ----- purging is never observable -----

  datatype Outcome = Outcome(claimed: Option<nat>, completed: Option<nat>)

  /** The outcome of every operation that is not a purge, in order. */
  function Outcomes(t: Table, ops: seq<Op>): seq<Outcome>
    decreases |ops|
  {
    if ops == [] then []
    else
      (if ops[0].Purge? then [] else [Outcome(Claimed(t, ops[0]), Completed(t, ops[0]))])
        + Outcomes(Do(t, ops[0]), ops[1..])
  }

  function WithoutPurges(ops: seq<Op>): seq<Op> {
    if ops == [] then []
    else (if ops[0].Purge? then [] else [ops[0]]) + WithoutPurges(ops[1..])
  }

  /** The tables differ at most in rows that can no longer be claimed. */
  ghost predicate SameUsable(a: Table, b: Table, now: int) {
    && a.nextId == b.nextId
    && (forall id :: Usable(a, id, now) ==> Usable(b, id, now) && b.rows[id] == a.rows[id])
    && (forall id :: Usable(b, id, now) ==> Usable(a, id, now) && a.rows[id] == b.rows[id])
  }

  lemma {:induction false} SameMatch(a: Table, b: Table, last: int, lo: nat, bytes: string, kind: Kind, now: int)
    requires SameUsable(a, b, last) && last <= now && lo <= a.nextId
    ensures FirstMatch(a, lo, bytes, kind, now) == FirstMatch(b, lo, bytes, kind, now)
    decreases a.nextId - lo
  {
    assert Usable(a, lo, now) ==> Usable(a, lo, last);
    assert Usable(b, lo, now) ==> Usable(b, lo, last);
    if lo < a.nextId {
      SameMatch(a, b, last, lo + 1, bytes, kind, now);
    }
  }

  lemma SameClaim(a: Table, b: Table, last: int, op: Op)
    requires SameUsable(a, b, last) && last <= op.now
    ensures Claimed(a, op) == Claimed(b, op)
  {
    if op.FinishLogin? || op.FinishRegistration? {
      var kind := if op.FinishLogin? then Login else Registration;
      SameMatch(a, b, last, 0, op.bytes, kind, op.now);
      var m := FirstMatch(a, 0, op.bytes, kind, op.now);
      assert m.Some? ==> Usable(a, m.value, last);
    }
  }

  lemma StepSameUsable(a: Table, b: Table, last: int, op: Op)
    requires SameUsable(a, b, last) && last <= op.now && !op.Purge?
    ensures SameUsable(Do(a, op), Do(b, op), op.now)
  {
    SameClaim(a, b, last, op);
    var a', b' := Do(a, op), Do(b, op);
    forall id
      ensures Usable(a', id, op.now) ==> Usable(b', id, op.now) && b'.rows[id] == a'.rows[id]
      ensures Usable(b', id, op.now) ==> Usable(a', id, op.now) && a'.rows[id] == b'.rows[id]
    {
      assert Usable(a, id, op.now) ==> Usable(a, id, last);
      assert Usable(b, id, op.now) ==> Usable(b, id, last);
    }
  }

  lemma PurgeHidden(a: Table, b: Table, last: int, now: int)
    requires SameUsable(a, b, last) && last <= now
    ensures SameUsable(Purged(a, now), b, now)
  {
    forall id
      ensures Usable(Purged(a, now), id, now) <==> Usable(a, id, now)
      ensures Usable(a, id, now) ==> Usable(a, id, last)
      ensures Usable(b, id, now) ==> Usable(b, id, last)
    {
    }
  }

  ghost predicate ClockedFrom(last: int, ops: seq<Op>)
    decreases |ops|
  {
    ops != [] ==> last <= ops[0].now && ClockedFrom(ops[0].now, ops[1..])
  }

  /** Leaving all purges out of a run changes no outcome; so neither does adding them anywhere. */
  lemma {:induction false} PurgesAreUnobservable(a: Table, b: Table, last: int, ops: seq<Op>)
    requires SameUsable(a, b, last) && ClockedFrom(last, ops)
    ensures Outcomes(a, ops) == Outcomes(b, WithoutPurges(ops))
    decreases |ops|
  {
    if ops != [] {
      var op := ops[0];
      var rest := WithoutPurges(ops[1..]);
      if op.Purge? {
        PurgeHidden(a, b, last, op.now);
        PurgesAreUnobservable(Purged(a, op.now), b, op.now, ops[1..]);
        assert WithoutPurges(ops) == rest;
      } else {
        SameClaim(a, b, last, op);
        StepSameUsable(a, b, last, op);
        PurgesAreUnobservable(Do(a, op), Do(b, op), op.now, ops[1..]);
        assert WithoutPurges(ops) == [op] + rest;
        assert ([op] + rest)[1..] == rest;
      }
    }
  }

  lemma NoneFound(t: Table, bytes: string, kind: Kind, now: int)
    ensures FirstMatch(t, 0, bytes, kind, now).None? ==>
      forall id :: id in t.rows && id < t.nextId ==>
        !(!t.rows[id].consumed && now < t.rows[id].expiresAt && t.rows[id].bytes == bytes && t.rows[id].kind == kind)
  {
    if FirstMatch(t, 0, bytes, kind, now).None? {
      forall id | id in t.rows && id < t.nextId
        ensures !(!t.rows[id].consumed && now < t.rows[id].expiresAt && t.rows[id].bytes == bytes
                && t.rows[id].kind == kind)
      {
        assert !Matches(t, id, bytes, kind, now);
      }
    }
  }

  /** The challenge table in place, with the two Finish handlers' lookup-then-consume. */
  class ChallengeStore {
    var table: Table

    constructor ()
      ensures table == Table(map[], 0)
    {
      table := Table(map[], 0);
    }

    method Begin(bytes: string, owner: Option<int>, now: int)
      modifies this
      ensures table ==
              Do(old(table), if owner.Some? then BeginRegistration(bytes, owner.value, now) else BeginLogin(bytes, now))
      ensures table.nextId == old(table).nextId + 1
      ensures owner.Some? ==>
        table.rows == old(table).rows[old(table).nextId := Challenge(bytes, Registration, owner,
            now + 120_000_000_000, false)]
      ensures owner.None? ==>
        table.rows == old(table).rows[old(table).nextId := Challenge(bytes, Login, None, now + 120_000_000_000, false)]
    {
      var kind := if owner.Some? then Registration else Login;
      table := Insert(table, Challenge(bytes, kind, owner, now + LIFETIME, false));
    }

    method GetUnconsumed(bytes: string, kind: Kind, now: int) returns (r: Option<nat>)
      ensures r == FirstMatch(table, 0, bytes, kind, now)
      ensures r.Some? ==>
        && r.value in table.rows && !table.rows[r.value].consumed && now < table.rows[r.value].expiresAt
        && table.rows[r.value].bytes == bytes && table.rows[r.value].kind == kind
      ensures r.None? ==>
        forall id :: id in table.rows && id < table.nextId ==>
          !(!table.rows[id].consumed && now < table.rows[id].expiresAt
            && table.rows[id].bytes == bytes && table.rows[id].kind == kind)
    {
      NoneFound(table, bytes, kind, now);
      var id := 0;
      while id < table.nextId
        invariant 0 <= id <= table.nextId
        invariant FirstMatch(table, 0, bytes, kind, now) == FirstMatch(table, id, bytes, kind, now)
      {
        if Matches(table, id, bytes, kind, now) {
          return Some(id);
        }
        id := id + 1;
      }
      r := None;
    }

    method TryLogin(bytes: string, verified: bool, now: int) returns (ok: bool)
      modifies this
      ensures table == Do(old(table), FinishLogin(bytes, verified, now))
      ensures ok <==> Completed(old(table), FinishLogin(bytes, verified, now)).Some?
      ensures ok ==> verified
      ensures table == old(table) || exists id ::
        && id in old(table).rows && old(table).rows[id].bytes == bytes && old(table).rows[id].kind == Login
        && !old(table).rows[id].consumed && now < old(table).rows[id].expiresAt
        && table == old(table).(rows := old(table).rows[id := old(table).rows[id].(consumed := true)])
      ensures ok <==> verified && table != old(table)
      ensures table == old(table) ==>
        forall id :: id in table.rows && id < table.nextId ==>
          !(!table.rows[id].consumed && now < table.rows[id].expiresAt
            && table.rows[id].bytes == bytes && table.rows[id].kind == Login)
    {
      var found := GetUnconsumed(bytes, Login, now);
      if found.None? {
        return false;
      }
      table := Consume(table, found.value);
      ok := verified;
    }

    method TryRegistration(bytes: string, user: int, verified: bool, now: int) returns (ok: bool)
      modifies this
      ensures table == Do(old(table), FinishRegistration(bytes, user, verified, now))
      ensures ok <==> Completed(old(table), FinishRegistration(bytes, user, verified, now)).Some?
      ensures ok ==> verified
      ensures table == old(table) || exists id ::
        && id in old(table).rows && old(table).rows[id].bytes == bytes && old(table).rows[id].kind == Registration
        && old(table).rows[id].owner == Some(user)
        && !old(table).rows[id].consumed && now < old(table).rows[id].expiresAt
        && table == old(table).(rows := old(table).rows[id := old(table).rows[id].(consumed := true)])
      ensures ok <==> verified && table != old(table)
    {
      var found := GetUnconsumed(bytes, Registration, now);
      if found.None? {
        return false;
      }
      if table.rows[found.value].owner != Some(user) {
        return false;
      }
      table := Consume(table, found.value);
      ok := verified;
    }

    method PurgeChallenges(now: int)
      modifies this
      ensures table == Do(old(table), Purge(now))
      ensures table.nextId == old(table).nextId
      ensures forall id :: id in table.rows <==>
        id in old(table).rows && now <= old(table).rows[id].expiresAt && !old(table).rows[id].consumed
      ensures forall id :: id in table.rows ==> table.rows[id] == old(table).rows[id]
    {
      table := Purged(table, now);
    }
  }
}
