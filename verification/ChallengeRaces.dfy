/**
 Challenges without the assumption that Finish requests are serialized: a request looks
 its challenge up and marks it consumed in two steps, the second of which may fail
 unnoticed, while other requests, Begin handlers and purges do their own.
 */
module ChallengeRaces {
  import opened Wrappers
  import opened Challenges

  /** `owner` and `user` are present exactly for registrations. */
  datatype Step =
    | Begin(bytes: string, owner: Option<int>, now: int)
    | Find(request: nat, bytes: string, user: Option<int>, now: int)
    | Spend(request: nat, ok: bool, now: int)
    | Clean(now: int)

  /** A request that has found its row: `found` is the step in which it did. */
  datatype Hold = Hold(row: nat, found: nat)

  datatype Race = Race(table: Table, held: map<nat, Hold>, count: nat)

  /** The serialized operation that begins as the lookup does. */
  function FinishOp(step: Step): Op
    requires step.Find?
  {
    if step.user.Some?
      then FinishRegistration(step.bytes, step.user.value, true, step.now) else FinishLogin(step.bytes, true, step.now)
  }

  function BeginOp(step: Step): Op
    requires step.Begin?
  {
    if step.owner.Some?
      then BeginRegistration(step.bytes, step.owner.value, step.now) else BeginLogin(step.bytes, step.now)
  }

  function Apply(s: Race, step: Step): Race {
    match step
    case Begin(_, _, _) => Race(Do(s.table, BeginOp(step)), s.held, s.count + 1)
    case Find(q, _, _, _) =>
      var m := Claimed(s.table, FinishOp(step));
      Race(s.table, if m.Some? then s.held[q := Hold(m.value, s.count)] else s.held, s.count + 1)
    case Spend(q, ok, _) =>
      Race(if q in s.held && ok then Consume(s.table, s.held[q].row) else s.table, s.held - {q}, s.count + 1)
    case Clean(now) => Race(Do(s.table, Purge(now)), s.held, s.count + 1)
  }

  /** The state after the first `n` steps. */
  function At(steps: seq<Step>, n: nat): Race
    requires n <= |steps|
  {
    if n == 0 then Race(Table(map[], 0), map[], 0) else Apply(At(steps, n - 1), steps[n - 1])
  }

  ghost predicate InOrder(steps: seq<Step>) {
    forall i, j :: 0 <= i < j < |steps| ==> steps[i].now <= steps[j].now
  }

  /** Step `k` ends a request that holds a row: it goes on to verify, and may complete, with that row. */
  predicate Claims(steps: seq<Step>, k: nat) {
    k < |steps| && steps[k].Spend? && steps[k].request in At(steps, k).held
  }

  function HoldOf(steps: seq<Step>, k: nat): Hold
    requires Claims(steps, k)
  {
    At(steps, k).held[steps[k].request]
  }

  /** The step marks the row consumed. */
  predicate Spends(s: Race, step: Step, id: nat) {
    step.Spend? && step.ok && step.request in s.held && s.held[step.request].row == id
  }

  predicate SpendsAt(steps: seq<Step>, j: nat, id: nat)
    requires j < |steps|
  {
    Spends(At(steps, j), steps[j], id)
  }

  /** Some step from `m` up to `n` marks the row consumed. */
  ghost predicate SpentBetween(steps: seq<Step>, m: nat, n: nat, id: nat)
    requires n <= |steps|
  {
    exists j: nat :: m <= j < n && SpendsAt(steps, j, id)
  }

  // ----- a pair of steps on its own is the serialized operation -----

  lemma PairIsFinish(s: Race, find: Step, spend: Step)
    requires find.Find? && spend.Spend? && find.request == spend.request && spend.ok && find.request !in s.held
    ensures Apply(Apply(s, find), spend).table == Do(s.table, FinishOp(find))
  {
  }

  // ----- one row over time -----

  ghost predicate TableOk(t: Table) {
    forall id :: id in t.rows ==> id < t.nextId
  }

  lemma StepTable(s: Race, step: Step)
    requires TableOk(s.table)
    ensures TableOk(Apply(s, step).table) && s.table.nextId <= Apply(s, step).table.nextId
  {
  }

  lemma {:induction false} RunTable(steps: seq<Step>, m: nat, n: nat)
    requires m <= n <= |steps|
    ensures TableOk(At(steps, n).table) && At(steps, m).table.nextId <= At(steps, n).table.nextId
            && At(steps, n).count == n
    decreases n
  {
    if n > 0 {
      RunTable(steps, if m < n then m else n - 1, n - 1);
      StepTable(At(steps, n - 1), steps[n - 1]);
    }
  }

  /** The row is there and may be found. */
  predicate Stands(t: Table, id: nat, c: Challenge) {
    id in t.rows && t.rows[id] == c && !c.consumed
  }

  lemma StepStands(s: Race, step: Step, id: nat, c: Challenge)
    requires TableOk(s.table) && Stands(s.table, id, c) && step.now < c.expiresAt
    ensures Stands(Apply(s, step).table, id, c) <==> !Spends(s, step, id)
    ensures Spends(s, step, id) ==> Spent(Apply(s, step).table, id)
  {
  }

  lemma StepSpent(s: Race, step: Step, id: nat)
    requires Spent(s.table, id)
    ensures Spent(Apply(s, step).table, id)
  {
  }

  lemma {:induction false} RunSpent(steps: seq<Step>, m: nat, n: nat, id: nat)
    requires m <= n <= |steps| && Spent(At(steps, m).table, id)
    ensures Spent(At(steps, n).table, id)
    decreases n
  {
    if m < n {
      RunSpent(steps, m, n - 1, id);
      StepSpent(At(steps, n - 1), steps[n - 1], id);
    }
  }

  lemma SpentBetweenSnoc(steps: seq<Step>, m: nat, n: nat, id: nat)
    requires m < n <= |steps|
    ensures SpentBetween(steps, m, n, id) <==> SpentBetween(steps, m, n - 1, id) || SpendsAt(steps, n - 1, id)
  {
  }

  /** Before it expires, a row stands exactly until somebody marks it. */
  lemma {:induction false} RunStands(steps: seq<Step>, m: nat, n: nat, id: nat, c: Challenge)
    requires m <= n <= |steps| && Stands(At(steps, m).table, id, c)
    requires forall j :: m <= j < n ==> steps[j].now < c.expiresAt
    ensures Stands(At(steps, n).table, id, c) <==> !SpentBetween(steps, m, n, id)
    ensures SpentBetween(steps, m, n, id) ==> Spent(At(steps, n).table, id)
    decreases n
  {
    if m < n {
      RunStands(steps, m, n - 1, id, c);
      RunTable(steps, 0, n - 1);
      SpentBetweenSnoc(steps, m, n, id);
      if SpentBetween(steps, m, n - 1, id) {
        StepSpent(At(steps, n - 1), steps[n - 1], id);
      } else {
        StepStands(At(steps, n - 1), steps[n - 1], id, c);
      }
    }
  }

  // ----- what a later lookup finds -----

  function KindOf(step: Step): Kind
    requires step.Find?
  {
    if step.user.Some? then Registration else Login
  }

  /** A row handed out that a query does not match will not match it later. */
  lemma StepMismatch(s: Race, step: Step, id: nat, bytes: string, kind: Kind, now: int)
    requires id < s.table.nextId && !Matches(s.table, id, bytes, kind, now)
    ensures !Matches(Apply(s, step).table, id, bytes, kind, now)
  {
  }

  lemma {:induction false} RunMismatch(steps: seq<Step>, m: nat, n: nat, id: nat, bytes: string, kind: Kind, now: int,
                                       later: int)
    requires m <= n <= |steps| && id < At(steps, m).table.nextId && now <= later
    requires !Matches(At(steps, m).table, id, bytes, kind, now)
    ensures !Matches(At(steps, n).table, id, bytes, kind, later)
    decreases n
  {
    if m < n {
      RunMismatch(steps, m, n - 1, id, bytes, kind, now, later);
      RunTable(steps, m, n - 1);
      StepMismatch(At(steps, n - 1), steps[n - 1], id, bytes, kind, later);
    }
  }

  /** The query finds the row if it matches and none before it does. */
  lemma FoundIf(t: Table, id: nat, bytes: string, kind: Kind, now: int)
    requires TableOk(t) && Matches(t, id, bytes, kind, now)
    requires forall other :: 0 <= other < id ==> !Matches(t, other, bytes, kind, now)
    ensures FirstMatch(t, 0, bytes, kind, now) == Some(id)
  {
  }

  /**
   A row found once is found again by the same query, at a later step `k`, if and only if
   the row has not expired by then and nobody has marked it in between.
   */
  lemma FoundAgainIff(steps: seq<Step>, i: nat, k: nat, bytes: string, kind: Kind, id: nat)
    requires InOrder(steps) && i < k < |steps|
    requires FirstMatch(At(steps, i).table, 0, bytes, kind, steps[i].now) == Some(id)
    ensures FirstMatch(At(steps, k).table, 0, bytes, kind, steps[k].now) == Some(id) <==>
            steps[k].now < At(steps, i).table.rows[id].expiresAt && !SpentBetween(steps, i, k, id)
  {
    var t, t' := At(steps, i).table, At(steps, k).table;
    var c := t.rows[id];
    RunTable(steps, i, k);
    if steps[k].now < c.expiresAt {
      RunStands(steps, i, k, id, c);
      if !SpentBetween(steps, i, k, id) {
        forall other | 0 <= other < id
          ensures !Matches(t', other, bytes, kind, steps[k].now)
        {
          RunMismatch(steps, i, k, other, bytes, kind, steps[i].now, steps[k].now);
        }
        FoundIf(t', id, bytes, kind, steps[k].now);
      }
    } else {
      RunMismatchExpired(steps, i, k, id, bytes, kind);
    }
  }

  lemma RunMismatchExpired(steps: seq<Step>, i: nat, k: nat, id: nat, bytes: string, kind: Kind)
    requires i < k < |steps| && id in At(steps, i).table.rows && id < At(steps, i).table.nextId
    requires steps[k].now >= At(steps, i).table.rows[id].expiresAt
    ensures !Matches(At(steps, k).table, id, bytes, kind, steps[k].now)
  {
    RunMismatch(steps, i, k, id, bytes, kind, steps[k].now, steps[k].now);
  }

  // ----- what requests hold -----

  /** A held row was found by a lookup that came before and was entitled to it. */
  ghost predicate HoldOk(steps: seq<Step>, n: nat, h: Hold)
    requires n <= |steps|
  {
    && h.found < n && steps[h.found].Find?
    && Claimed(At(steps, h.found).table, FinishOp(steps[h.found])) == Some(h.row)
  }

  /** A step leaves a request's hold as it was, or gives it the row it has just found. */
  lemma StepHolds(s: Race, step: Step, q: nat)
    requires q in Apply(s, step).held
    ensures || (q in s.held && Apply(s, step).held[q] == s.held[q])
            || (step.Find? && Claimed(s.table, FinishOp(step)) == Some(Apply(s, step).held[q].row)
                && Apply(s, step).held[q].found == s.count)
  {
  }

  lemma {:induction false} HoldsOk(steps: seq<Step>, n: nat)
    requires n <= |steps|
    ensures forall q :: q in At(steps, n).held ==> HoldOk(steps, n, At(steps, n).held[q])
  {
    if n > 0 {
      HoldsOk(steps, n - 1);
      RunTable(steps, 0, n - 1);
      var s, s' := At(steps, n - 1), At(steps, n);
      forall q | q in s'.held
        ensures HoldOk(steps, n, s'.held[q])
      {
        StepHolds(s, steps[n - 1], q);
        if q in s.held && s'.held[q] == s.held[q] {
          assert HoldOk(steps, n - 1, s.held[q]);
        }
      }
    }
  }

  lemma ClaimOk(steps: seq<Step>, k: nat)
    requires Claims(steps, k)
    ensures HoldOk(steps, k, HoldOf(steps, k))
  {
    HoldsOk(steps, k);
  }

  /** A claim says what row its query found, and that row's kind and bytes are the query's. */
  lemma ClaimFound(steps: seq<Step>, k: nat)
    requires Claims(steps, k)
    ensures var h := HoldOf(steps, k);
            && h.found < k && steps[h.found].Find?
            && FirstMatch(At(steps, h.found).table, 0, steps[h.found].bytes, KindOf(steps[h.found]),
                steps[h.found].now) == Some(h.row)
            && (steps[h.found].user.Some? ==> At(steps, h.found).table.rows[h.row].owner == steps[h.found].user)
  {
    ClaimOk(steps, k);
  }

  /** A row once marked is found by no later lookup. */
  lemma MarkedForGood(steps: seq<Step>, j: nat, k: nat, id: nat, bytes: string, kind: Kind, now: int)
    requires j < k <= |steps| && SpendsAt(steps, j, id)
    ensures FirstMatch(At(steps, k).table, 0, bytes, kind, now) != Some(id)
  {
    ClaimFound(steps, j);
    RunTable(steps, HoldOf(steps, j).found, j);
    RunSpent(steps, j + 1, k, id);
  }

  /** Bytes, kind, owner and deadline of a row never change, and a row that is gone does not come back. */
  lemma StepFixed(s: Race, step: Step, id: nat)
    requires TableOk(s.table) && id < s.table.nextId && id in Apply(s, step).table.rows
    ensures id in s.table.rows
            && Apply(s, step).table.rows[id].(consumed := false) == s.table.rows[id].(consumed := false)
  {
  }

  lemma {:induction false} RowFixed(steps: seq<Step>, m: nat, n: nat, id: nat)
    requires m <= n <= |steps| && id in At(steps, m).table.rows && id in At(steps, n).table.rows
    ensures At(steps, n).table.rows[id].(consumed := false) == At(steps, m).table.rows[id].(consumed := false)
    decreases n
  {
    if m < n {
      RunTable(steps, 0, m);
      RunTable(steps, m, n - 1);
      StepFixed(At(steps, n - 1), steps[n - 1], id);
      RowFixed(steps, m, n - 1, id);
    }
  }

  /** Some request marks the challenge between the two lookups. */
  ghost predicate Interrupted(steps: seq<Step>, j: nat, k: nat)
    requires Claims(steps, j) && Claims(steps, k) && HoldOf(steps, j).found < HoldOf(steps, k).found < |steps|
  {
    SpentBetween(steps, HoldOf(steps, j).found, HoldOf(steps, k).found, HoldOf(steps, j).row)
  }

  /**
   Two requests complete on one challenge if and only if they asked for the same bytes of the
   same kind, the later lookup came before the challenge expired, and nobody marked it
   between the two lookups.
   */
  lemma SharedIff(steps: seq<Step>, j: nat, k: nat)
    requires InOrder(steps) && Claims(steps, j) && Claims(steps, k)
    requires HoldOf(steps, j).found < HoldOf(steps, k).found < |steps|
    ensures var first, second := HoldOf(steps, j), HoldOf(steps, k);
            && steps[first.found].Find? && steps[second.found].Find?
            && first.row in At(steps, first.found).table.rows
            && (first.row == second.row <==>
                  && steps[first.found].bytes == steps[second.found].bytes
                  && KindOf(steps[first.found]) == KindOf(steps[second.found])
                  && steps[second.found].now < At(steps, first.found).table.rows[first.row].expiresAt
                  && !Interrupted(steps, j, k))
  {
    var first, second := HoldOf(steps, j), HoldOf(steps, k);
    ClaimFound(steps, j);
    ClaimFound(steps, k);
    var find, again := steps[first.found], steps[second.found];
    FoundAgainIff(steps, first.found, second.found, find.bytes, KindOf(find), first.row);
    if first.row == second.row {
      RowFixed(steps, first.found, second.found, first.row);
    }
  }

  lemma EarlierMarkInterrupts(steps: seq<Step>, j: nat, k: nat)
    requires Claims(steps, j) && Claims(steps, k) && HoldOf(steps, j).found < HoldOf(steps, k).found < |steps|
    requires j < HoldOf(steps, k).found && steps[j].ok
    ensures Interrupted(steps, j, k)
  {
    ClaimFound(steps, j);
    assert SpendsAt(steps, j, HoldOf(steps, j).row);
  }

  /**
   So two requests share a challenge only if the second looked it up before the first marked
   it, or the marking failed: serialized requests never do.
   */
  lemma SharedOverlap(steps: seq<Step>, j: nat, k: nat)
    requires InOrder(steps) && Claims(steps, j) && Claims(steps, k)
    requires HoldOf(steps, j).found < HoldOf(steps, k).found < |steps| && HoldOf(steps, j).row == HoldOf(steps, k).row
    ensures HoldOf(steps, k).found < j || !steps[j].ok
  {
    if j < HoldOf(steps, k).found && steps[j].ok {
      EarlierMarkInterrupts(steps, j, k);
    }
    SharedIff(steps, j, k);
  }

  /** It happens: both requests look the challenge up before either marks it. */
  lemma ReuseHappens(bytes: string) returns (steps: seq<Step>, j: nat, k: nat)
    ensures InOrder(steps) && Claims(steps, j) && Claims(steps, k) && j != k
    ensures steps[j].ok && steps[k].ok && steps[j].request != steps[k].request
    ensures HoldOf(steps, j).row == HoldOf(steps, k).row
  {
    steps := [Begin(bytes, None, 0), Find(1, bytes, None, 1), Find(2, bytes, None, 1), Spend(1, true, 2),
        Spend(2, true, 2)];
    j, k := 3, 4;
    var row := Challenge(bytes, Login, None, LIFETIME, false);
    var table := Table(map[0 := row], 1);
    assert At(steps, 0) == Race(Table(map[], 0), map[], 0);
    assert At(steps, 1) == Race(table, map[], 1);
    FoundIf(table, 0, bytes, Login, 1);
    assert At(steps, 2) == Race(table, map[1 := Hold(0, 1)], 2);
    assert At(steps, 3) == Race(table, map[1 := Hold(0, 1), 2 := Hold(0, 2)], 3);
    assert At(steps, 4).held == map[2 := Hold(0, 2)];
  }

  // ----- every claim has an origin, whatever the interleaving -----

  ghost predicate Created(steps: seq<Step>, i: nat, id: nat, c: Challenge)
    requires i < |steps|
  {
    steps[i].Begin? && At(steps, i).table.nextId == id && c.(consumed := false) == Born(BeginOp(steps[i]))
  }

  ghost predicate HasOrigin(steps: seq<Step>, n: nat, id: nat, c: Challenge)
    requires n <= |steps|
  {
    exists i: nat :: i < n && Created(steps, i, id, c)
  }

  lemma {:induction false} RowsHaveOrigin(steps: seq<Step>, n: nat, id: nat)
    requires n <= |steps| && id in At(steps, n).table.rows
    ensures HasOrigin(steps, n, id, At(steps, n).table.rows[id])
    decreases n
  {
    if n > 0 {
      var before, after := At(steps, n - 1).table, At(steps, n).table;
      RunTable(steps, 0, n - 1);
      if id in before.rows {
        RowsHaveOrigin(steps, n - 1, id);
        var i: nat :| i < n - 1 && Created(steps, i, id, before.rows[id]);
        RowFixed(steps, n - 1, n, id);
        assert Created(steps, i, id, after.rows[id]);
      } else {
        assert Created(steps, n - 1, id, after.rows[id]);
      }
    }
  }

  /**
   Over every interleaving, each request that claims a row goes back to a Begin of its own kind
   with the same bytes, less than 120 seconds before its lookup; a registration's was made
   for the same user.
   */
  lemma ClaimHasOrigin(steps: seq<Step>, k: nat) returns (i: nat)
    requires InOrder(steps) && Claims(steps, k)
    ensures HoldOf(steps, k).found < k && steps[HoldOf(steps, k).found].Find?
    ensures var find := steps[HoldOf(steps, k).found];
            && i < HoldOf(steps, k).found && steps[i].Begin? && At(steps, i).table.nextId == HoldOf(steps, k).row
            && steps[i].bytes == find.bytes && steps[i].owner == find.user
            && 0 <= find.now - steps[i].now < 120_000_000_000
  {
    ClaimFound(steps, k);
    var h := HoldOf(steps, k);
    var c := At(steps, h.found).table.rows[h.row];
    RowsHaveOrigin(steps, h.found, h.row);
    i :| i < h.found && Created(steps, i, h.row, c);
  }

  // ----- purging is never observable, whatever the interleaving -----

  /** The row each lookup finds and each request goes on with, in order; purges have no outcome. */
  function Outcomes(s: Race, steps: seq<Step>): seq<Option<nat>>
    decreases |steps|
  {
    if steps == [] then []
    else (if steps[0].Clean? then [] else [OutcomeOf(s, steps[0])]) + Outcomes(Apply(s, steps[0]), steps[1..])
  }

  function OutcomeOf(s: Race, step: Step): Option<nat> {
    match step
    case Find(_, _, _, _) => Claimed(s.table, FinishOp(step))
    case Spend(q, _, _) => if q in s.held then Some(s.held[q].row) else None
    case _ => None
  }

  function WithoutCleans(steps: seq<Step>): seq<Step> {
    if steps == [] then []
    else (if steps[0].Clean? then [] else [steps[0]]) + WithoutCleans(steps[1..])
  }

  /** The tables differ at most in rows that can no longer be found, and the same requests hold the same rows. */
  ghost predicate Alike(a: Race, b: Race, last: int) {
    && SameUsable(a.table, b.table, last)
    && (forall q :: q in a.held <==> q in b.held)
    && (forall q :: q in a.held ==> a.held[q].row == b.held[q].row)
  }

  lemma SameLater(a: Table, b: Table, last: int, now: int)
    requires SameUsable(a, b, last) && last <= now
    ensures SameUsable(a, b, now)
  {
    forall id
      ensures Usable(a, id, now) ==> Usable(a, id, last)
      ensures Usable(b, id, now) ==> Usable(b, id, last)
    {
    }
  }

  lemma ConsumeSame(a: Table, b: Table, now: int, id: nat)
    requires SameUsable(a, b, now)
    ensures SameUsable(Consume(a, id), Consume(b, id), now)
  {
    forall k
      ensures Usable(Consume(a, id), k, now) <==> Usable(a, k, now) && k != id
      ensures Usable(Consume(b, id), k, now) <==> Usable(b, k, now) && k != id
    {
    }
  }

  lemma StepAlike(a: Race, b: Race, last: int, step: Step)
    requires Alike(a, b, last) && last <= step.now && !step.Clean?
    ensures OutcomeOf(a, step) == OutcomeOf(b, step)
    ensures Alike(Apply(a, step), Apply(b, step), step.now)
  {
    SameLater(a.table, b.table, last, step.now);
    match step
    case Begin(_, _, _) => StepSameUsable(a.table, b.table, last, BeginOp(step));
    case Find(_, _, _, _) => SameClaim(a.table, b.table, last, FinishOp(step));
    case Spend(q, ok, _) =>
      if q in a.held && ok {
        ConsumeSame(a.table, b.table, step.now, a.held[q].row);
      }
  }

  ghost predicate InOrderFrom(last: int, steps: seq<Step>)
    decreases |steps|
  {
    steps != [] ==> last <= steps[0].now && InOrderFrom(steps[0].now, steps[1..])
  }

  /** Leaving all purges out of a run changes no outcome, wherever they fall between a lookup and its marking. */
  lemma {:induction false} CleansAreUnobservable(a: Race, b: Race, last: int, steps: seq<Step>)
    requires Alike(a, b, last) && InOrderFrom(last, steps)
    ensures Outcomes(a, steps) == Outcomes(b, WithoutCleans(steps))
    decreases |steps|
  {
    if steps != [] {
      var step, rest := steps[0], WithoutCleans(steps[1..]);
      if step.Clean? {
        PurgeHidden(a.table, b.table, last, step.now);
        CleansAreUnobservable(Apply(a, step), b, step.now, steps[1..]);
        assert WithoutCleans(steps) == rest;
      } else {
        StepAlike(a, b, last, step);
        CleansAreUnobservable(Apply(a, step), Apply(b, step), step.now, steps[1..]);
        assert WithoutCleans(steps) == [step] + rest;
        assert ([step] + rest)[1..] == rest;
      }
    }
  }
}
