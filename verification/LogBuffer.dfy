/** The in-memory ring of log entries and its newest-first query. */
module LogBuffer {
  datatype LogEntry = LogEntry(level: string, message: string, timestamp: string, component: string, metadata: string)

  // ----- matching -----

  /** `strings.ToLower` and `strings.EqualFold`, whatever Unicode says about them. */
  datatype Folding = Folding(lower: string -> string, same: (string, string) -> bool)

  predicate OccursAt(s: string, sub: string, i: int) {
    0 <= i <= |s| - |sub| && s[i..i + |sub|] == sub
  }

  predicate Contains(s: string, sub: string) {
    exists i :: 0 <= i <= |s| - |sub| && OccursAt(s, sub, i)
  }

  predicate Mentions(f: Folding, text: string, query: string) {
    Contains(f.lower(text), f.lower(query))
  }

  predicate Matches(e: LogEntry, f: Folding, level: string, query: string) {
    && (level == "" || f.same(e.level, level))
    && (query == "" || Mentions(f, e.message, query) || Mentions(f, e.component, query)
        || Mentions(f, e.metadata, query))
  }

  // ----- the specification -----

  function LastN<T>(s: seq<T>, n: nat): seq<T> {
    if |s| <= n then s else s[|s| - n..]
  }

  function Reversed<T>(s: seq<T>): seq<T> {
    if s == [] then [] else Reversed(s[1..]) + [s[0]]
  }

  function Filter(s: seq<LogEntry>, f: Folding, level: string, query: string): seq<LogEntry>
    decreases |s|
  {
    if s == [] then []
    else
      var n := |s| - 1;
      Filter(s[..n], f, level, query) + (if Matches(s[n], f, level, query) then [s[n]] else [])
  }

  function Take<T>(s: seq<T>, limit: int): seq<T> {
    if 0 < limit < |s| then s[..limit] else s
  }

  /** The newest matching entries of the last `capacity` ever added. */
  function Newest(history: seq<LogEntry>, capacity: nat, limit: int, f: Folding, level: string,
                  query: string): seq<LogEntry> {
    Take(Filter(Reversed(LastN(history, capacity)), f, level, query), limit)
  }

  lemma FilterAppend(s: seq<LogEntry>, e: LogEntry, f: Folding, level: string, query: string)
    ensures Filter(s + [e], f, level, query) ==
            Filter(s, f, level, query) + (if Matches(e, f, level, query) then [e] else [])
  {
    assert (s + [e])[..|s|] == s;
  }

  lemma {:induction false} FilterPrefix(a: seq<LogEntry>, b: seq<LogEntry>, f: Folding, level: string, query: string)
    ensures Filter(a, f, level, query) <= Filter(a + b, f, level, query)
    decreases |b|
  {
    if b == [] {
      assert a + b == a;
    } else {
      var n := |b| - 1;
      FilterPrefix(a, b[..n], f, level, query);
      FilterAppend(a + b[..n], b[n], f, level, query);
      assert a + b[..n] + [b[n]] == a + b;
    }
  }

  lemma {:induction false} ReversedConcat<T>(a: seq<T>, b: seq<T>)
    ensures Reversed(a + b) == Reversed(b) + Reversed(a)
    decreases |a|
  {
    if a == [] {
      assert a + b == b;
    } else {
      ReversedConcat(a[1..], b);
      assert (a + b)[1..] == a[1..] + b;
    }
  }

  /** One more entry looked at, walking back. */
  lemma {:induction false} StepBack(all: seq<LogEntry>, i: nat, f: Folding, level: string, query: string)
    requires i < |all|
    ensures Filter(Reversed(all[i..]), f, level, query) ==
            Filter(Reversed(all[i + 1..]), f, level, query)
              + (if Matches(all[i], f, level, query) then [all[i]] else [])
  {
    assert all[i..][1..] == all[i + 1..];
    FilterAppend(Reversed(all[i + 1..]), all[i], f, level, query);
  }

  /** What has been found so far starts the full answer. */
  lemma {:induction false} FoundFirst(all: seq<LogEntry>, i: nat, f: Folding, level: string, query: string)
    requires i <= |all|
    ensures Filter(Reversed(all[i..]), f, level, query) <= Filter(Reversed(all), f, level, query)
  {
    assert all[..i] + all[i..] == all;
    ReversedConcat(all[..i], all[i..]);
    FilterPrefix(Reversed(all[i..]), Reversed(all[..i]), f, level, query);
  }

  /** Newest first, stopping at the limit. */
  method FilterNewest(all: seq<LogEntry>, limit: int, f: Folding, level: string, query: string)
    returns (filtered: seq<LogEntry>)
    ensures filtered == Take(Filter(Reversed(all), f, level, query), limit)
  {
    filtered := [];
    var i := |all|;
    while i > 0
      invariant 0 <= i <= |all|
      invariant filtered == Filter(Reversed(all[i..]), f, level, query)
      invariant limit > 0 ==> |filtered| < limit
    {
      i := i - 1;
      StepBack(all, i, f, level, query);
      if !Matches(all[i], f, level, query) {
        continue;
      }
      filtered := filtered + [all[i]];
      if limit > 0 && |filtered| >= limit {
        FoundFirst(all, i, f, level, query);
        return;
      }
    }
    assert all[0..] == all;
  }

  // ----- what the query means -----

  /** One text has the other in it somewhere. */
  ghost predicate Within(sub: string, text: string) {
    exists before: string, after: string :: text == before + sub + after
  }

  /**
   The entry has the level asked for, if any, and the text asked for, if any, in its message,
   component or metadata.
   */
  ghost predicate Sought(e: LogEntry, f: Folding, level: string, query: string) {
    && (level != "" ==> f.same(e.level, level))
    && (query != "" ==>
          || Within(f.lower(query), f.lower(e.message))
          || Within(f.lower(query), f.lower(e.component))
          || Within(f.lower(query), f.lower(e.metadata)))
  }

  lemma ContainsIff(s: string, sub: string)
    ensures Contains(s, sub) <==> Within(sub, s)
  {
    if Contains(s, sub) {
      var i :| 0 <= i <= |s| - |sub| && OccursAt(s, sub, i);
      assert s == s[..i] + sub + s[i + |sub|..];
    }
    if Within(sub, s) {
      var before, after :| s == before + sub + after;
      assert s[|before|..|before| + |sub|] == sub;
      assert OccursAt(s, sub, |before|);
    }
  }

  lemma MatchesIff(e: LogEntry, f: Folding, level: string, query: string)
    ensures Matches(e, f, level, query) <==> Sought(e, f, level, query)
  {
    ContainsIff(f.lower(e.message), f.lower(query));
    ContainsIff(f.lower(e.component), f.lower(query));
    ContainsIff(f.lower(e.metadata), f.lower(query));
  }

  /** The positions from `i` on whose entries match, the last first. */
  function Positions(all: seq<LogEntry>, i: nat, f: Folding, level: string, query: string): seq<nat>
    requires i <= |all|
    decreases |all| - i
  {
    if i == |all| then []
    else
      Positions(all, i + 1, f, level, query) + (if Matches(all[i], f, level, query) then [i] else [])
  }

  /** They are in falling order and exactly the sought ones. */
  ghost predicate PositionsOf(all: seq<LogEntry>, i: nat, ps: seq<nat>, f: Folding, level: string, query: string) {
    && (forall j :: 0 <= j < |ps| ==> i <= ps[j] < |all| && Sought(all[ps[j]], f, level, query))
    && (forall j, k :: 0 <= j < k < |ps| ==> ps[j] > ps[k])
    && (forall p :: i <= p < |all| && Sought(all[p], f, level, query) ==> p in ps)
  }

  lemma {:induction false} PositionsMean(all: seq<LogEntry>, i: nat, f: Folding, level: string, query: string)
    requires i <= |all|
    ensures PositionsOf(all, i, Positions(all, i, f, level, query), f, level, query)
    decreases |all| - i
  {
    if i < |all| {
      PositionsMean(all, i + 1, f, level, query);
      MatchesIff(all[i], f, level, query);
      var rest, ps := Positions(all, i + 1, f, level, query), Positions(all, i, f, level, query);
      forall p | i <= p < |all| && Sought(all[p], f, level, query)
        ensures p in ps
      {
        assert p > i ==> p in rest;
      }
    }
  }

  lemma {:induction false} FilterIsPositions(all: seq<LogEntry>, i: nat, f: Folding, level: string, query: string)
    requires i <= |all|
    ensures var ps, found := Positions(all, i, f, level, query), Filter(Reversed(all[i..]), f, level, query);
            |found| == |ps| && forall j :: 0 <= j < |ps| ==> ps[j] < |all| && found[j] == all[ps[j]]
    decreases |all| - i
  {
    PositionsMean(all, i, f, level, query);
    if i < |all| {
      FilterIsPositions(all, i + 1, f, level, query);
      StepBack(all, i, f, level, query);
    }
  }

  lemma LeftOut(whole: seq<nat>, limit: int, p: nat)
    requires p in whole && (forall j, k :: 0 <= j < k < |whole| ==> whole[j] > whole[k]) && p !in Take(whole, limit)
    ensures limit > 0 && |Take(whole, limit)| == limit
    ensures forall j :: 0 <= j < |Take(whole, limit)| ==> p < Take(whole, limit)[j]
  {
    var i :| 0 <= i < |whole| && whole[i] == p;
  }

  /**
   What a query returns, `recent` being the last `capacity` entries ever added: entries of it
   that are sought, newest first, each from a position of its own; at most `limit` if that is
   positive; and a sought entry left out is older than all that are returned, and left out
   only because of the limit.
   */
  lemma NewestMeans(history: seq<LogEntry>, capacity: nat, limit: int, f: Folding, level: string, query: string)
    returns (recent: seq<LogEntry>, ps: seq<nat>)
    ensures recent == if |history| <= capacity then history else history[|history| - capacity..]
    ensures var found := Newest(history, capacity, limit, f, level, query);
            && |found| == |ps| && (limit > 0 ==> |found| <= limit)
            && (forall j :: 0 <= j < |ps| ==>
                  ps[j] < |recent| && found[j] == recent[ps[j]] && Sought(recent[ps[j]], f, level, query))
    ensures forall j, k :: 0 <= j < k < |ps| ==> ps[j] > ps[k]
    ensures forall p: nat :: p < |recent| && Sought(recent[p], f, level, query) && p !in ps ==>
      limit > 0 && |ps| == limit && forall j :: 0 <= j < |ps| ==> p < ps[j]
  {
    recent := LastN(history, capacity);
    var whole := Positions(recent, 0, f, level, query);
    assert recent[0..] == recent;
    PositionsMean(recent, 0, f, level, query);
    FilterIsPositions(recent, 0, f, level, query);
    ps := Take(whole, limit);
    forall p: nat | p < |recent| && Sought(recent[p], f, level, query) && p !in ps
      ensures limit > 0 && |ps| == limit && forall j :: 0 <= j < |ps| ==> p < ps[j]
    {
      LeftOut(whole, limit, p);
    }
  }

  // ----- the buffer -----

  /** Oldest first, when the slot at `cursor` is the next to be overwritten. */
  function Rotated(entries: seq<LogEntry>, cursor: nat): seq<LogEntry>
    requires cursor <= |entries|
  {
    entries[cursor..] + entries[..cursor]
  }

  lemma Wrap(a: nat, capacity: nat)
    requires 0 <= a < 2 * capacity
    ensures a % capacity == if a < capacity then a else a - capacity
  {
    if a >= capacity {
      assert a == capacity + (a - capacity);
    }
  }

  lemma LastNAppend(h: seq<LogEntry>, e: LogEntry, n: nat)
    requires n > 0
    ensures LastN(h + [e], n) == if |h| < n then h + [e] else LastN(h, n)[1..] + [e]
  {
  }

  lemma OverwriteOldest(entries: seq<LogEntry>, cursor: nat, e: LogEntry)
    requires cursor < |entries|
    ensures Rotated(entries[cursor := e], (cursor + 1) % |entries|) == Rotated(entries, cursor)[1..] + [e]
  {
    Wrap(cursor + 1, |entries|);
  }

  lemma AppendNewest(entries: seq<LogEntry>, e: LogEntry)
    ensures Rotated(entries + [e], 0) == Rotated(entries, 0) + [e]
  {
  }

  /** The slice and the cursor hold the last `capacity` entries of the history. */
  ghost predicate Holds(entries: seq<LogEntry>, cursor: nat, history: seq<LogEntry>, capacity: nat) {
    && |entries| <= capacity
    && cursor < capacity
    && (|entries| < capacity ==> cursor == 0 && |history| == |entries|)
    && (|entries| == capacity ==> |history| >= capacity)
    && Rotated(entries, cursor) == LastN(history, capacity)
  }

  lemma AddHolds(entries: seq<LogEntry>, cursor: nat, history: seq<LogEntry>, capacity: nat, e: LogEntry)
    requires Holds(entries, cursor, history, capacity)
    ensures |entries| < capacity ==> Holds(entries + [e], cursor, history + [e], capacity)
    ensures |entries| == capacity ==> Holds(entries[cursor := e], (cursor + 1) % capacity, history + [e], capacity)
  {
    LastNAppend(history, e, capacity);
    if |entries| < capacity {
      AppendNewest(entries, e);
    } else {
      OverwriteOldest(entries, cursor, e);
      Wrap(cursor + 1, capacity);
    }
  }

  class RingBuffer {
    const capacity: nat
    var entries: seq<LogEntry>
    var cursor: nat
    ghost var history: seq<LogEntry>

    ghost predicate Valid()
      reads this
    {
      Holds(entries, cursor, history, capacity)
    }

    constructor (capacity: nat)
      requires capacity > 0
      ensures Valid() && this.capacity == capacity && history == []
    {
      this.capacity := capacity;
      entries, cursor, history := [], 0, [];
    }

    method Add(entry: LogEntry)
      requires Valid()
      modifies this
      ensures Valid() && history == old(history) + [entry]
    {
      AddHolds(entries, cursor, history, capacity, entry);
      if |entries| < capacity {
        entries := entries + [entry];
      } else {
        entries := entries[cursor := entry];
        cursor := (cursor + 1) % capacity;
      }
      history := history + [entry];
    }

    /** Gathers the entries oldest first. */
    method Gather() returns (all: seq<LogEntry>)
      requires Valid()
      ensures all == LastN(history, capacity)
    {
      if |entries| < capacity {
        all := entries;
      } else {
        all := [];
        for i := 0 to capacity
          invariant |all| == i
          invariant forall k :: 0 <= k < i ==> all[k] == Rotated(entries, cursor)[k]
        {
          Wrap(cursor + i, capacity);
          all := all + [entries[(cursor + i) % capacity]];
        }
      }
    }

    method Get(limit: int, f: Folding, level: string, query: string) returns (filtered: seq<LogEntry>)
      requires Valid()
      ensures filtered == Newest(history, capacity, limit, f, level, query)
    {
      var all := Gather();
      filtered := FilterNewest(all, limit, f, level, query);
    }
  }
}
