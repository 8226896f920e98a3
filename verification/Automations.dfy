/** Scheduled automations: a queue of due instants that workers claim in batches. */
module Automations {
  import opened Forest
  import opened Collections

  datatype Row = Row(userId: string, name: string, rrule: string, isActive: bool,
                     lastRunAt: Option<int>, nextRunAt: Option<int>, updatedAt: int)

  type Table = map<Id, Row>

  predicate IsDue(row: Row, now: int) {
    row.isActive && row.nextRunAt.Some? && row.nextRunAt.value <= now
  }

  function DueIds(rows: Table, now: int): set<Id> {
    set id | id in rows && IsDue(rows[id], now)
  }

  /** The instant a due row waits for. */
  function Instant(rows: Table, id: Id): int {
    if id in rows && rows[id].nextRunAt.Some? then rows[id].nextRunAt.value else 0
  }

  predicate InOrder(rows: Table, ids: seq<Id>) {
    forall i, j :: 0 <= i < j < |ids| ==> Instant(rows, ids[i]) <= Instant(rows, ids[j])
  }

  /** `SELECT ... WHERE due ORDER BY next_run_at LIMIT limit`, over the rows in
      `open`: ties may come in any order. */
  ghost predicate IsBatch(rows: Table, open: set<Id>, batch: seq<Id>, now: int, limit: nat) {
    && NoDup(batch) && |batch| <= limit && InOrder(rows, batch)
    && Elems(batch) <= DueIds(rows, now) * open
    && (forall id :: id in DueIds(rows, now) * open && id !in batch ==>
          |batch| == limit && forall b :: b in batch ==> Instant(rows, b) <= Instant(rows, id))
  }

  /** The claimed rows get their last and next run; nobody else changes. */
  function ClaimRows(rows: Table, batch: seq<Id>, now: int, next: map<Id, Option<int>>): Table
    requires forall id :: id in batch ==> id in next
  {
    map id | id in rows ::
      if id in batch then rows[id].(lastRunAt := Some(now), nextRunAt := next[id]) else rows[id]
  }

  /** `next_run_ns` yields nothing, or an instant after `now`. */
  predicate AfterNow(next: map<Id, Option<int>>, now: int) {
    forall id :: id in next && next[id].Some? ==> next[id].value > now
  }

  /** The same told of the rows themselves: an active row whose instant is not in the
      future is taken, earliest first, and left out only if the batch is full of rows
      no later than it. */
  ghost predicate EarliestDue(rows: Table, batch: seq<Id>, now: int, limit: nat) {
    && NoDup(batch) && |batch| <= limit
    && (forall i :: 0 <= i < |batch| ==>
          batch[i] in rows && rows[batch[i]].isActive && rows[batch[i]].nextRunAt.Some? && rows[batch[i]].nextRunAt.value <= now)
    && (forall i, j :: 0 <= i < j < |batch| ==> rows[batch[i]].nextRunAt.value <= rows[batch[j]].nextRunAt.value)
    && (forall id :: id in rows && rows[id].isActive && rows[id].nextRunAt.Some? && rows[id].nextRunAt.value <= now && id !in batch ==>
          |batch| == limit && forall i :: 0 <= i < |batch| ==> rows[batch[i]].nextRunAt.value <= rows[id].nextRunAt.value)
  }

  lemma BatchIsEarliest(rows: Table, batch: seq<Id>, now: int, limit: nat)
    requires IsBatch(rows, rows.Keys, batch, now, limit)
    ensures EarliestDue(rows, batch, now, limit)
  {
    forall i | 0 <= i < |batch| ensures batch[i] in rows && IsDue(rows[batch[i]], now) {
      assert batch[i] in Elems(batch);
    }
  }

  /** A claimed row: last run now, next run as planned, and nothing else changed. */
  predicate Rescheduled(row: Row, was: Row, now: int, next: Option<int>) {
    && row.lastRunAt == Some(now) && row.nextRunAt == next
    && row.userId == was.userId && row.name == was.name && row.rrule == was.rrule
    && row.isActive == was.isActive && row.updatedAt == was.updatedAt
  }

  // ------------------------------------------------------------------ the table

  class AutomationTable {
    var rows: Table

    constructor ()
      ensures rows == map[]
    {
      rows := map[];
    }

    method Insert(id: Id, row: Row)
      modifies this
      ensures rows == old(rows)[id := row]
    {
      rows := rows[id := row];
    }

    method UpdateById(id: Id, name: string, rrule: string, isActive: Option<bool>, nextRunAt: Option<int>, now: int)
      returns (found: bool)
      modifies this
      ensures found == (id in old(rows))
      ensures rows == if found then old(rows)[id := Updated(old(rows)[id], name, rrule, isActive, nextRunAt, now)] else old(rows)
      ensures found ==> rows[id] == Row(old(rows)[id].userId, name, rrule,
                                        if isActive.Some? then isActive.value else old(rows)[id].isActive,
                                        old(rows)[id].lastRunAt, nextRunAt, now)
    {
      found := id in rows;
      if found {
        var row := rows[id];
        row := row.(name := name, rrule := rrule);
        if isActive.Some? { row := row.(isActive := isActive.value); }
        row := row.(nextRunAt := nextRunAt);
        row := row.(updatedAt := now);
        rows := rows[id := row];
      }
    }

    method Toggle(id: Id, nextRunAt: Option<int>, now: int) returns (found: bool)
      modifies this
      ensures found == (id in old(rows))
      ensures rows == if found then old(rows)[id := Toggled(old(rows)[id], nextRunAt, now)] else old(rows)
      ensures found ==>
                var was := old(rows)[id];
                rows[id] == Row(was.userId, was.name, was.rrule, !was.isActive, was.lastRunAt,
                                if was.isActive then None else nextRunAt, now)
    {
      found := id in rows;
      if found {
        var row := rows[id];
        row := row.(isActive := !row.isActive);
        row := row.(nextRunAt := if row.isActive then nextRunAt else None);
        row := row.(updatedAt := now);
        rows := rows[id := row];
      }
    }

    method Delete(id: Id) returns (found: bool)
      modifies this
      ensures found == (id in old(rows)) && rows == old(rows) - {id}
    {
      found := id in rows;
      rows := rows - {id};
    }

    /** The due row of `pool` with the earliest instant. */
    method Earliest(pool: set<Id>) returns (first: Id)
      requires pool != {}
      ensures first in pool && forall id :: id in pool ==> Instant(rows, first) <= Instant(rows, id)
    {
      first :| first in pool;
      var rest := pool - {first};
      while rest != {}
        invariant rest <= pool && first in pool
        invariant forall id :: id in pool && id !in rest ==> Instant(rows, first) <= Instant(rows, id)
        decreases rest
      {
        var id :| id in rest;
        if Instant(rows, id) < Instant(rows, first) { first := id; }
        rest := rest - {id};
      }
    }

    method SelectDue(now: int, limit: nat) returns (batch: seq<Id>)
      ensures IsBatch(rows, rows.Keys, batch, now, limit) && EarliestDue(rows, batch, now, limit)
    {
      batch := [];
      var pool := DueIds(rows, now);
      while |batch| < limit && pool != {}
        invariant NoDup(batch) && |batch| <= limit && InOrder(rows, batch)
        invariant pool <= DueIds(rows, now) && Elems(batch) == DueIds(rows, now) - pool
        invariant forall b, id :: b in batch && id in pool ==> Instant(rows, b) <= Instant(rows, id)
      {
        var id := Earliest(pool);
        assert id !in Elems(batch);
        NoDupAppend(batch, id);
        AppendInOrder(rows, batch, id);
        batch := batch + [id];
        pool := pool - {id};
      }
      BatchIsEarliest(rows, batch, now, limit);
    }

    /** Claim the earliest due rows and reschedule each of them. */
    method ClaimDue(now: int, limit: nat, nextRun: map<Id, Option<int>>) returns (batch: seq<Id>)
      requires rows.Keys <= nextRun.Keys
      modifies this
      ensures IsBatch(old(rows), old(rows).Keys, batch, now, limit) && EarliestDue(old(rows), batch, now, limit)
      ensures rows.Keys == old(rows).Keys
      ensures forall id :: id in rows ==>
                if id in batch then Rescheduled(rows[id], old(rows)[id], now, nextRun[id]) else rows[id] == old(rows)[id]
      ensures Elems(batch) <= nextRun.Keys && rows == ClaimRows(old(rows), batch, now, nextRun)
    {
      batch := SelectDue(now, limit);
      hide EarliestDue;
      assert Elems(batch) <= rows.Keys;
      ghost var before := rows;
      for i := 0 to |batch|
        invariant rows.Keys == before.Keys
        invariant forall id :: id in rows ==>
          rows[id] == if id in batch[..i] then before[id].(lastRunAt := Some(now), nextRunAt := nextRun[id]) else before[id]
      {
        var id := batch[i];
        assert id in Elems(batch);
        var row := rows[id];
        row := row.(lastRunAt := Some(now));
        row := row.(nextRunAt := nextRun[id]);
        rows := rows[id := row];
      }
      assert batch[..|batch|] == batch;
    }
  }

  function Updated(row: Row, name: string, rrule: string, isActive: Option<bool>, nextRunAt: Option<int>, now: int): Row {
    row.(name := name, rrule := rrule, isActive := if isActive.Some? then isActive.value else row.isActive,
         nextRunAt := nextRunAt, updatedAt := now)
  }

  function Toggled(row: Row, nextRunAt: Option<int>, now: int): Row {
    row.(isActive := !row.isActive, nextRunAt := if !row.isActive then nextRunAt else None, updatedAt := now)
  }

  lemma AppendInOrder(rows: Table, ids: seq<Id>, id: Id)
    requires InOrder(rows, ids) && forall b :: b in ids ==> Instant(rows, b) <= Instant(rows, id)
    ensures InOrder(rows, ids + [id])
  {
    assert forall i :: 0 <= i < |ids| ==> ids[i] in ids;
  }

  // -------------------------------------------------------- draining at one instant

  /** A claim takes the batch out of the due rows, is as large as it may be, and
      touches no row that was not due. */
  lemma ClaimShrinks(rows: Table, batch: seq<Id>, now: int, limit: nat, next: map<Id, Option<int>>)
    requires IsBatch(rows, rows.Keys, batch, now, limit) && AfterNow(next, now)
    requires forall id :: id in batch ==> id in next
    ensures var rows' := ClaimRows(rows, batch, now, next);
      && DueIds(rows', now) == DueIds(rows, now) - Elems(batch)
      && |batch| == (if |DueIds(rows, now)| < limit then |DueIds(rows, now)| else limit)
      && |DueIds(rows', now)| == |DueIds(rows, now)| - |batch|
      && (forall id :: id in rows && id !in batch ==> id in rows' && rows'[id] == rows[id])
      && (forall id :: id in rows && !IsDue(rows[id], now) ==> id in rows' && rows'[id] == rows[id] && id !in batch)
  {
    BatchSize(rows, batch, now, limit);
    assert Elems(batch) <= DueIds(rows, now);
    var rows' := ClaimRows(rows, batch, now, next);
    forall id ensures id in DueIds(rows', now) <==> id in DueIds(rows, now) && id !in batch {}
    assert DueIds(rows', now) == DueIds(rows, now) - Elems(batch);
    NoDupCardinality(batch);
  }

  lemma BatchSize(rows: Table, batch: seq<Id>, now: int, limit: nat)
    requires IsBatch(rows, rows.Keys, batch, now, limit)
    ensures |batch| == (if |DueIds(rows, now)| < limit then |DueIds(rows, now)| else limit)
  {
    var due := DueIds(rows, now);
    NoDupCardinality(batch);
    assert due * rows.Keys == due;
    SubsetSize(Elems(batch), due);
    if Elems(batch) != due {
      var id :| id in due && id !in batch;
    }
  }

  function Flatten(batches: seq<seq<Id>>): seq<Id> {
    if batches == [] then [] else batches[0] + Flatten(batches[1..])
  }

  /** Successive claims at the same instant. */
  ghost predicate Drains(rows: Table, now: int, limit: nat, batches: seq<seq<Id>>, rows': Table)
    decreases |batches|
  {
    if batches == [] then rows' == rows
    else exists next :: ClaimsWith(rows, now, limit, batches[0], next) &&
           Drains(ClaimRows(rows, batches[0], now, next), now, limit, batches[1..], rows')
  }

  ghost predicate ClaimsWith(rows: Table, now: int, limit: nat, batch: seq<Id>, next: map<Id, Option<int>>) {
    IsBatch(rows, rows.Keys, batch, now, limit) && AfterNow(next, now) && forall id :: id in batch ==> id in next
  }

  /** Draining hands out every due row once, earliest first, and nothing else. */
  lemma {:induction false} DrainsInOrder(rows: Table, now: int, limit: nat, batches: seq<seq<Id>>, rows': Table)
    requires Drains(rows, now, limit, batches, rows')
    ensures var all := Flatten(batches);
      && NoDup(all) && InOrder(rows, all)
      && Elems(all) == DueIds(rows, now) - DueIds(rows', now)
      && DueIds(rows', now) <= DueIds(rows, now)
      && (forall id :: id in rows && id !in all ==> id in rows' && rows'[id] == rows[id])
    decreases |batches|
  {
    if batches != [] {
      var b := batches[0];
      var next :| ClaimsWith(rows, now, limit, b, next) && Drains(ClaimRows(rows, b, now, next), now, limit, batches[1..], rows');
      DrainsInOrder(ClaimRows(rows, b, now, next), now, limit, batches[1..], rows');
      ClaimThenRest(rows, now, limit, b, next, Flatten(batches[1..]), DueIds(rows', now));
    }
  }

  /** A claim, followed by a drain that hands out `rest` and leaves `left`. */
  lemma ClaimThenRest(rows: Table, now: int, limit: nat, b: seq<Id>, next: map<Id, Option<int>>, rest: seq<Id>, left: set<Id>)
    requires ClaimsWith(rows, now, limit, b, next)
    requires var rows1 := ClaimRows(rows, b, now, next);
      NoDup(rest) && InOrder(rows1, rest) && Elems(rest) == DueIds(rows1, now) - left && left <= DueIds(rows1, now)
    ensures NoDup(b + rest) && InOrder(rows, b + rest)
    ensures Elems(b + rest) == DueIds(rows, now) - left && left <= DueIds(rows, now)
    ensures forall id :: id in rows && id !in b ==> id in ClaimRows(rows, b, now, next) && ClaimRows(rows, b, now, next)[id] == rows[id]
  {
    ClaimShrinks(rows, b, now, limit, next);
    BatchDue(rows, now, limit, b, next);
    RestOfDue(DueIds(rows, now), DueIds(ClaimRows(rows, b, now, next), now), b, rest, left);
    hide ClaimRows, IsBatch, DueIds;
    BatchThenRest(rows, ClaimRows(rows, b, now, next), now, limit, b, rest);
  }

  lemma RestOfDue(due: set<Id>, due1: set<Id>, b: seq<Id>, rest: seq<Id>, left: set<Id>)
    requires due1 == due - Elems(b) && Elems(b) <= due && Elems(rest) == due1 - left && left <= due1
    ensures Elems(b + rest) == due - left && Elems(rest) <= due - Elems(b)
  {
    assert Elems(b + rest) == Elems(b) + Elems(rest);
  }

  lemma BatchDue(rows: Table, now: int, limit: nat, b: seq<Id>, next: map<Id, Option<int>>)
    requires ClaimsWith(rows, now, limit, b, next)
    ensures Elems(b) <= DueIds(rows, now)
  {
  }

  function Left(due: nat, claims: nat, limit: nat): nat {
    if claims == 0 then due else Left(if due < limit then 0 else due - limit, claims - 1, limit)
  }

  lemma {:induction false} LeftAfter(due: nat, claims: nat, limit: nat)
    ensures Left(due, claims, limit) == if claims * limit < due then due - claims * limit else 0
  {
    if claims > 0 {
      LeftAfter(if due < limit then 0 else due - limit, claims - 1, limit);
      assert claims * limit == limit + (claims - 1) * limit;
    }
  }

  /** After `n` claims, `n * limit` rows are gone; the queue is empty exactly when that
      covers it. */
  lemma {:induction false} DrainCount(rows: Table, now: int, limit: nat, batches: seq<seq<Id>>, rows': Table)
    requires Drains(rows, now, limit, batches, rows')
    ensures |DueIds(rows', now)| == Left(|DueIds(rows, now)|, |batches|, limit)
    ensures DueIds(rows', now) == {} <==> |batches| * limit >= |DueIds(rows, now)|
    decreases |batches|
  {
    if batches != [] {
      var b := batches[0];
      var next :| ClaimsWith(rows, now, limit, b, next) && Drains(ClaimRows(rows, b, now, next), now, limit, batches[1..], rows');
      ClaimShrinks(rows, b, now, limit, next);
      DrainCount(ClaimRows(rows, b, now, next), now, limit, batches[1..], rows');
    }
    LeftAfter(|DueIds(rows, now)|, |batches|, limit);
  }

  lemma BatchThenRest(rows: Table, rows1: Table, now: int, limit: nat, b: seq<Id>, rest: seq<Id>)
    requires IsBatch(rows, rows.Keys, b, now, limit) && NoDup(rest) && InOrder(rows1, rest)
    requires Elems(rest) <= DueIds(rows, now) - Elems(b)
    requires forall id :: id in rows && id !in b ==> id in rows1 && rows1[id] == rows[id]
    ensures NoDup(b + rest) && InOrder(rows, b + rest)
  {
    forall id | id in rest ensures id in DueIds(rows, now) && id !in b && Instant(rows, id) == Instant(rows1, id) {
      assert id in Elems(rest);
    }
    var all := b + rest;
    forall i, j | 0 <= i < j < |all|
      ensures all[i] != all[j] && Instant(rows, all[i]) <= Instant(rows, all[j])
    {
      if j < |b| {
        assert b[i] != b[j];
      } else {
        assert rest[j - |b|] in rest;
        if i < |b| {
          assert b[i] in b;
        } else {
          assert rest[i - |b|] in rest;
        }
      }
    }
  }

  // ------------------------------------------------------------ concurrent workers

  /** A transaction in flight: the locked batch and, once computed, the new instants,
      which nobody else sees before the commit. */
  datatype Held = Held(now: int, batch: seq<Id>, planned: Option<map<Id, Option<int>>>)

  datatype Claim = Claim(id: Id, instant: int)

  /** `claims` records every claim committed so far, `used` every id ever inserted. */
  datatype State = State(rows: Table, clock: int, workers: map<nat, Held>, claims: seq<Claim>, used: set<Id>)

  datatype Step =
    | Tick(to: int)
    | Select(w: nat, now: int, limit: nat, batch: seq<Id>)
    | Plan(w: nat, next: map<Id, Option<int>>)
    | Commit(w: nat)
    | Rollback(w: nat)
    | Insert(id: Id, row: Row)
    | Update(id: Id, name: string, rrule: string, isActive: Option<bool>, nextRunAt: Option<int>)
    | Toggle(id: Id, nextRunAt: Option<int>)
    | Delete(id: Id)

  ghost predicate LockedBy(st: State, w: nat, id: Id) {
    w in st.workers && id in st.workers[w].batch
  }

  ghost predicate Locked(st: State, id: Id) {
    exists w :: LockedBy(st, w, id)
  }

  /** The unlocked rows: what `SKIP LOCKED` leaves to select from. */
  ghost function Open(st: State): set<Id> {
    set id | id in st.rows && !Locked(st, id)
  }

  predicate Later(at: Option<int>, clock: int) {
    at.Some? ==> at.value > clock
  }

  /** Writers wait for row locks; workers look at the clock before they select. */
  ghost predicate Enabled(st: State, s: Step) {
    match s
    case Tick(to) => to >= st.clock
    case Select(w, now, limit, batch) => w !in st.workers && now <= st.clock && IsBatch(st.rows, Open(st), batch, now, limit)
    case Plan(w, next) =>
      && w in st.workers && st.workers[w].planned.None? && AfterNow(next, st.workers[w].now)
      && forall id :: id in st.workers[w].batch ==> id in next
    case Commit(w) => w in st.workers && st.workers[w].planned.Some? && forall id :: id in st.workers[w].batch ==> id in st.workers[w].planned.value
    case Rollback(w) => w in st.workers
    case Insert(id, row) => id !in st.used
    case Update(id, _, _, _, _) => id in st.rows && !Locked(st, id)
    case Toggle(id, _) => id in st.rows && !Locked(st, id)
    case Delete(id) => id in st.rows && !Locked(st, id)
  }

  function ClaimsOf(rows: Table, batch: seq<Id>): (cs: seq<Claim>)
    ensures |cs| == |batch|
  {
    seq(|batch|, i requires 0 <= i < |batch| => Claim(batch[i], Instant(rows, batch[i])))
  }

  function Do(st: State, s: Step): State {
    match s
    case Tick(to) => st.(clock := to)
    case Select(w, now, _, batch) => st.(workers := st.workers[w := Held(now, batch, None)])
    case Plan(w, next) =>
      if w in st.workers then st.(workers := st.workers[w := st.workers[w].(planned := Some(next))]) else st
    case Commit(w) =>
      if w in st.workers && st.workers[w].planned.Some? && (forall id :: id in st.workers[w].batch ==> id in st.workers[w].planned.value) then
        var held := st.workers[w];
        st.(rows := ClaimRows(st.rows, held.batch, held.now, held.planned.value),
            claims := st.claims + ClaimsOf(st.rows, held.batch),
            workers := st.workers - {w})
      else st
    case Rollback(w) => st.(workers := st.workers - {w})
    case Insert(id, row) => st.(rows := st.rows[id := row], used := st.used + {id})
    case Update(id, name, rrule, isActive, nextRunAt) =>
      if id in st.rows then st.(rows := st.rows[id := Updated(st.rows[id], name, rrule, isActive, nextRunAt, st.clock)]) else st
    case Toggle(id, nextRunAt) =>
      if id in st.rows then st.(rows := st.rows[id := Toggled(st.rows[id], nextRunAt, st.clock)]) else st
    case Delete(id) => st.(rows := st.rows - {id})
  }

  const Empty := State(map[], 0, map[], [], {})

  /** If `row` may be claimed, its instant is later than every instant claimed for `id`. */
  ghost predicate AfterClaims(st: State, id: Id, row: Row) {
    row.isActive && row.nextRunAt.Some? ==> forall c :: c in st.claims && c.id == id ==> c.instant < row.nextRunAt.value
  }

  /** A user's write leaves the row inactive, without an instant, or with one later
      than all its claims. */
  ghost predicate SafeWrite(st: State, s: Step) {
    (s.Update? || s.Toggle?) && s.id in st.rows ==> AfterClaims(st, s.id, Do(st, s).rows[s.id])
  }

  /** `safe` says whether users write safely. */
  ghost predicate RunsTo(safe: bool, steps: seq<Step>, st: State)
    decreases |steps|
  {
    if steps == [] then st == Empty
    else exists before :: Last(safe, steps, before, st)
  }

  ghost predicate Last(safe: bool, steps: seq<Step>, before: State, st: State)
    requires steps != []
    decreases |steps|, 0
  {
    var last := steps[|steps| - 1];
    RunsTo(safe, steps[..|steps| - 1], before) && Enabled(before, last) && (safe ==> SafeWrite(before, last)) && st == Do(before, last)
  }

  /** A locked row is due for its worker, and nobody else holds it. */
  ghost predicate HeldOk(st: State, w: nat, id: Id) {
    LockedBy(st, w, id) ==>
      && id in st.rows && IsDue(st.rows[id], st.workers[w].now) && st.workers[w].now <= st.clock
      && (forall v :: LockedBy(st, v, id) ==> v == w)
      && (st.workers[w].planned.Some? && id in st.workers[w].planned.value ==> Later(st.workers[w].planned.value[id], st.workers[w].now))
  }

  /** Claimed instants lie in the past, and before the instant an active row waits
      for. */
  ghost predicate ClaimOk(st: State, c: Claim) {
    && c.id in st.used && c.instant <= st.clock
    && (c.id in st.rows && st.rows[c.id].isActive && st.rows[c.id].nextRunAt.Some? ==> c.instant < st.rows[c.id].nextRunAt.value)
  }

  ghost predicate Inv(st: State) {
    && st.rows.Keys <= st.used
    && (forall w :: w in st.workers ==> NoDup(st.workers[w].batch))
    && (forall w, id :: HeldOk(st, w, id))
    && (forall c :: c in st.claims ==> ClaimOk(st, c))
    && NoDup(st.claims)
  }

  /** Locks come only from selecting open rows. */
  lemma LockOrigin(st: State, s: Step, w: nat, id: Id)
    requires Enabled(st, s) && LockedBy(Do(st, s), w, id)
    ensures LockedBy(st, w, id) || (s.Select? && w == s.w && id in s.batch && id in Elems(s.batch))
  {
  }

  lemma SelectedOpen(st: State, s: Step, id: Id)
    requires s.Select? && Enabled(st, s) && id in s.batch
    ensures id in st.rows && IsDue(st.rows[id], s.now) && forall v :: !LockedBy(st, v, id)
  {
    assert id in Elems(s.batch);
    assert !Locked(st, id);
  }

  lemma StepKeepsHeld(st: State, s: Step, w: nat, id: Id)
    requires Inv(st) && Enabled(st, s)
    ensures HeldOk(Do(st, s), w, id)
  {
    var st' := Do(st, s);
    assert HeldOk(st, w, id);
    if LockedBy(st', w, id) {
      LockOrigin(st, s, w, id);
      if s.Select? && id in s.batch { SelectedOpen(st, s, id); }
      forall v | LockedBy(st', v, id) ensures v == w {
        LockOrigin(st, s, v, id);
      }
      if LockedBy(st, w, id) { assert Locked(st, id); }
      StaysDue(st, s, w, id);
    }
  }

  /** What a worker has locked stays as it was selected until that worker commits. */
  lemma StaysDue(st: State, s: Step, w: nat, id: Id)
    requires Inv(st) && Enabled(st, s) && LockedBy(Do(st, s), w, id)
    requires LockedBy(st, w, id) ==> Locked(st, id) && HeldOk(st, w, id)
    requires s.Select? && id in s.batch ==> id in st.rows && IsDue(st.rows[id], s.now) && forall v :: !LockedBy(st, v, id)
    ensures var st' := Do(st, s);
      && id in st'.rows && IsDue(st'.rows[id], st'.workers[w].now) && st'.workers[w].now <= st'.clock
      && (st'.workers[w].planned.Some? && id in st'.workers[w].planned.value ==> Later(st'.workers[w].planned.value[id], st'.workers[w].now))
  {
    LockOrigin(st, s, w, id);
    if s.Commit? && LockedBy(st, s.w, id) {
      assert s.w == w;
    }
  }

  lemma StepKeepsClaim(st: State, s: Step, c: Claim)
    requires Inv(st) && Enabled(st, s) && SafeWrite(st, s) && c in Do(st, s).claims
    ensures ClaimOk(Do(st, s), c)
  {
    var st' := Do(st, s);
    if c in st.claims { assert ClaimOk(st, c); }
    if s.Commit? {
      var held := st.workers[s.w];
      assert HeldOk(st, s.w, c.id);
      if c.id in held.batch { assert LockedBy(st, s.w, c.id); }
      if c !in st.claims {
        var i :| 0 <= i < |held.batch| && c == Claim(held.batch[i], Instant(st.rows, held.batch[i]));
        assert held.batch[i] in held.batch;
      }
    }
  }

  lemma CommitNoDup(st: State, w: nat)
    requires Inv(st) && Enabled(st, Commit(w))
    ensures NoDup(Do(st, Commit(w)).claims)
  {
    var batch := st.workers[w].batch;
    var new_ := ClaimsOf(st.rows, batch);
    forall i | 0 <= i < |batch| ensures new_[i] !in st.claims {
      assert batch[i] in batch && LockedBy(st, w, batch[i]);
      assert HeldOk(st, w, batch[i]);
      assert !ClaimOk(st, new_[i]);
    }
    forall i, j | 0 <= i < j < |batch| ensures new_[i] != new_[j] {
      assert batch[i] != batch[j];
    }
    var all := st.claims + new_;
    forall i, j | 0 <= i < j < |all| ensures all[i] != all[j] {
      if i < |st.claims| <= j {
        assert st.claims[i] in st.claims && new_[j - |st.claims|] !in st.claims;
      }
    }
  }

  lemma StepKeepsInv(st: State, s: Step)
    requires Inv(st) && Enabled(st, s) && SafeWrite(st, s)
    ensures Inv(Do(st, s))
  {
    var st' := Do(st, s);
    forall w, id ensures HeldOk(st', w, id) { StepKeepsHeld(st, s, w, id); }
    forall c | c in st'.claims ensures ClaimOk(st', c) { StepKeepsClaim(st, s, c); }
    if s.Commit? { CommitNoDup(st, s.w); }
  }

  lemma {:induction false} RunInv(steps: seq<Step>, st: State)
    requires RunsTo(true, steps, st)
    ensures Inv(st)
    decreases |steps|
  {
    hide Enabled, Do, SafeWrite;
    if steps != [] {
      var before :| Last(true, steps, before, st);
      RunInv(steps[..|steps| - 1], before);
      StepKeepsInv(before, steps[|steps| - 1]);
    }
  }

  /** A step keeps the invariant exactly if it is no unsafe write. */
  lemma InvExactly(st: State, s: Step)
    requires Inv(st) && Enabled(st, s)
    ensures Inv(Do(st, s)) <==> SafeWrite(st, s)
  {
    if SafeWrite(st, s) {
      StepKeepsInv(st, s);
    } else {
      var c :| c in st.claims && c.id == s.id && c.instant >= Do(st, s).rows[s.id].nextRunAt.value;
      assert !ClaimOk(Do(st, s), c);
    }
  }

  /** Writing an instant that still lies ahead is safe, and so is inserting a row. */
  lemma AheadIsSafe(st: State, s: Step)
    requires Inv(st)
    requires s.Update? || s.Toggle? ==> Later(s.nextRunAt, st.clock)
    ensures SafeWrite(st, s)
  {
    forall c | c in st.claims ensures c.instant <= st.clock {
      assert ClaimOk(st, c);
    }
  }

  /** In every run, batches in flight are disjoint and no due instant of an automation
      is claimed twice. */
  lemma ClaimedAtMostOnce(steps: seq<Step>, st: State)
    requires RunsTo(true, steps, st)
    ensures forall v, w, id :: LockedBy(st, v, id) && LockedBy(st, w, id) ==> v == w
    ensures forall i, j :: 0 <= i < j < |st.claims| ==> st.claims[i] != st.claims[j]
  {
    RunInv(steps, st);
    forall v, w, id | LockedBy(st, v, id) && LockedBy(st, w, id) ensures v == w {
      assert HeldOk(st, v, id);
    }
  }

  // ------------------------------------------------------- a write that comes late

  lemma Extend(safe: bool, steps: seq<Step>, st: State, s: Step) returns (steps': seq<Step>, st': State)
    requires RunsTo(safe, steps, st) && Enabled(st, s) && (safe ==> SafeWrite(st, s))
    ensures RunsTo(safe, steps', st') && st' == Do(st, s)
  {
    steps', st' := steps + [s], Do(st, s);
    assert (steps + [s])[..|steps|] == steps;
    assert Last(safe, steps + [s], st, Do(st, s));
  }

  /** One worker selects the only row, plans it for `next`, and commits. */
  lemma ClaimAlone(steps: seq<Step>, st: State, id: Id, next: int) returns (steps': seq<Step>, st': State)
    requires RunsTo(false, steps, st) && st.workers == map[] && st.rows.Keys == {id} && IsDue(st.rows[id], st.clock) && next > st.clock
    ensures RunsTo(false, steps', st') && st'.workers == map[] && st'.clock == st.clock
    ensures st'.rows == map[id := st.rows[id].(lastRunAt := Some(st.clock), nextRunAt := Some(next))]
    ensures st'.claims == st.claims + [Claim(id, st.rows[id].nextRunAt.value)]
  {
    hide RunsTo;
    var now, plan := st.clock, map[id := Some(next)];
    OnlyBatch(st, id);
    steps', st' := Extend(false, steps, st, Select(0, now, 1, [id]));
    assert st'.workers == map[0 := Held(now, [id], None)];
    steps', st' := Extend(false, steps', st', Plan(0, plan));
    assert st'.workers == map[0 := Held(now, [id], Some(plan))];
    steps', st' := Extend(false, steps', st', Commit(0));
    assert ClaimsOf(st.rows, [id]) == [Claim(id, Instant(st.rows, id))];
  }

  lemma OnlyBatch(st: State, id: Id)
    requires st.workers == map[] && st.rows.Keys == {id} && IsDue(st.rows[id], st.clock)
    ensures IsBatch(st.rows, Open(st), [id], st.clock, 1)
  {
    forall w ensures !LockedBy(st, w, id) {}
    assert Open(st) == {id} && DueIds(st.rows, st.clock) == {id} && Elems([id]) == {id};
  }

  /** If a user's write may carry an instant that has meanwhile passed, an automation
      paused and resumed around its run is claimed again for the same instant. */
  lemma LateWriteClaimsTwice(id: Id, row: Row) returns (steps: seq<Step>, st: State)
    requires row.isActive && row.nextRunAt == Some(5)
    ensures RunsTo(false, steps, st) && st.claims == [Claim(id, 5), Claim(id, 5)]
  {
    steps, st := [], Empty;
    assert RunsTo(false, steps, st);
    hide RunsTo;
    steps, st := Extend(false, steps, st, Insert(id, row));
    steps, st := Extend(false, steps, st, Tick(10));
    steps, st := ClaimAlone(steps, st, id, 20);
    forall x ensures !Locked(st, x) { assert forall w :: !LockedBy(st, w, x); }
    steps, st := Extend(false, steps, st, Toggle(id, None));
    forall x ensures !Locked(st, x) { assert forall w :: !LockedBy(st, w, x); }
    steps, st := Extend(false, steps, st, Toggle(id, Some(5)));
    steps, st := ClaimAlone(steps, st, id, 20);
  }

  // ------------------------------------------------ exactly which writes are safe

  predicate IsWorkers(s: Step) {
    s.Tick? || s.Select? || s.Plan? || s.Commit? || s.Rollback?
  }

  /** Workers alone take the database from `st` to `st'`. */
  ghost predicate WorkersReach(st: State, steps: seq<Step>, st': State)
    decreases |steps|
  {
    if steps == [] then st' == st
    else IsWorkers(steps[0]) && Enabled(st, steps[0]) && WorkersReach(Do(st, steps[0]), steps[1..], st')
  }

  lemma {:induction false} WorkersKeepInv(st: State, steps: seq<Step>, st': State)
    requires Inv(st) && WorkersReach(st, steps, st')
    ensures Inv(st')
    decreases |steps|
  {
    hide Inv, Enabled, Do;
    if steps != [] {
      StepKeepsInv(st, steps[0]);
      WorkersKeepInv(Do(st, steps[0]), steps[1..], st');
    }
  }

  lemma {:induction false} WorkersConcat(a: State, first: seq<Step>, b: State, more: seq<Step>, c: State)
    requires WorkersReach(a, first, b) && WorkersReach(b, more, c)
    ensures WorkersReach(a, first + more, c)
    decreases |first|
  {
    hide Enabled, Do;
    if first == [] {
      assert first + more == more;
    } else {
      assert (first + more)[0] == first[0] && (first + more)[1..] == first[1..] + more;
      WorkersConcat(Do(a, first[0]), first[1..], b, more, c);
    }
  }

  lemma {:induction false} EarliestOf(rows: Table, pool: set<Id>) returns (first: Id)
    requires pool != {}
    ensures first in pool && forall id :: id in pool ==> Instant(rows, first) <= Instant(rows, id)
    decreases pool
  {
    var one :| one in pool;
    first := one;
    if pool - {one} != {} {
      var other := EarliestOf(rows, pool - {one});
      if Instant(rows, other) < Instant(rows, one) { first := other; }
    }
    forall id | id in pool ensures Instant(rows, first) <= Instant(rows, id) {
      assert id == one || id in pool - {one};
    }
  }

  /** Any set of rows can be brought into due order. */
  lemma {:induction false} Sorted(rows: Table, pool: set<Id>) returns (ids: seq<Id>)
    ensures NoDup(ids) && InOrder(rows, ids) && Elems(ids) == pool
    decreases pool
  {
    if pool == {} {
      ids := [];
    } else {
      var first := EarliestOf(rows, pool);
      var rest := Sorted(rows, pool - {first});
      ids := [first] + rest;
      forall i | 0 <= i < |rest| ensures rest[i] in pool && rest[i] != first {
        assert rest[i] in Elems(rest);
      }
      assert Elems(ids) == pool;
    }
  }

  lemma {:induction false} FreshWorker(ws: set<nat>) returns (w: nat)
    ensures w !in ws && forall v :: v in ws ==> v < w
    decreases ws
  {
    if ws == {} {
      w := 0;
    } else {
      var v :| v in ws;
      var u := FreshWorker(ws - {v});
      w := if v < u then u else v + 1;
      forall x | x in ws ensures x < w {
        assert x == v || x in ws - {v};
      }
    }
  }

  /** A worker claims every open row that is due at `now`; the rows get `next`. */
  lemma ClaimAll(st: State, now: int, next: map<Id, Option<int>>) returns (steps: seq<Step>, st': State, batch: seq<Id>)
    requires now <= st.clock && AfterNow(next, now) && st.rows.Keys <= next.Keys
    ensures WorkersReach(st, steps, st') && Elems(batch) == DueIds(st.rows, now) * Open(st)
    ensures Elems(batch) <= next.Keys && st'.rows == ClaimRows(st.rows, batch, now, next)
    ensures st'.claims == st.claims + ClaimsOf(st.rows, batch) && st'.clock == st.clock && st'.workers == st.workers
  {
    batch := Sorted(st.rows, DueIds(st.rows, now) * Open(st));
    var w := FreshWorker(st.workers.Keys);
    assert forall id :: id in batch ==> id in Elems(batch);
    var select, plan, commit := Select(w, now, |batch|, batch), Plan(w, next), Commit(w);
    assert Enabled(st, select);
    var st1 := Do(st, select);
    assert Enabled(st1, plan);
    var st2 := Do(st1, plan);
    assert Enabled(st2, commit);
    st' := Do(st2, commit);
    assert st2.workers[w] == Held(now, batch, Some(next)) && st2.workers - {w} == st.workers;
    steps := [select, plan, commit];
    ThreeSteps(st, select, plan, commit);
  }

  lemma ThreeSteps(st: State, a: Step, b: Step, c: Step)
    requires IsWorkers(a) && IsWorkers(b) && IsWorkers(c)
    requires Enabled(st, a) && Enabled(Do(st, a), b) && Enabled(Do(Do(st, a), b), c)
    ensures WorkersReach(st, [a, b, c], Do(Do(Do(st, a), b), c))
  {
    hide Enabled, Do, IsWorkers;
    assert [a, b, c][1..] == [b, c] && [b, c][1..] == [c] && [c][1..] == [];
    assert WorkersReach(Do(Do(st, a), b), [c], Do(Do(Do(st, a), b), c));
    assert WorkersReach(Do(st, a), [b, c], Do(Do(Do(st, a), b), c));
  }

  /** A claim for an open due row is among those of the batch. */
  lemma ClaimedIn(rows: Table, batch: seq<Id>, id: Id)
    requires id in batch
    ensures Claim(id, Instant(rows, id)) in ClaimsOf(rows, batch)
  {
    var i :| 0 <= i < |batch| && batch[i] == id;
    assert ClaimsOf(rows, batch)[i] == Claim(id, Instant(rows, id));
  }

  lemma RepeatedClaim(claims: seq<Claim>, more: seq<Claim>, c: Claim)
    requires c in claims && c in more
    ensures !NoDup(claims + more)
  {
    var i :| 0 <= i < |claims| && claims[i] == c;
    var j :| 0 <= j < |more| && more[j] == c;
    assert (claims + more)[i] == (claims + more)[|claims| + j];
  }

  /** An open row whose instant was claimed before is claimed again. */
  lemma ClaimedAgain(st: State, id: Id, at: int) returns (steps: seq<Step>, st': State)
    requires id in Open(st) && st.rows[id].isActive && st.rows[id].nextRunAt == Some(at)
    requires Claim(id, at) in st.claims && at <= st.clock
    ensures WorkersReach(st, steps, st') && !NoDup(st'.claims)
  {
    var next: map<Id, Option<int>> := map x | x in st.rows :: None;
    var batch;
    steps, st', batch := ClaimAll(st, at, next);
    assert id in Elems(batch);
    ClaimedIn(st.rows, batch, id);
    RepeatedClaim(st.claims, ClaimsOf(st.rows, batch), Claim(id, at));
  }

  /** An open row that waits for an instant before a claimed one can be rescheduled to
      the claimed one. */
  lemma ClaimedBefore(st: State, id: Id, at: int, later: int) returns (steps: seq<Step>, st': State)
    requires id in Open(st) && st.rows[id].isActive && st.rows[id].nextRunAt == Some(at) && at < later <= st.clock
    ensures WorkersReach(st, steps, st') && st'.clock == st.clock
    ensures st.claims <= st'.claims && id in Open(st') && st'.rows[id].isActive && st'.rows[id].nextRunAt == Some(later)
  {
    var next: map<Id, Option<int>> := map x | x in st.rows :: if x == id then Some(later) else None;
    var batch;
    steps, st', batch := ClaimAll(st, at, next);
    assert id in Elems(batch);
    assert !Locked(st, id);
    assert forall w :: LockedBy(st', w, id) <==> LockedBy(st, w, id);
  }

  /** After an unsafe write the workers can claim some instant a second time. */
  lemma UnsafeClaimsTwice(st: State, s: Step) returns (steps: seq<Step>, st': State)
    requires Inv(st) && Enabled(st, s) && !SafeWrite(st, s)
    ensures WorkersReach(Do(st, s), steps, st') && !NoDup(st'.claims)
  {
    var st0, id := Do(st, s), s.id;
    var at := st0.rows[id].nextRunAt.value;
    var c :| c in st.claims && c.id == id && at <= c.instant;
    assert ClaimOk(st, c) && c == Claim(id, c.instant);
    assert id in Open(st0) by {
      assert forall w :: LockedBy(st0, w, id) <==> LockedBy(st, w, id);
    }
    hide Inv, Do, Enabled, SafeWrite;
    if at == c.instant {
      steps, st' := ClaimedAgain(st0, id, at);
    } else {
      var first, mid := ClaimedBefore(st0, id, at, c.instant);
      var more;
      more, st' := ClaimedAgain(mid, id, c.instant);
      steps := first + more;
      WorkersConcat(st0, first, mid, more, st');
    }
  }

  /** A user's write is safe exactly if nothing the workers do afterwards claims an
      instant twice. */
  lemma SafeExactly(st: State, s: Step)
    requires Inv(st) && Enabled(st, s)
    ensures SafeWrite(st, s) <==>
            forall steps, st' :: WorkersReach(Do(st, s), steps, st') ==> NoDup(st'.claims)
  {
    if SafeWrite(st, s) {
      StepKeepsInv(st, s);
      forall steps, st' | WorkersReach(Do(st, s), steps, st') ensures NoDup(st'.claims) {
        WorkersKeepInv(Do(st, s), steps, st');
      }
    } else {
      var steps, st' := UnsafeClaimsTwice(st, s);
    }
  }
}
