/** What a run of users and workers leaves, told by its steps. */
module AutomationHistory {
  import opened Forest
  import opened Collections
  import opened Automations

  function ClockOver(steps: seq<Step>): int {
    if steps == [] then 0
    else match steps[|steps| - 1]
      case Tick(to) => to
      case _ => ClockOver(steps[..|steps| - 1])
  }

  /** What worker `w` holds: its last selection and the plan made since, until it
      commits or rolls back. */
  function HeldOver(steps: seq<Step>, w: nat): Option<Held> {
    if steps == [] then None else
    var before := HeldOver(steps[..|steps| - 1], w);
    match steps[|steps| - 1]
    case Select(v, now, _, batch) => if v == w then Some(Held(now, batch, None)) else before
    case Plan(v, next) => if v == w && before.Some? then Some(Held(before.value.now, before.value.batch, Some(next))) else before
    case Commit(v) => if v == w then None else before
    case Rollback(v) => if v == w then None else before
    case _ => before
  }

  /** A worker commits: the row was last run when the worker looked at the clock, and
      runs next as planned, if it is in the worker's batch. */
  function CommittedRow(row: Row, held: Held, id: Id): Row {
    if id in held.batch && held.planned.Some? && id in held.planned.value
    then Row(row.userId, row.name, row.rrule, row.isActive, Some(held.now), held.planned.value[id], row.updatedAt)
    else row
  }

  /** What is stored under `id`. */
  function RowOver(steps: seq<Step>, id: Id): Option<Row> {
    if steps == [] then None else
    var front := steps[..|steps| - 1];
    var before := RowOver(front, id);
    match steps[|steps| - 1]
    case Insert(x, row) => if x == id then Some(row) else before
    case Delete(x) => if x == id then None else before
    case Update(x, name, rrule, isActive, nextRunAt) =>
      if x == id && before.Some? then
        var row := before.value;
        Some(Row(row.userId, name, rrule, if isActive.Some? then isActive.value else row.isActive, row.lastRunAt, nextRunAt, ClockOver(front)))
      else before
    case Toggle(x, nextRunAt) =>
      if x == id && before.Some? then
        var row := before.value;
        Some(Row(row.userId, row.name, row.rrule, !row.isActive, row.lastRunAt, if row.isActive then None else nextRunAt, ClockOver(front)))
      else before
    case Commit(w) =>
      if before.Some? && HeldOver(front, w).Some? then Some(CommittedRow(before.value, HeldOver(front, w).value, id)) else before
    case _ => before
  }

  /** The instants handed out, in the order of the commits. */
  function ClaimsOver(steps: seq<Step>): seq<Claim> {
    if steps == [] then [] else
    var front := steps[..|steps| - 1];
    match steps[|steps| - 1]
    case Commit(w) =>
      (match HeldOver(front, w)
       case Some(held) => ClaimsOver(front) + seq(|held.batch|, i requires 0 <= i < |held.batch| => ClaimOf(RowOver(front, held.batch[i]), held.batch[i]))
       case None => ClaimsOver(front))
    case _ => ClaimsOver(front)
  }

  function ClaimOf(row: Option<Row>, id: Id): Claim {
    Claim(id, if row.Some? && row.value.nextRunAt.Some? then row.value.nextRunAt.value else 0)
  }

  ghost predicate RowTold(st: State, steps: seq<Step>, id: Id) {
    RowOver(steps, id) == if id in st.rows then Some(st.rows[id]) else None
  }

  ghost predicate HeldTold(st: State, steps: seq<Step>, w: nat) {
    HeldOver(steps, w) == if w in st.workers then Some(st.workers[w]) else None
  }

  lemma StepClock(st: State, s: Step, front: seq<Step>)
    requires st.clock == ClockOver(front)
    ensures Do(st, s).clock == ClockOver(front + [s])
  {
    assert (front + [s])[..|front|] == front;
    hide ClaimRows, ClaimsOf, Updated, Toggled;
  }

  lemma StepHeld(st: State, s: Step, front: seq<Step>, w: nat)
    requires Enabled(st, s) && HeldTold(st, front, w)
    ensures HeldTold(Do(st, s), front + [s], w)
  {
    assert (front + [s])[..|front|] == front;
    hide ClaimRows, ClaimsOf, Updated, Toggled;
  }

  lemma StepRow(st: State, s: Step, front: seq<Step>, id: Id)
    requires Enabled(st, s) && RowTold(st, front, id) && st.clock == ClockOver(front) && forall w :: HeldTold(st, front, w)
    ensures RowTold(Do(st, s), front + [s], id)
  {
    assert (front + [s])[..|front|] == front;
    if s.Commit? { assert HeldTold(st, front, s.w); }
    hide ClaimsOf, ClockOver, HeldOver, IsBatch;
  }

  lemma StepClaims(st: State, s: Step, front: seq<Step>)
    requires Enabled(st, s) && st.claims == ClaimsOver(front)
    requires (forall w :: HeldTold(st, front, w)) && forall id :: RowTold(st, front, id)
    ensures Do(st, s).claims == ClaimsOver(front + [s])
  {
    assert (front + [s])[..|front|] == front;
    if s.Commit? {
      assert HeldTold(st, front, s.w);
      var batch := st.workers[s.w].batch;
      forall i | 0 <= i < |batch| ensures ClaimsOf(st.rows, batch)[i] == ClaimOf(RowOver(front, batch[i]), batch[i]) {
        assert RowTold(st, front, batch[i]);
      }
    }
    hide ClaimRows, RowOver, ClockOver, HeldOver, IsBatch, Updated, Toggled;
  }

  /** In any run, with safe writes or not, clock, rows, locks and claims are what the
      steps tell. */
  lemma {:induction false} RunIsHistory(safe: bool, steps: seq<Step>, st: State)
    requires RunsTo(safe, steps, st)
    ensures st.clock == ClockOver(steps) && st.claims == ClaimsOver(steps)
    ensures forall w :: HeldTold(st, steps, w)
    ensures forall id :: RowTold(st, steps, id)
    decreases |steps|
  {
    if steps != [] {
      var before :| Last(safe, steps, before, st);
      var front, last := steps[..|steps| - 1], steps[|steps| - 1];
      RunIsHistory(safe, front, before);
      assert steps == front + [last];
      hide *;
      StepClock(before, last, front);
      forall w ensures HeldTold(st, steps, w) { StepHeld(before, last, front, w); }
      forall id ensures RowTold(st, steps, id) { StepRow(before, last, front, id); }
      StepClaims(before, last, front);
    }
  }
}
