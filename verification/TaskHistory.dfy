/** What each registry holds at the end of a run, told by the commands that were
    executed, under whatever rules. */
module TaskHistory {
  import opened Collections
  import opened TaskRegistry
  import opened TaskSaves
  import opened TaskDrain

  // ----------------------------------------------------------------------- Redis

  /** The item of the last save of `t`, unless the task was forgotten since. */
  function SavedAs(steps: seq<Step>, t: Tid): Option<Option<Item>> {
    if steps == [] then None else
    var last := steps[|steps| - 1];
    if last.Advance? && last.op.tid == t && last.op.Saving? then Some(last.op.item)
    else if last.Advance? && last.op.tid == t && last.op.Forgetting? then None
    else SavedAs(steps[..|steps| - 1], t)
  }

  /** In any run the hash holds exactly the tasks whose last command was a save, under
      the item of that save, or an empty one if there was none. */
  lemma {:induction false} HashIsLastWord(redis: bool, rules: Rules, steps: seq<Step>, st: State, t: Tid)
    requires RunsTo(redis, rules, steps, st)
    ensures t in st.store.hash <==> SavedAs(steps, t).Some?
    ensures t in st.store.hash ==> st.store.hash[t] == match SavedAs(steps, t).value case Some(i) => i case None => ""
    decreases |steps|
  {
    hide Do, Enabled, Keeps;
    if steps != [] {
      var before :| Last(redis, rules, steps, before, st);
      HashIsLastWord(redis, rules, steps[..|steps| - 1], before, t);
      HashAfter(before, steps[|steps| - 1]);
    }
  }

  /** The last command about `t` and the set of `i` was a save: neither a clean-up of
      the task nor a delete of the set came after it. */
  predicate JoinedLast(steps: seq<Step>, i: Item, t: Tid) {
    if steps == [] then false else
    var last := steps[|steps| - 1];
    if last.Advance? && last.op == Saving(t, Some(i)) then true
    else if last.Advance? && last.op.Forgetting? && last.op.tid == t && last.op.item == Some(i) then false
    else if last.Advance? && last.op.Deleting? && last.op.item == Some(i) then false
    else JoinedLast(steps[..|steps| - 1], i, t)
  }

  /** In any run the set of an item holds exactly those tasks; an atomic count and
      delete changes nothing. */
  lemma {:induction false} SetIsLastWord(redis: bool, rules: Rules, steps: seq<Step>, st: State, i: Item, t: Tid)
    requires RunsTo(redis, rules, steps, st)
    ensures t in Members(st.store, i) <==> i != "" && JoinedLast(steps, i, t)
    decreases |steps|
  {
    hide Do, Enabled, Keeps;
    if steps == [] {
      NothingAtFirst(redis, i);
    } else {
      var before :| Last(redis, rules, steps, before, st);
      SetIsLastWord(redis, rules, steps[..|steps| - 1], before, i, t);
      MemberAfter(before, steps[|steps| - 1], i, t);
      hide Members;
    }
  }

  lemma NothingAtFirst(redis: bool, i: Item)
    ensures Members(Initial(redis).store, i) == {}
  {
  }

  lemma MemberAfter(st: State, step: Step, i: Item, t: Tid)
    requires Enabled(st, step)
    ensures t in Members(Do(st, step).store, i) <==>
              if step.Advance? && step.op == Saving(t, Some(i)) then i != "" || t in Members(st.store, i)
              else if step.Advance? && i != "" && step.op.Forgetting? && step.op.tid == t && step.op.item == Some(i) then false
              else if step.Advance? && i != "" && step.op.Deleting? && step.op.item == Some(i) then false
              else t in Members(st.store, i)
  {
    if step.Advance? {
      StoreAfterAdvance(st, step.op);
      hide Do;
      MemberAfterCommand(st.store, step.op, i, t);
    } else {
      QuietMembers(st, step, i);
      hide Do;
    }
  }

  lemma QuietMembers(st: State, step: Step, i: Item)
    requires !step.Advance?
    ensures Members(Do(st, step).store, i) == Members(st.store, i)
  {
    hide OpsAfter, LocalOf, CreateLocal, StopLocal;
  }

  lemma MemberAfterCommand(s: Store, op: Op, i: Item, t: Tid)
    ensures t in Members(StoreAfter(s, op), i) <==>
              if op == Saving(t, Some(i)) then i != "" || t in Members(s, i)
              else if i != "" && op.Forgetting? && op.tid == t && op.item == Some(i) then false
              else if i != "" && op.Deleting? && op.item == Some(i) then false
              else t in Members(s, i)
  {
    match op {
      case Saving(u, item) =>
        SaveMembers(s, u, item);
        hide SaveTask, Members;
      case Forgetting(u, item, _) =>
        ForgetMembers(s, u, item);
        hide ForgetTask, Members;
      case _ =>
    }
  }

  // ------------------------------------------------------------- local registries

  /** Process `p` created the task, and neither a stop there nor its clean-up came
      after that. */
  predicate RegisteredLast(steps: seq<Step>, p: Pid, t: Tid) {
    if steps == [] then false else
    var last := steps[|steps| - 1];
    if last.Create? && last.pid == p && last.tid == t then true
    else if last == StopHere(p, t) then false
    else if last.Advance? && last.op.Tidying? && last.op.pid == p && last.op.tid == t then false
    else RegisteredLast(steps[..|steps| - 1], p, t)
  }

  /** In any run `tasks` holds exactly those. */
  lemma {:induction false} TasksAreLastWord(redis: bool, rules: Rules, steps: seq<Step>, st: State, p: Pid, t: Tid)
    requires RunsTo(redis, rules, steps, st)
    ensures t in LocalOf(st, p).tasks <==> RegisteredLast(steps, p, t)
    decreases |steps|
  {
    hide Do, Enabled, Keeps, LocalOf;
    if steps == [] {
      NoTasksAtFirst(redis, p);
    } else {
      var before :| Last(redis, rules, steps, before, st);
      TasksAreLastWord(redis, rules, steps[..|steps| - 1], before, p, t);
      LocalAfter(before, steps[|steps| - 1], p);
    }
  }

  lemma NoTasksAtFirst(redis: bool, p: Pid)
    ensures LocalOf(Initial(redis), p) == Local({}, map[])
  {
  }

  /** What a step does to the registry of `p`. */
  lemma LocalAfter(st: State, step: Step, p: Pid)
    ensures LocalOf(Do(st, step), p) ==
              match step
              case Create(q, u, item) => if q == p then CreateLocal(LocalOf(st, p), u, item) else LocalOf(st, p)
              case StopHere(q, u) => if q == p then StopLocal(LocalOf(st, p), u) else LocalOf(st, p)
              case Advance(Tidying(u, item, q)) => if q == p then CleanLocal(LocalOf(st, p), u, item) else LocalOf(st, p)
              case _ => LocalOf(st, p)
  {
    hide OpsAfter, StoreAfter, Members, CreateLocal, StopLocal, CleanLocal, DeleteSet;
  }

  function Except(s: seq<Tid>, t: Tid): seq<Tid> {
    if s == [] then [] else Except(s[..|s| - 1], t) + (if s[|s| - 1] == t then [] else [s[|s| - 1]])
  }

  /** The tasks process `p` created for `item`, in that order, less those cleaned up;
      without a proper item nothing is ever cleaned up. */
  function CreatedFor(steps: seq<Step>, p: Pid, item: Option<Item>): seq<Tid> {
    if steps == [] then [] else
    var before, last := CreatedFor(steps[..|steps| - 1], p, item), steps[|steps| - 1];
    if last.Create? && last.pid == p && last.item == item then before + [last.tid]
    else if last.Advance? && last.op.Tidying? && last.op.pid == p && last.op.item == item && item != None && item != Some("")
    then Except(before, last.op.tid)
    else before
  }

  /** In any run the list of an item is exactly that. */
  lemma {:induction false} ListIsHistory(redis: bool, rules: Rules, steps: seq<Step>, st: State, p: Pid, item: Option<Item>)
    requires RunsTo(redis, rules, steps, st)
    ensures Listed(LocalOf(st, p), item) == CreatedFor(steps, p, item)
    decreases |steps|
  {
    hide Do, Enabled, Keeps, LocalOf, Listed, CreateLocal, StopLocal, CleanLocal, LocalInv;
    if steps == [] {
      NoTasksAtFirst(redis, p);
      NothingListed(item);
    } else {
      var before :| Last(redis, rules, steps, before, st);
      var front, last := steps[..|steps| - 1], steps[|steps| - 1];
      ListIsHistory(redis, rules, front, before, p, item);
      LocalRun(redis, rules, front, before);
      LocalAfter(before, last, p);
      ListsOfLocal(before, p);
      ListAfter(LocalOf(before, p), last, item);
    }
  }

  lemma NothingListed(item: Option<Item>)
    ensures Listed(Local({}, map[]), item) == []
  {
  }

  lemma ListsOfLocal(st: State, p: Pid)
    requires LocalInv(st)
    ensures ListsOk(LocalOf(st, p))
  {
  }

  lemma ListAfter(l: Local, step: Step, item: Option<Item>)
    requires ListsOk(l)
    ensures forall u, i :: Listed(CreateLocal(l, u, i), item) == if i == item then Listed(l, item) + [u] else Listed(l, item)
    ensures forall u :: Listed(StopLocal(l, u), item) == Listed(l, item)
    ensures forall u, i :: Listed(CleanLocal(l, u, i), item) ==
              if i == item && i != None && i != Some("") then Except(Listed(l, item), u) else Listed(l, item)
  {
    forall u, i ensures Listed(CleanLocal(l, u, i), item) ==
              if i == item && i != None && i != Some("") then Except(Listed(l, item), u) else Listed(l, item)
    {
      if item in l.items {
        WithoutIsExcept(l.items[item], u);
        WithoutElems(l.items[item], u);
      }
    }
  }

  /** Removing the first of distinct tasks removes the task. */
  lemma {:induction false} WithoutIsExcept(s: seq<Tid>, t: Tid)
    requires NoDup(s)
    ensures Without(s, t) == Except(s, t)
  {
    if s != [] {
      var front, last := s[..|s| - 1], s[|s| - 1];
      assert s == front + [last];
      NoDupFront(front, last);
      WithoutIsExcept(front, t);
      if last == t { WithoutElems(front, t); }
    }
  }
}
