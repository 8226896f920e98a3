/** What every run keeps about saves, in whatever order commands are executed, and
    exactly when the item sets stay included in the task hash. */
module TaskSaves {
  import opened Collections
  import opened TaskRegistry

  /** A pending save is the only one its task will ever have. */
  ghost predicate SavingOk(st: State, op: Op) {
    op.Saving? ==>
      && st.redis && op.tid in st.made && st.made[op.tid].item == op.item
      && op.tid !in st.saved && st.ops[op] == 1
  }

  /** A member of the set of `i` was made for `i` and saved. */
  ghost predicate MemberSaved(st: State, i: Item, t: Tid) {
    t in Members(st.store, i) ==> i != "" && t in st.saved && t in st.made && st.made[t].item == Some(i)
  }

  ghost predicate SavesOk(st: State) {
    && st.saved <= st.made.Keys && (st.redis || st.saved == {})
    && (forall op :: op in st.ops ==> SavingOk(st, op))
    && st.store.hash.Keys <= st.saved
    && (forall i, t :: MemberSaved(st, i, t))
  }

  lemma NextNotSaving(st: State, op: Op)
    ensures forall o :: o in Next(st, op) ==> !o.Saving?
  {
    hide Members;
  }

  lemma SavingComesFrom(st: State, step: Step, op: Op)
    requires Enabled(st, step) && op in Do(st, step).ops && op.Saving?
    ensures op in st.ops || (step.Create? && op == Saving(step.tid, step.item) && st.redis)
  {
    OpsOnly(st, step);
    hide Do;
    if step.Advance? { NextNotSaving(st, step.op); }
    hide Next, Members;
  }

  /** Until it is executed, a pending save stays the only one. */
  lemma SavingCount(st: State, step: Step, op: Op)
    requires Enabled(st, step) && op in st.ops && op.Saving? && SavingOk(st, op)
    ensures Do(st, step).ops[op] == if step == Advance(op) then 0 else 1
  {
    OpsOnly(st, step);
    hide Do;
    if step.Advance? { NextNotSaving(st, step.op); }
    hide Next, Members;
  }

  lemma NewSavingCount(st: State, step: Step, op: Op)
    requires SavesOk(st) && Enabled(st, step) && step.Create? && op == Saving(step.tid, step.item) && st.redis
    ensures Do(st, step).ops[op] == 1
  {
    assert op in st.ops ==> SavingOk(st, op);
    hide SavesOk, CreateLocal, LocalOf;
  }

  lemma Past(st: State, step: Step)
    requires Enabled(st, step)
    ensures var st' := Do(st, step);
      && st'.redis == st.redis
      && (forall t :: t in st.made ==> t in st'.made && st'.made[t] == st.made[t])
      && (step.Create? ==> step.tid in st'.made && st'.made[step.tid].item == step.item)
      && st'.saved == (if step.Advance? && step.op.Saving? then st.saved + {step.op.tid} else st.saved)
      && st'.finished == (if step.Finish? then st.finished + {step.tid} else st.finished)
  {
    hide OpsAfter, StoreAfter, Members, CreateLocal, StopLocal, CleanLocal, LocalOf, DeleteSet;
  }

  lemma StepKeepsSaving(st: State, step: Step, op: Op)
    requires SavesOk(st) && Enabled(st, step) && op in Do(st, step).ops
    ensures SavingOk(Do(st, step), op)
  {
    Past(st, step);
    if op.Saving? {
      SavingComesFrom(st, step, op);
      if op in st.ops {
        assert SavingOk(st, op);
        assert step.Advance? ==> SavingOk(st, step.op);
        SavingCount(st, step, op);
      } else {
        NewSavingCount(st, step, op);
      }
    }
    hide Do, MemberSaved;
  }

  /** The command saves `t` under item `i`. */
  predicate Joins(op: Op, i: Item, t: Tid) {
    op.Saving? && op.tid == t && op.item == Some(i) && i != ""
  }

  /** Only a save adds to a set, and forgetting a task takes it out of its set. */
  lemma MembersAfter(st: State, step: Step, i: Item, t: Tid)
    requires Enabled(st, step) && t in Members(Do(st, step).store, i)
    ensures t in Members(st.store, i) || (step.Advance? && Joins(step.op, i, t))
    ensures step.Advance? && step.op.Forgetting? && step.op.item == Some(i) && i != "" ==> step.op.tid != t
  {
    if step.Advance? {
      StoreAfterAdvance(st, step.op);
      hide Do, StoreAfter;
      MembersAfterCommand(st.store, step.op, i, t);
    } else {
      QuietSets(st, step);
      hide Do;
    }
  }

  lemma StoreAfterAdvance(st: State, op: Op)
    ensures Do(st, Advance(op)).store == StoreAfter(st.store, op)
  {
    hide OpsAfter, StoreAfter, CleanLocal, LocalOf;
  }

  lemma MembersAfterCommand(s: Store, op: Op, i: Item, t: Tid)
    requires t in Members(StoreAfter(s, op), i)
    ensures t in Members(s, i) || Joins(op, i, t)
    ensures op.Forgetting? && op.item == Some(i) && i != "" ==> op.tid != t
  {
    match op {
      case Saving(u, item) =>
        SaveMembers(s, u, item);
        hide SaveTask, Members;
      case Forgetting(u, item, _) =>
        ForgetMembers(s, u, item);
        hide ForgetTask, Members;
      case _ =>
    }
  }

  lemma HashAfter(st: State, step: Step)
    requires Enabled(st, step)
    ensures Do(st, step).store.hash ==
              if step.Advance? && step.op.Saving? then st.store.hash[step.op.tid := ItemField(step.op.item)]
              else if step.Advance? && step.op.Forgetting? then st.store.hash - {step.op.tid}
              else st.store.hash
  {
    if step.Advance? {
      AdvancePast(st, step.op);
    } else {
      QuietHash(st, step);
    }
    hide Do;
  }

  lemma StepKeepsMember(st: State, step: Step, i: Item, t: Tid)
    requires MemberSaved(st, i, t) && Enabled(st, step) && (step.Advance? ==> SavingOk(st, step.op))
    ensures MemberSaved(Do(st, step), i, t)
  {
    Past(st, step);
    if t in Members(Do(st, step).store, i) { MembersAfter(st, step, i, t); }
    hide Do, Members;
  }

  lemma StepKeepsSaves(st: State, step: Step)
    requires SavesOk(st) && Enabled(st, step)
    ensures SavesOk(Do(st, step))
  {
    var st' := Do(st, step);
    Past(st, step);
    HashAfter(st, step);
    SavedMade(st, step);
    assert step.Advance? ==> SavingOk(st, step.op);
    hide SavingOk, MemberSaved, Do;
    forall op | op in st'.ops ensures SavingOk(st', op) { StepKeepsSaving(st, step, op); }
    forall i, t ensures MemberSaved(st', i, t) {
      assert MemberSaved(st, i, t);
      StepKeepsMember(st, step, i, t);
    }
  }

  lemma SavedMade(st: State, step: Step)
    requires SavesOk(st) && Enabled(st, step)
    ensures Do(st, step).saved <= Do(st, step).made.Keys && (st.redis || Do(st, step).saved == {})
  {
    assert step.Advance? ==> SavingOk(st, step.op);
    Past(st, step);
    hide Do, MemberSaved;
  }

  lemma {:induction false} SavesRun(redis: bool, rules: Rules, steps: seq<Step>, st: State)
    requires RunsTo(redis, rules, steps, st)
    ensures SavesOk(st)
    decreases |steps|
  {
    hide Do, Enabled, Keeps, SavesOk;
    if steps == [] {
      InitialSaves(redis);
    } else {
      var before :| Last(redis, rules, steps, before, st);
      SavesRun(redis, rules, steps[..|steps| - 1], before);
      StepKeepsSaves(before, steps[|steps| - 1]);
    }
  }

  lemma InitialSaves(redis: bool)
    ensures SavesOk(Initial(redis))
  {
  }

  // ------------------------------------------------------------------- inclusion

  /** A clean-up that names the item of each set holding its task; any other step is
      harmless. */
  ghost predicate NamesItem(st: State, step: Step) {
    step.Advance? && step.op.Forgetting? ==>
      forall i :: step.op.tid in Members(st.store, i) ==> step.op.item == Some(i)
  }

  /** Whatever the timing, one step keeps the sets included in the hash exactly if it
      does not forget a task and leave it in a set. */
  lemma StepKeepsInclusion(st: State, step: Step)
    requires SavesOk(st) && Enabled(st, step) && SetsInHash(st.store)
    ensures SetsInHash(Do(st, step).store) <==> NamesItem(st, step)
  {
    if step.Advance? {
      assert SavingOk(st, step.op);
      StoreAfterAdvance(st, step.op);
      hide Do, SavesOk;
      CommandKeepsInclusion(st.store, step.op);
    } else {
      QuietSets(st, step);
      QuietHash(st, step);
      hide Do, Enabled, SavesOk;
      FewerMembers(st.store, Do(st, step).store);
    }
  }

  lemma CommandKeepsInclusion(s: Store, op: Op)
    requires SetsInHash(s) && (op.Saving? ==> op.tid !in s.hash)
    ensures SetsInHash(StoreAfter(s, op)) <==>
            (op.Forgetting? ==> forall i :: op.tid in Members(s, i) ==> op.item == Some(i))
  {
    match op {
      case Saving(t, item) => SaveKeeps(s, t, item);
      case Forgetting(t, item, _) => ForgetInclusion(s, t, item);
      case Deleting(_, item, _) => if Given(item) { FewerMembers(s, DeleteSet(s, item.value)); }
      case _ =>
    }
    hide SaveTask, ForgetTask, SetsInHash;
  }

  lemma ForgetInclusion(s: Store, t: Tid, item: Option<Item>)
    requires SetsInHash(s)
    ensures SetsInHash(ForgetTask(s, t, item)) <==> forall i :: t in Members(s, i) ==> item == Some(i)
  {
    var s' := ForgetTask(s, t, item);
    ForgetMembers(s, t, item);
    assert s'.hash == s.hash - {t};
    hide ForgetTask, Members;
    if forall i :: t in Members(s, i) ==> item == Some(i) {
      forall i, x | x in Members(s', i) ensures Filed(s', x, i) {
        assert x in Members(s, i) && Filed(s, x, i);
      }
    } else {
      var i :| t in Members(s, i) && item != Some(i);
      assert t in Members(s', i) && !Filed(s', t, i);
    }
  }
}
