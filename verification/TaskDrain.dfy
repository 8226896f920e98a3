/** What is left when tasks have finished: the local registries in every run, and Redis
    in runs that save in time. */
module TaskDrain {
  import opened Collections
  import opened TaskRegistry
  import opened TaskSaves

  /** The done-callback of `t` is on its way to the local registry. */
  ghost predicate OnItsWay(st: State, t: Tid) {
    t in st.made &&
    var m := st.made[t];
    || Forgetting(t, m.item, Some(m.pid)) in st.ops
    || Counting(t, m.item, Some(m.pid)) in st.ops
    || Deleting(t, m.item, Some(m.pid)) in st.ops
    || Tidying(t, m.item, m.pid) in st.ops
  }

  ghost predicate Alive(st: State, t: Tid) {
    t in st.made && (t in st.finished ==> OnItsWay(st, t))
  }

  /** What the local registry of `p` holds about `t`. */
  ghost predicate LocalOk(st: State, p: Pid, t: Tid) {
    var l := LocalOf(st, p);
    && (t in l.tasks ==> Alive(st, t) && st.made[t].pid == p && t in Listed(l, st.made[t].item))
    && (forall i :: Given(i) && t in Listed(l, i) ==> Alive(st, t) && st.made[t] == Made(p, i))
    && (forall i :: !Given(i) ==> (t in Listed(l, i) <==> t in st.made && st.made[t] == Made(p, i)))
  }

  ghost predicate InRedis(s: Store, t: Tid) {
    t in s.hash || exists i :: t in Members(s, i)
  }

  /** What Redis still holds about a finished task is about to be forgotten. */
  ghost predicate RedisAlive(st: State, t: Tid) {
    InRedis(st.store, t) && t in st.finished ==>
      t in st.made && Forgetting(t, st.made[t].item, Some(st.made[t].pid)) in st.ops
  }

  /** The task has finished, and process `pid` made it for `item`. */
  ghost predicate Owed(st: State, t: Tid, item: Option<Item>, pid: Pid) {
    t in st.made && st.made[t] == Made(pid, item) && t in st.finished
  }

  /** A pending operation that ends in a local clean-up comes from a done-callback. */
  ghost predicate CallbackOk(st: State, op: Op) {
    match op
    case Forgetting(t, item, back) => back.Some? ==> Owed(st, t, item, back.value)
    case Counting(t, item, back) => back.Some? ==> Owed(st, t, item, back.value)
    case Deleting(t, item, back) => back.Some? ==> Owed(st, t, item, back.value)
    case Tidying(t, item, pid) => Owed(st, t, item, pid)
    case _ => true
  }

  ghost predicate CallbacksOk(st: State) {
    st.finished <= st.made.Keys && forall op :: op in st.ops ==> CallbackOk(st, op)
  }

  /** What every run keeps in the local registries, whatever rules it keeps. */
  ghost predicate LocalInv(st: State) {
    && CallbacksOk(st)
    && (forall p :: ListsOk(LocalOf(st, p)))
    && (forall p, t :: LocalOk(st, p, t))
  }

  /** What runs keep in Redis whose tasks finish only after they were saved. */
  ghost predicate DrainInv(st: State) {
    && SavesOk(st) && NoEmptySets(st.store)
    && (st.redis ==> st.finished <= st.saved)
    && (forall t :: RedisAlive(st, t))
  }

  /** Made tasks stay made, finished ones stay finished. */
  lemma PastGrows(st: State, step: Step)
    requires Enabled(st, step)
    ensures var st' := Do(st, step);
      && (forall t :: t in st.made ==> t in st'.made && st'.made[t] == st.made[t])
      && st'.finished == (if step.Finish? then st.finished + {step.tid} else st.finished)
      && (st.finished <= st.made.Keys ==> st'.finished <= st'.made.Keys)
  {
    hide OpsAfter, StoreAfter, Members, CreateLocal, StopLocal, CleanLocal, LocalOf, DeleteSet;
  }

  lemma CallbackStays(st: State, st': State, o: Op)
    requires CallbackOk(st, o)
    requires forall t :: t in st.made ==> t in st'.made && st'.made[t] == st.made[t]
    requires st.finished <= st'.finished
    ensures CallbackOk(st', o)
  {
  }

  /** An operation hands its callback on. */
  lemma NextCallback(st: State, op: Op, o: Op)
    requires CallbackOk(st, op) && (o in Next(st, op) || (op.Counting? && o in Back(op.tid, op.item, op.back)))
    ensures CallbackOk(st, o)
  {
    hide Members, Owed;
  }

  /** An operation that a step adds ends in a clean-up only if the task has finished. */
  lemma NewCallback(st: State, step: Step, o: Op)
    requires Enabled(st, step) && CallbacksOk(st) && o in OpsAfter(st, step) && o !in st.ops
    ensures CallbackOk(Do(st, step), o)
  {
    PastGrows(st, step);
    match step {
      case Advance(op) =>
        NextCallback(st, op, o);
        hide Do;
        CallbackStays(st, Do(st, step), o);
      case CountAndDelete(op) =>
        NextCallback(st, op, o);
        hide Do;
        CallbackStays(st, Do(st, step), o);
      case _ => hide Do;
    }
  }

  lemma StepKeepsCallbacks(st: State, step: Step)
    requires Enabled(st, step) && CallbacksOk(st)
    ensures CallbacksOk(Do(st, step))
  {
    var st' := Do(st, step);
    PastGrows(st, step);
    OpsOnly(st, step);
    hide Do, OpsAfter, Enabled;
    forall o | o in st'.ops ensures CallbackOk(st', o) {
      if o in st.ops {
        CallbackStays(st, st', o);
      } else {
        NewCallback(st, step, o);
      }
    }
  }

  lemma OtherOpsStay(st: State, step: Step, o: Op)
    requires Enabled(st, step) && o in st.ops
    requires step.Advance? || step.CountAndDelete? ==> o != step.op
    ensures o in Do(st, step).ops
  {
    OpsOnly(st, step);
    hide Do, Next, Back;
  }

  /** Any step but the last one keeps a done-callback on its way. */
  lemma StaysOnItsWay(st: State, step: Step, t: Tid)
    requires Enabled(st, step) && OnItsWay(st, t)
    requires step != Advance(Tidying(t, st.made[t].item, st.made[t].pid))
    ensures OnItsWay(Do(st, step), t)
  {
    var m, st' := st.made[t], Do(st, step);
    var o :| o in st.ops && o in {Forgetting(t, m.item, Some(m.pid)), Counting(t, m.item, Some(m.pid)),
                                  Deleting(t, m.item, Some(m.pid)), Tidying(t, m.item, m.pid)};
    MadeStays(st, step, t);
    if (step.Advance? || step.CountAndDelete?) && step.op == o {
      MovesOn(st, step, t);
    } else {
      OtherOpsStay(st, step, o);
    }
  }

  lemma MadeStays(st: State, step: Step, t: Tid)
    requires Enabled(st, step) && t in st.made
    ensures t in Do(st, step).made && Do(st, step).made[t] == st.made[t]
  {
  }

  lemma MovesOn(st: State, step: Step, t: Tid)
    requires Enabled(st, step) && t in st.made && (step.Advance? || step.CountAndDelete?)
    requires var m := st.made[t];
      step.op in {Forgetting(t, m.item, Some(m.pid)), Counting(t, m.item, Some(m.pid)), Deleting(t, m.item, Some(m.pid))}
    ensures OnItsWay(Do(st, step), t)
  {
    hide StoreAfter, CleanLocal, Members;
    var m, st' := st.made[t], Do(st, step);
    var back := Back(t, m.item, Some(m.pid));
    assert back == multiset{Tidying(t, m.item, m.pid)};
    assert st'.made == st.made;
    if step.CountAndDelete? {
      assert st'.ops == st.ops - multiset{step.op} + back;
      assert Tidying(t, m.item, m.pid) in st'.ops;
    } else {
      assert st'.ops == st.ops - multiset{step.op} + Next(st, step.op);
      NextOnItsWay(st, step.op, t);
    }
  }

  lemma NextOnItsWay(st: State, op: Op, t: Tid)
    requires t in st.made
    requires var m := st.made[t];
      op in {Forgetting(t, m.item, Some(m.pid)), Counting(t, m.item, Some(m.pid)), Deleting(t, m.item, Some(m.pid))}
    ensures var m, next := st.made[t], Next(st, op);
      Counting(t, m.item, Some(m.pid)) in next || Deleting(t, m.item, Some(m.pid)) in next || Tidying(t, m.item, m.pid) in next
  {
    hide Members;
  }

  lemma StaysAlive(st: State, step: Step, t: Tid)
    requires Enabled(st, step) && Alive(st, t)
    requires step != Advance(Tidying(t, st.made[t].item, st.made[t].pid))
    ensures Alive(Do(st, step), t) && Do(st, step).made[t] == st.made[t]
  {
    if t in st.finished {
      StaysOnItsWay(st, step, t);
    } else if step == Finish(t) {
      var m, st' := st.made[t], Do(st, step);
      assert Forgetting(t, m.item, Some(m.pid)) in st'.ops || Tidying(t, m.item, m.pid) in st'.ops;
    }
  }

  lemma StepKeepsLists(st: State, step: Step, p: Pid)
    requires LocalInv(st) && Enabled(st, step)
    ensures ListsOk(LocalOf(Do(st, step), p))
  {
    var l := LocalOf(st, p);
    assert ListsOk(l);
    hide CallbacksOk, ListsOk, CleanLocal, CreateLocal, OnItsWay;
    if step.Create? {
      assert LocalOk(st, p, step.tid);
      CreateKeepsLists(l, step.tid, step.item);
      hide LocalInv, OpsAfter;
    } else if step.Advance? && step.op.Tidying? {
      CleanKeepsLists(l, step.op.tid, step.op.item);
      hide LocalInv, OpsAfter;
    } else {
      QuietLocals(st, step, p);
      hide LocalInv, Do;
      SameLists(l, LocalOf(Do(st, step), p));
    }
  }

  lemma SameLists(l: Local, l': Local)
    requires ListsOk(l) && l'.items == l.items
    ensures ListsOk(l')
  {
  }

  lemma CreateKeepsLists(l: Local, t: Tid, item: Option<Item>)
    requires ListsOk(l) && t !in Listed(l, item)
    ensures ListsOk(CreateLocal(l, t, item))
  {
    NoDupAppend(Listed(l, item), t);
  }

  /** The task's own clean-up takes it out of the registry. */
  lemma OwnTidyLocal(st: State, p: Pid, t: Tid)
    requires LocalOk(st, p, t) && ListsOk(LocalOf(st, p)) && t in st.made
    ensures LocalOk(Do(st, Advance(Tidying(t, st.made[t].item, st.made[t].pid))), p, t)
  {
    CleanKeepsLists(LocalOf(st, p), t, st.made[t].item);
  }

  lemma StepKeepsLocal(st: State, step: Step, p: Pid, t: Tid)
    requires LocalInv(st) && Enabled(st, step)
    ensures LocalOk(Do(st, step), p, t)
  {
    assert ListsOk(LocalOf(st, p)) && LocalOk(st, p, t);
    hide LocalInv, OnItsWay, LocalOk, ListsOk, Do;
    if t in st.made && step == Advance(Tidying(t, st.made[t].item, st.made[t].pid)) {
      OwnTidyLocal(st, p, t);
    } else {
      if Alive(st, t) { StaysAlive(st, step, t); }
      if step.Create? {
        CreatedAlive(st, step.pid, step.tid, step.item);
        CreateKeepsLocal(st, step.pid, step.tid, step.item, p, t);
      } else if step.Advance? && step.op.Tidying? {
        TidyingKnown(st, step.op);
        TidyKeepsLocal(st, step.op, p, t);
      } else {
        QuietLocals(st, step, p);
        SameListsLocal(st, Do(st, step), p, t);
      }
    }
  }

  /** Only creating and tidying up touch the lists of a local registry. */
  lemma QuietLocals(st: State, step: Step, p: Pid)
    requires !step.Create? && !(step.Advance? && step.op.Tidying?)
    ensures var st' := Do(st, step);
      && st'.made == st.made && LocalOf(st', p).items == LocalOf(st, p).items
      && LocalOf(st', p).tasks <= LocalOf(st, p).tasks
  {
    QuietRegistries(st, step);
    hide Do;
  }

  lemma QuietRegistries(st: State, step: Step)
    requires !step.Create? && !(step.Advance? && step.op.Tidying?)
    ensures Do(st, step).made == st.made
    ensures Do(st, step).locals ==
              if step.StopHere? then st.locals[step.pid := StopLocal(LocalOf(st, step.pid), step.tid)] else st.locals
  {
    hide OpsAfter, StoreAfter, Members, StopLocal, CleanLocal, CreateLocal, LocalOf, DeleteSet;
  }

  lemma SameListsLocal(st: State, st': State, p: Pid, t: Tid)
    requires LocalOk(st, p, t) && st'.made == st.made && (Alive(st, t) ==> Alive(st', t))
    requires LocalOf(st', p).items == LocalOf(st, p).items && LocalOf(st', p).tasks <= LocalOf(st, p).tasks
    ensures LocalOk(st', p, t)
  {
    assert forall i :: Listed(LocalOf(st', p), i) == Listed(LocalOf(st, p), i);
  }

  lemma CreateKeepsLocal(st: State, q: Pid, u: Tid, item: Option<Item>, p: Pid, t: Tid)
    requires LocalOk(st, p, t) && u !in st.made
    requires var st' := Do(st, Create(q, u, item)); (Alive(st, t) ==> Alive(st', t)) && Alive(st', u)
    ensures LocalOk(Do(st, Create(q, u, item)), p, t)
  {
    hide OnItsWay;
    var l, st' := LocalOf(st, p), Do(st, Create(q, u, item));
    forall i ensures Listed(LocalOf(st', p), i) == if p == q && i == item then Listed(l, i) + [u] else Listed(l, i) {}
  }

  lemma TidyKeepsLocal(st: State, op: Op, p: Pid, t: Tid)
    requires LocalOk(st, p, t) && ListsOk(LocalOf(st, p)) && op.Tidying? && op.tid in st.made && st.made[op.tid] == Made(op.pid, op.item)
    requires op.tid != t && (Alive(st, t) ==> Alive(Do(st, Advance(op)), t))
    ensures LocalOk(Do(st, Advance(op)), p, t)
  {
    hide OnItsWay;
    CleanKeepsLists(LocalOf(st, p), op.tid, op.item);
    var l, l' := LocalOf(st, p), LocalOf(Do(st, Advance(op)), p);
    assert forall i :: t in Listed(l', i) <==> t in Listed(l, i);
  }

  lemma TidyingKnown(st: State, op: Op)
    requires LocalInv(st) && op in st.ops && op.Tidying?
    ensures op.tid in st.made && st.made[op.tid] == Made(op.pid, op.item)
  {
    assert CallbackOk(st, op);
  }

  lemma CreatedAlive(st: State, p: Pid, t: Tid, item: Option<Item>)
    requires LocalInv(st) && t !in st.made
    ensures Alive(Do(st, Create(p, t, item)), t)
  {
    hide OpsAfter, LocalOk, ListsOk;
  }

  /** In every run, under whatever rules, the local registries are kept. */
  lemma {:induction false} LocalRun(redis: bool, rules: Rules, steps: seq<Step>, st: State)
    requires RunsTo(redis, rules, steps, st)
    ensures LocalInv(st)
    decreases |steps|
  {
    hide Do, Enabled, Keeps, LocalInv;
    if steps == [] {
      InitialLocal(redis);
    } else {
      var before :| Last(redis, rules, steps, before, st);
      LocalRun(redis, rules, steps[..|steps| - 1], before);
      StepKeepsLocals(before, steps[|steps| - 1]);
    }
  }

  lemma InitialLocal(redis: bool)
    ensures LocalInv(Initial(redis))
  {
  }

  lemma StepKeepsLocals(st: State, step: Step)
    requires LocalInv(st) && Enabled(st, step)
    ensures LocalInv(Do(st, step))
  {
    assert CallbacksOk(st);
    StepKeepsCallbacks(st, step);
    hide CallbacksOk, LocalOk, ListsOk, Do, Enabled;
    forall p ensures ListsOk(LocalOf(Do(st, step), p)) { StepKeepsLists(st, step, p); }
    forall p, t ensures LocalOk(Do(st, step), p, t) { StepKeepsLocal(st, step, p, t); }
  }

  /** A step after which Redis holds `t`: it held `t` before, or now saves it; and
      the step is not the clean-up of the task itself. */
  lemma InRedisAfter(st: State, step: Step, t: Tid)
    requires SavesOk(st) && Enabled(st, step) && InRedis(Do(st, step).store, t)
    ensures InRedis(st.store, t) || (step.Advance? && step.op.Saving? && step.op.tid == t)
    ensures t in st.made && step != Advance(Forgetting(t, st.made[t].item, Some(st.made[t].pid)))
  {
    HashAfter(st, step);
    assert step.Advance? ==> SavingOk(st, step.op);
    hide Do, Enabled;
    if t !in Do(st, step).store.hash {
      var i :| t in Members(Do(st, step).store, i);
      MembersAfter(st, step, i, t);
      assert MemberSaved(st, i, t);
    }
    hide Members;
  }

  lemma StepKeepsRedis(st: State, step: Step, t: Tid)
    requires DrainInv(st) && Enabled(st, step)
    ensures RedisAlive(Do(st, step), t)
  {
    var st' := Do(st, step);
    assert RedisAlive(st, t);
    Past(st, step);
    if InRedis(st'.store, t) && t in st'.finished {
      InRedisAfter(st, step, t);
      assert step.Advance? ==> SavingOk(st, step.op);
      if InRedis(st.store, t) { RedisSaved(st, t); }
      var o := Forgetting(t, st.made[t].item, Some(st.made[t].pid));
      hide Do, Enabled, InRedis, SavesOk;
      if step == Finish(t) {
        FinishForgets(st, t);
      } else {
        OtherOpsStay(st, step, o);
      }
    }
  }

  lemma RedisSaved(st: State, t: Tid)
    requires SavesOk(st) && InRedis(st.store, t)
    ensures t in st.saved && t in st.made && st.redis
  {
    hide Members;
    if t !in st.store.hash {
      var i :| t in Members(st.store, i);
      assert MemberSaved(st, i, t);
    }
  }

  lemma FinishForgets(st: State, t: Tid)
    requires t in st.made && st.redis
    ensures Forgetting(t, st.made[t].item, Some(st.made[t].pid)) in Do(st, Finish(t)).ops
  {
  }

  ghost predicate NoEmptySets(s: Store) {
    forall i :: i in s.sets ==> s.sets[i] != {}
  }

  lemma StoreKeepsNoEmptySets(s: Store, op: Op)
    requires NoEmptySets(s)
    ensures NoEmptySets(StoreAfter(s, op))
  {
    var s' := StoreAfter(s, op);
    forall i | i in s'.sets ensures s'.sets[i] != {} {
      assert op.Saving? && Given(op.item) && i == op.item.value ==> op.tid in s'.sets[i];
    }
  }

  lemma {:induction false} DrainRun(redis: bool, rules: Rules, steps: seq<Step>, st: State)
    requires RunsTo(redis, rules, steps, st) && rules.finishSaved
    ensures DrainInv(st)
    decreases |steps|
  {
    hide Do, Enabled, DrainInv;
    if steps == [] {
      InitialDrain(redis);
    } else {
      var before :| Last(redis, rules, steps, before, st);
      DrainRun(redis, rules, steps[..|steps| - 1], before);
      StepKeepsDrain(before, steps[|steps| - 1]);
    }
  }

  lemma InitialDrain(redis: bool)
    ensures DrainInv(Initial(redis))
  {
  }

  lemma StepKeepsDrain(st: State, step: Step)
    requires DrainInv(st) && Enabled(st, step) && FinishesSaved(st, step)
    ensures DrainInv(Do(st, step))
  {
    StepKeepsSaves(st, step);
    StepKeepsNoEmptySets(st, step);
    Past(st, step);
    hide SavesOk, RedisAlive, NoEmptySets, Do, Enabled;
    forall t ensures RedisAlive(Do(st, step), t) { StepKeepsRedis(st, step, t); }
  }

  lemma StepKeepsNoEmptySets(st: State, step: Step)
    requires NoEmptySets(st.store)
    ensures NoEmptySets(Do(st, step).store)
  {
    hide OpsAfter, CreateLocal, StopLocal, CleanLocal, LocalOf;
    if step.Advance? {
      StoreKeepsNoEmptySets(st.store, step.op);
      hide StoreAfter;
    }
  }

  /** In every reachable state, whatever the timing of saves and stops, every live task
      is listed under its item; lists are duplicate-free and never empty. */
  lemma LiveTasksListed(redis: bool, rules: Rules, steps: seq<Step>, st: State, p: Pid, t: Tid)
    requires RunsTo(redis, rules, steps, st)
    ensures ListsOk(LocalOf(st, p))
    ensures t in LocalOf(st, p).tasks ==> t in st.made && t in Listed(LocalOf(st, p), st.made[t].item)
  {
    LocalRun(redis, rules, steps, st);
    assert LocalOk(st, p, t);
  }

  /** Once every task has finished and nothing is pending, every local registry is
      empty, except that the entry of a missing or empty item id still lists all the
      tasks ever created under it.  So is Redis if tasks finished only after they were
      saved, even where a stop came too early and left a stale member for a while. */
  lemma Drained(redis: bool, rules: Rules, steps: seq<Step>, st: State, p: Pid)
    requires RunsTo(redis, rules, steps, st)
    requires st.ops == multiset{} && st.finished == st.made.Keys
    ensures LocalOf(st, p).tasks == {}
    ensures forall i :: i in LocalOf(st, p).items ==> !Given(i)
    ensures forall i, t :: !Given(i) ==> (t in Listed(LocalOf(st, p), i) <==> t in st.made && st.made[t] == Made(p, i))
    ensures rules.finishSaved ==> st.store == Store(map[], map[])
  {
    LocalRun(redis, rules, steps, st);
    DrainedLocal(st, p);
    if rules.finishSaved {
      DrainRun(redis, rules, steps, st);
      DrainedStore(st);
    }
  }

  lemma DrainedStore(st: State)
    requires DrainInv(st) && st.ops == multiset{} && st.finished == st.made.Keys
    ensures st.store == Store(map[], map[])
  {
    forall t ensures !InRedis(st.store, t) {
      assert RedisAlive(st, t);
      if InRedis(st.store, t) { RedisSaved(st, t); }
    }
    forall t ensures t !in st.store.hash { assert !InRedis(st.store, t); }
    assert st.store.hash == map[];
    forall i ensures i !in st.store.sets {
      assert forall t :: t in Members(st.store, i) ==> InRedis(st.store, t);
      assert Members(st.store, i) == {};
    }
    assert st.store.sets == map[];
  }

  lemma DrainedLocal(st: State, p: Pid)
    requires LocalInv(st) && st.ops == multiset{} && st.finished == st.made.Keys
    ensures LocalOf(st, p).tasks == {}
    ensures forall i :: i in LocalOf(st, p).items ==> !Given(i)
    ensures forall i, t :: !Given(i) ==> (t in Listed(LocalOf(st, p), i) <==> t in st.made && st.made[t] == Made(p, i))
  {
    var l := LocalOf(st, p);
    assert ListsOk(l);
    forall t ensures t !in l.tasks { assert LocalOk(st, p, t); }
    forall i | i in l.items ensures !Given(i) {
      assert l.items[i] != [] && l.items[i][0] in Listed(l, i);
      assert LocalOk(st, p, l.items[i][0]);
    }
    forall i, t | !Given(i) ensures t in Listed(l, i) <==> t in st.made && st.made[t] == Made(p, i) {
      assert LocalOk(st, p, t);
    }
  }
}
