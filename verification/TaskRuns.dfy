/** Whole runs of the task registry: what every run keeps in Redis, exactly when hash and
    sets stay equal, what the hash holds, and runs in which a discipline is missing. */
module TaskRuns {
  import opened Collections
  import opened TaskRegistry
  import opened TaskSaves

  /** In every interleaving, an id in an item set is in the task hash under the same
      item. */
  lemma {:induction false} SetsAlwaysInHash(redis: bool, rules: Rules, steps: seq<Step>, st: State)
    requires RunsTo(redis, rules, steps, st) && rules.stopSaved
    ensures SetsInHash(st.store) && StoreInv(st)
    decreases |steps|
  {
    hide Do, Enabled;
    if steps == [] {
      InitialStore(redis);
    } else {
      var before :| Last(redis, rules, steps, before, st);
      SetsAlwaysInHash(redis, rules, steps[..|steps| - 1], before);
      StepKeepsStore(before, steps[|steps| - 1]);
    }
  }

  lemma {:induction false} AtomicRun(redis: bool, rules: Rules, steps: seq<Step>, st: State)
    requires RunsTo(redis, rules, steps, st) && rules.stopSaved && rules.atomicDelete
    ensures StoreInv(st) && HashInSets(st.store) && forall op :: op in st.ops ==> !op.Deleting?
    decreases |steps|
  {
    hide Do, Enabled, OpsAfter, StoreInv;
    if steps == [] {
      InitialStore(redis);
    } else {
      var before :| Last(redis, rules, steps, before, st);
      var step := steps[|steps| - 1];
      AtomicRun(redis, rules, steps[..|steps| - 1], before);
      StepKeepsStore(before, step);
      AtomicStepKeepsEqual(before, step);
      OpsOnly(before, step);
      forall op | op in st.ops ensures !op.Deleting? {
        if op.Deleting? { AtomicStepDeletes(before, step, op); }
      }
    }
  }

  /** If `scard` and `delete` are one step, hash and sets say the same: a chat is
      reported active exactly when some task of the hash belongs to it. */
  lemma AtomicRunsAgree(redis: bool, rules: Rules, steps: seq<Step>, st: State, item: Item)
    requires RunsTo(redis, rules, steps, st) && rules.stopSaved && rules.atomicDelete && item != ""
    ensures forall t :: t in Members(st.store, item) <==> t in st.store.hash && st.store.hash[t] == item
  {
    AtomicRun(redis, rules, steps, st);
    forall t | t in Members(st.store, item) ensures Filed(st.store, t, item) {}
  }

  /** Forgetting a task keeps hash and sets equal exactly when it is done under the
      item the hash has for it. */
  lemma ForgetExact(s: Store, tid: Tid, item: Option<Item>)
    requires SetsInHash(s) && HashInSets(s)
    ensures SetsInHash(ForgetTask(s, tid, item)) <==>
            (tid in s.hash && s.hash[tid] != "" ==> Given(item) && item.value == s.hash[tid])
    ensures HashInSets(ForgetTask(s, tid, item))
  {
    var s' := ForgetTask(s, tid, item);
    ForgetMembers(s, tid, item);
    if tid in s.hash && s.hash[tid] != "" && !(Given(item) && item.value == s.hash[tid]) {
      assert tid in Members(s', s.hash[tid]) && !Filed(s', tid, s.hash[tid]);
    } else {
      forall i, t | t in Members(s', i) ensures Filed(s', t, i) {
        assert t in Members(s, i) && Filed(s, t, i);
      }
    }
  }

  /** The state after the given steps. */
  function After(redis: bool, steps: seq<Step>): State {
    if steps == [] then Initial(redis) else Do(After(redis, steps[..|steps| - 1]), steps[|steps| - 1])
  }

  lemma {:induction false} RunEndsAfter(redis: bool, rules: Rules, steps: seq<Step>, st: State)
    requires RunsTo(redis, rules, steps, st)
    ensures st == After(redis, steps)
    decreases |steps|
  {
    hide Do, Enabled;
    if steps != [] {
      var before :| Last(redis, rules, steps, before, st);
      RunEndsAfter(redis, rules, steps[..|steps| - 1], before);
    }
  }

  /** Every part of a run from its beginning is a run. */
  lemma {:induction false} RunPrefix(redis: bool, rules: Rules, steps: seq<Step>, st: State, i: nat)
    requires RunsTo(redis, rules, steps, st) && i <= |steps|
    ensures RunsTo(redis, rules, steps[..i], After(redis, steps[..i]))
    ensures i < |steps| ==> Enabled(After(redis, steps[..i]), steps[i]) && Keeps(rules, After(redis, steps[..i]), steps[i])
    decreases |steps|
  {
    hide Do, Enabled, Keeps;
    if i == |steps| {
      assert steps[..i] == steps;
      RunEndsAfter(redis, rules, steps, st);
    } else {
      var before :| Last(redis, rules, steps, before, st);
      RunEndsAfter(redis, rules, steps[..|steps| - 1], before);
      RunPrefix(redis, rules, steps[..|steps| - 1], before, i);
      assert steps[..|steps| - 1][..i] == steps[..i];
    }
  }

  /** A separate `delete` that finds its set empty; any other step is harmless. */
  ghost predicate FindsEmpty(st: State, step: Step) {
    step.Advance? && step.op.Deleting? && Given(step.op.item) ==> Members(st.store, step.op.item.value) == {}
  }

  /** One step keeps hash and sets equal exactly if it does not delete a set somebody
      has joined. */
  lemma StepKeepsEqual(st: State, step: Step)
    requires StoreInv(st) && Enabled(st, step) && HashInSets(st.store)
    ensures HashInSets(Do(st, step).store) <==> FindsEmpty(st, step)
  {
    if step.Advance? && step.op.Deleting? {
      DeletingStep(st, step.op);
      if Given(step.op.item) { DeleteKeepsEqual(st.store, step.op.item.value); }
      hide Do, StoreInv, HashInSets, DeleteSet, Members;
    } else {
      hide Do, StoreInv, HashInSets;
      if AtomicDelete(step) {
        AtomicStepKeepsEqual(st, step);
      } else {
        CountingStep(st, step.op);
      }
    }
  }

  lemma DeletingStep(st: State, op: Op)
    requires op.Deleting?
    ensures Do(st, Advance(op)).store == if Given(op.item) then DeleteSet(st.store, op.item.value) else st.store
  {
    hide OpsAfter;
  }

  lemma CountingStep(st: State, op: Op)
    requires op.Counting?
    ensures Do(st, Advance(op)).store == st.store
  {
    hide OpsAfter;
  }

  ghost predicate EqualAt(redis: bool, steps: seq<Step>, i: nat)
    requires i <= |steps|
  {
    HashInSets(After(redis, steps[..i]).store)
  }

  ghost predicate FindsEmptyAt(redis: bool, steps: seq<Step>, i: nat)
    requires i < |steps|
  {
    FindsEmpty(After(redis, steps[..i]), steps[i])
  }

  /** Over a whole run with separate `scard` and `delete`: hash and sets say the same
      throughout exactly if every `delete` finds its set empty. */
  lemma SplitRunExactly(redis: bool, rules: Rules, steps: seq<Step>, st: State)
    requires RunsTo(redis, rules, steps, st) && rules.stopSaved
    ensures (forall i :: 0 <= i <= |steps| ==> EqualAt(redis, steps, i)) <==>
            (forall i :: 0 <= i < |steps| ==> FindsEmptyAt(redis, steps, i))
  {
    hide *;
    var equal := (i: nat) => i <= |steps| && EqualAt(redis, steps, i);
    var empty := (i: nat) => i < |steps| && FindsEmptyAt(redis, steps, i);
    EqualAtFirst(redis, steps);
    forall i: nat | i < |steps| && equal(i) ensures equal(i + 1) <==> empty(i) {
      PrefixKeepsEqual(redis, rules, steps, st, i);
    }
    ExactlyThroughout(|steps|, equal, empty);
    assert forall i :: 0 <= i <= |steps| ==> equal(i) == EqualAt(redis, steps, i);
    assert forall i :: 0 <= i < |steps| ==> empty(i) == FindsEmptyAt(redis, steps, i);
  }

  lemma EqualAtFirst(redis: bool, steps: seq<Step>)
    ensures EqualAt(redis, steps, 0)
  {
    InitialStore(redis);
    assert steps[..0] == [];
  }

  /** What holds at first and is kept exactly by fitting steps holds throughout exactly
      if every step fits. */
  lemma ExactlyThroughout(n: nat, holds: nat -> bool, fits: nat -> bool)
    requires holds(0) && forall i: nat :: i < n && holds(i) ==> (holds(i + 1) <==> fits(i))
    ensures (forall i: nat :: i <= n ==> holds(i)) <==> (forall i: nat :: i < n ==> fits(i))
  {
    if forall i: nat :: i <= n ==> holds(i) {
      forall i: nat | i < n ensures fits(i) { assert holds(i) && holds(i + 1); }
    }
    if forall i: nat :: i < n ==> fits(i) {
      forall i: nat | i <= n ensures holds(i) { HoldsUpTo(n, holds, fits, i); }
    }
  }

  lemma {:induction false} HoldsUpTo(n: nat, holds: nat -> bool, fits: nat -> bool, i: nat)
    requires holds(0) && forall j: nat :: j < n && holds(j) ==> (holds(j + 1) <==> fits(j))
    requires i <= n && forall j: nat :: j < n ==> fits(j)
    ensures holds(i)
  {
    if i > 0 {
      HoldsUpTo(n, holds, fits, i - 1);
      assert holds(i - 1) && fits(i - 1);
    }
  }

  lemma PrefixKeepsEqual(redis: bool, rules: Rules, steps: seq<Step>, st: State, i: nat)
    requires RunsTo(redis, rules, steps, st) && rules.stopSaved && i < |steps| && EqualAt(redis, steps, i)
    ensures EqualAt(redis, steps, i + 1) <==> FindsEmptyAt(redis, steps, i)
  {
    hide Do, Enabled, Keeps, StoreInv, HashInSets, FindsEmpty, RunsTo;
    RunPrefix(redis, rules, steps, st, i);
    SetsAlwaysInHash(redis, rules, steps[..i], After(redis, steps[..i]));
    StepKeepsEqual(After(redis, steps[..i]), steps[i]);
    assert steps[..i + 1][..i] == steps[..i];
    assert After(redis, steps[..i + 1]) == Do(After(redis, steps[..i]), steps[i]);
  }

  ghost predicate IncludedAt(redis: bool, steps: seq<Step>, i: nat)
    requires i <= |steps|
  {
    SetsInHash(After(redis, steps[..i]).store)
  }

  ghost predicate NamesItemAt(redis: bool, steps: seq<Step>, i: nat)
    requires i < |steps|
  {
    NamesItem(After(redis, steps[..i]), steps[i])
  }

  /** Over a whole run, however early tasks are stopped or finish: the item sets stay
      included in the hash throughout exactly if every clean-up names the item under
      whose set its task is filed at that moment. */
  lemma InclusionExactly(redis: bool, rules: Rules, steps: seq<Step>, st: State)
    requires RunsTo(redis, rules, steps, st)
    ensures (forall i :: 0 <= i <= |steps| ==> IncludedAt(redis, steps, i)) <==>
            (forall i :: 0 <= i < |steps| ==> NamesItemAt(redis, steps, i))
  {
    hide *;
    var included := (i: nat) => i <= |steps| && IncludedAt(redis, steps, i);
    var names := (i: nat) => i < |steps| && NamesItemAt(redis, steps, i);
    IncludedAtFirst(redis, steps);
    forall i: nat | i < |steps| && included(i) ensures included(i + 1) <==> names(i) {
      PrefixKeepsIncluded(redis, rules, steps, st, i);
    }
    ExactlyThroughout(|steps|, included, names);
    assert forall i :: 0 <= i <= |steps| ==> included(i) == IncludedAt(redis, steps, i);
    assert forall i :: 0 <= i < |steps| ==> names(i) == NamesItemAt(redis, steps, i);
  }

  lemma IncludedAtFirst(redis: bool, steps: seq<Step>)
    ensures IncludedAt(redis, steps, 0)
  {
    InitialStore(redis);
    assert steps[..0] == [];
  }

  lemma PrefixKeepsIncluded(redis: bool, rules: Rules, steps: seq<Step>, st: State, i: nat)
    requires RunsTo(redis, rules, steps, st) && i < |steps| && IncludedAt(redis, steps, i)
    ensures IncludedAt(redis, steps, i + 1) <==> NamesItemAt(redis, steps, i)
  {
    hide Do, Enabled, Keeps, SetsInHash, NamesItem, SavesOk, RunsTo;
    RunPrefix(redis, rules, steps, st, i);
    SavesRun(redis, rules, steps[..i], After(redis, steps[..i]));
    StepKeepsInclusion(After(redis, steps[..i]), steps[i]);
    assert steps[..i + 1][..i] == steps[..i];
    assert After(redis, steps[..i + 1]) == Do(After(redis, steps[..i]), steps[i]);
  }

  /** Extend a run by an atomic count and delete that finds the set empty. */
  lemma CountEmpty(rules: Rules, steps: seq<Step>, st: State, op: Op, rest: multiset<Op>) returns (steps': seq<Step>, st': State)
    requires RunsTo(true, rules, steps, st) && st.ops == rest + multiset{op} && Keeps(rules, st, CountAndDelete(op))
    requires op.Counting? && Given(op.item) && st.store == Store(map[], map[])
    ensures RunsTo(true, rules, steps', st') && st'.ops == rest + Back(op.tid, op.item, op.back) && st'.store == st.store
    ensures st'.made == st.made && st'.finished == st.finished && st'.saved == st.saved && st'.redis == st.redis
  {
    hide RunsTo;
    ForgetNothing(op.tid, op.item.value);
    steps', st' := Extend(true, rules, steps, st, CountAndDelete(op));
    assert rest + multiset{op} - multiset{op} == rest;
  }

  /** Task `a` is created and its clean-up has run through; its save is still pending. */
  lemma LateSaveFirstHalf(p: Pid, a: Tid, item: Item) returns (steps: seq<Step>, st: State)
    requires item != ""
    ensures RunsTo(true, Rules(true, false, true), steps, st)
    ensures st.redis && st.ops == multiset{Saving(a, Some(item))} && st.store == Store(map[], map[])
    ensures st.made == map[a := Made(p, Some(item))] && st.finished == {a}
  {
    var rules, i, back := Rules(true, false, true), Some(item), Some(p);
    var saving := multiset{Saving(a, i)};
    steps, st := [], Initial(true);
    assert RunsTo(true, rules, steps, st);
    hide RunsTo, SaveTask, ForgetTask;
    ForgetNothing(a, item);
    steps, st := Begin(rules, steps, st, p, a, i);
    steps, st := End(rules, steps, st, a);
    assert st.ops == saving + multiset{Forgetting(a, i, back)};
    steps, st := Execute(rules, steps, st, Forgetting(a, i, back), saving);
    steps, st := CountEmpty(rules, steps, st, Counting(a, i, back), saving);
    steps, st := Execute(rules, steps, st, Tidying(a, i, p), saving);
  }

  /** A task that finishes before it was saved leaves its entry in hash and set for
      good: nothing is pending any more. */
  lemma LateSaveLeavesEntry(p: Pid, a: Tid, item: Item) returns (steps: seq<Step>, st: State)
    requires item != ""
    ensures RunsTo(true, Rules(true, false, true), steps, st)
    ensures st.ops == multiset{} && st.finished == st.made.Keys == {a}
    ensures a in st.store.hash && a in Members(st.store, item)
  {
    hide RunsTo, SaveTask;
    SaveIntoEmpty(a, item);
    steps, st := LateSaveFirstHalf(p, a, item);
    assert st.ops == multiset{} + multiset{Saving(a, Some(item))};
    steps, st := Execute(Rules(true, false, true), steps, st, Saving(a, Some(item)), multiset{});
  }

  lemma ForgetNothing(t: Tid, item: Item)
    ensures ForgetTask(Store(map[], map[]), t, Some(item)) == Store(map[], map[])
    ensures DeleteSet(Store(map[], map[]), item) == Store(map[], map[])
  {
  }

  lemma SaveIntoEmpty(t: Tid, item: Item)
    requires item != ""
    ensures SaveTask(Store(map[], map[]), t, Some(item)) == Store(map[t := item], map[item := {t}])
  {
    var s: Store := Store(map[], map[]);
    assert Members(s, item) + {t} == {t};
  }

  lemma ForgetOnly(t: Tid, item: Item)
    requires item != ""
    ensures ForgetTask(Store(map[t := item], map[item := {t}]), t, Some(item)) == Store(map[], map[])
  {
    assert {t} - {t} == {};
  }

  /** Extend a run by one pending command. */
  lemma Execute(rules: Rules, steps: seq<Step>, st: State, op: Op, rest: multiset<Op>) returns (steps': seq<Step>, st': State)
    requires RunsTo(true, rules, steps, st) && st.ops == rest + multiset{op} && Keeps(rules, st, Advance(op))
    ensures RunsTo(true, rules, steps', st') && st'.ops == rest + Next(st, op) && st'.store == StoreAfter(st.store, op)
    ensures st'.redis == st.redis && st'.made == st.made && st'.finished == st.finished
    ensures st'.saved == if op.Saving? then st.saved + {op.tid} else st.saved
  {
    hide RunsTo;
    steps', st' := Extend(true, rules, steps, st, Advance(op));
    assert rest + multiset{op} - multiset{op} == rest;
  }

  /** Extend a run by a new task of process `p`. */
  lemma Begin(rules: Rules, steps: seq<Step>, st: State, p: Pid, t: Tid, item: Option<Item>) returns (steps': seq<Step>, st': State)
    requires RunsTo(true, rules, steps, st) && st.redis && t !in st.made
    ensures RunsTo(true, rules, steps', st') && st'.ops == st.ops + multiset{Saving(t, item)} && st'.store == st.store
    ensures st'.redis && st'.made == st.made[t := Made(p, item)] && st'.finished == st.finished && st'.saved == st.saved
  {
    hide RunsTo;
    steps', st' := Extend(true, rules, steps, st, Create(p, t, item));
  }

  /** Extend a run by the end of task `t`. */
  lemma End(rules: Rules, steps: seq<Step>, st: State, t: Tid) returns (steps': seq<Step>, st': State)
    requires RunsTo(true, rules, steps, st) && st.redis && t in st.made && t !in st.finished && (rules.finishSaved ==> t in st.saved)
    ensures RunsTo(true, rules, steps', st')
    ensures st'.ops == st.ops + multiset{Forgetting(t, st.made[t].item, Some(st.made[t].pid))} && st'.store == st.store
    ensures st'.redis && st'.made == st.made && st'.finished == st.finished + {t} && st'.saved == st.saved
  {
    hide RunsTo;
    steps', st' := Extend(true, rules, steps, st, Finish(t));
  }

  /** Without that, a task saved between the two commands is lost from its set for as
      long as it runs: its chat is reported idle. */
  lemma SplitDeleteLosesTask(p: Pid, a: Tid, b: Tid, item: Item) returns (steps: seq<Step>, st: State)
    requires a != b && item != ""
    ensures RunsTo(true, Rules(true, true, false), steps, st)
    ensures b in st.store.hash && st.store.hash[b] == item && Members(st.store, item) == {}
    ensures b in st.saved && b !in st.finished
  {
    hide RunsTo, SaveTask;
    var rules, i, deleting := Rules(true, true, false), Some(item), Deleting(a, Some(item), Some(p));
    SaveIntoEmpty(b, item);
    steps, st := SplitDeleteFirstHalf(p, a, item);
    steps, st := Begin(rules, steps, st, p, b, i);
    steps, st := Execute(rules, steps, st, Saving(b, i), multiset{deleting});
    assert st.ops == multiset{} + multiset{deleting};
    steps, st := Execute(rules, steps, st, deleting, multiset{});
  }

  /** Task `a` comes and goes; its item set was counted as empty but not yet deleted. */
  lemma SplitDeleteFirstHalf(p: Pid, a: Tid, item: Item) returns (steps: seq<Step>, st: State)
    requires item != ""
    ensures RunsTo(true, Rules(true, true, false), steps, st)
    ensures st.redis && st.ops == multiset{Deleting(a, Some(item), Some(p))} && st.store == Store(map[], map[])
    ensures st.made == map[a := Made(p, Some(item))] && st.finished == {a} && st.saved == {a}
  {
    var rules, i, back := Rules(true, true, false), Some(item), Some(p);
    steps, st := [], Initial(true);
    assert RunsTo(true, rules, steps, st);
    hide RunsTo, SaveTask, ForgetTask;
    SaveIntoEmpty(a, item);
    ForgetOnly(a, item);
    steps, st := Begin(rules, steps, st, p, a, i);
    steps, st := Execute(rules, steps, st, Saving(a, i), multiset{});
    steps, st := End(rules, steps, st, a);
    assert st.ops == multiset{} + multiset{Forgetting(a, i, back)};
    steps, st := Execute(rules, steps, st, Forgetting(a, i, back), multiset{});
    steps, st := Execute(rules, steps, st, Counting(a, i, back), multiset{});
  }

  /** A task stopped before it was saved stays in its item set without being in the
      hash. */
  lemma EarlyStopLeavesMember(p: Pid, a: Tid, item: Item) returns (steps: seq<Step>, st: State)
    requires item != ""
    ensures RunsTo(true, Rules(false, true, true), steps, st)
    ensures a in Members(st.store, item) && a !in st.store.hash && st.ops == multiset{}
  {
    var rules, i := Rules(false, true, true), Some(item);
    steps, st := [], Initial(true);
    assert RunsTo(true, rules, steps, st);
    hide RunsTo, SaveTask;
    SaveIntoEmpty(a, item);
    steps, st := Begin(rules, steps, st, p, a, i);
    steps, st := Extend(true, rules, steps, st, Stop(a));
    assert st.ops == multiset{Saving(a, i)} + multiset{Looking(a)};
    steps, st := Execute(rules, steps, st, Looking(a), multiset{Saving(a, i)});
    assert st.ops == multiset{Forgetting(a, None, None)} + multiset{Saving(a, i)};
    steps, st := Execute(rules, steps, st, Saving(a, i), multiset{Forgetting(a, None, None)});
    assert st.ops == multiset{} + multiset{Forgetting(a, None, None)};
    steps, st := Execute(rules, steps, st, Forgetting(a, None, None), multiset{});
  }
}
