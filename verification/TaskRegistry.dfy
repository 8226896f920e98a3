/** The registry of running tasks: two dictionaries in every process, and a hash
    with one set per item in Redis, shared by all processes.  Operations give way at
    every `await`, so runs interleave single Redis commands and pipelines. */
module TaskRegistry {
  import opened Collections

  type Tid = string
  type Item = string
  type Pid = nat

  /** An item id is used only if it is given and not empty. */
  predicate Given(item: Option<Item>) {
    item.Some? && item.value != ""
  }

  // ------------------------------------------------------------ local registry

  /** `tasks` and `item_tasks` of one process. */
  datatype Local = Local(tasks: set<Tid>, items: map<Option<Item>, seq<Tid>>)

  function Listed(l: Local, item: Option<Item>): seq<Tid> {
    if item in l.items then l.items[item] else []
  }

  function CreateLocal(l: Local, tid: Tid, item: Option<Item>): Local {
    Local(l.tasks + {tid}, l.items[item := Listed(l, item) + [tid]])
  }

  function Without(s: seq<Tid>, tid: Tid): seq<Tid> {
    if s == [] then []
    else if s[|s| - 1] == tid && tid !in s[..|s| - 1] then s[..|s| - 1]
    else Without(s[..|s| - 1], tid) + [s[|s| - 1]]
  }

  /** Take a task out of its item's list; an empty list goes. */
  function CleanItems(items: map<Option<Item>, seq<Tid>>, tid: Tid, item: Option<Item>): map<Option<Item>, seq<Tid>> {
    if Given(item) && item in items && tid in items[item] then
      var rest := Without(items[item], tid);
      if rest == [] then items - {item} else items[item := rest]
    else items
  }

  /** The local half of `cleanup_task`. */
  function CleanLocal(l: Local, tid: Tid, item: Option<Item>): Local {
    Local(l.tasks - {tid}, CleanItems(l.items, tid, item))
  }

  /** `stop_task` without Redis, up to its `await`. */
  function StopLocal(l: Local, tid: Tid): Local {
    l.(tasks := l.tasks - {tid})
  }

  /** Lists are never empty and hold no task twice. */
  ghost predicate ListsOk(l: Local) {
    forall i :: i in l.items ==> l.items[i] != [] && NoDup(l.items[i])
  }

  lemma {:induction false} WithoutElems(s: seq<Tid>, tid: Tid)
    requires NoDup(s)
    ensures NoDup(Without(s, tid))
    ensures forall x :: x in Without(s, tid) <==> x in s && x != tid
    ensures tid !in s ==> Without(s, tid) == s
  {
    if s != [] {
      var front, last := s[..|s| - 1], s[|s| - 1];
      assert s == front + [last];
      NoDupFront(front, last);
      WithoutElems(front, tid);
      if last != tid {
        NoDupAppend(Without(front, tid), last);
      }
    }
  }

  /** On any list it is the first occurrence that goes. */
  lemma {:induction false} WithoutFirst(s: seq<Tid>, tid: Tid, i: nat)
    requires i < |s| && s[i] == tid && tid !in s[..i]
    ensures Without(s, tid) == s[..i] + s[i + 1..]
  {
    var front, last := s[..|s| - 1], s[|s| - 1];
    assert s == front + [last];
    if i < |s| - 1 {
      assert front[..i] == s[..i] && front[i] == tid;
      WithoutFirst(front, tid, i);
    }
  }

  lemma {:induction false} WithoutCommutes(s: seq<Tid>, a: Tid, b: Tid)
    requires NoDup(s)
    ensures Without(Without(s, a), b) == Without(Without(s, b), a)
  {
    if s != [] {
      var front, last := s[..|s| - 1], s[|s| - 1];
      assert s == front + [last];
      NoDupFront(front, last);
      WithoutCommutes(front, a, b);
      WithoutElems(front, a);
      WithoutElems(front, b);
      WithoutLast(front, last, a);
      WithoutLast(front, last, b);
      if last != a { WithoutLast(Without(front, a), last, b); }
      if last != b { WithoutLast(Without(front, b), last, a); }
    }
  }

  lemma WithoutLast(front: seq<Tid>, last: Tid, x: Tid)
    requires last !in front
    ensures Without(front + [last], x) == if x == last then front else Without(front, x) + [last]
  {
    assert (front + [last])[..|front|] == front;
  }

  /** Cleaning up keeps the lists well-formed and takes exactly one task out. */
  lemma CleanKeepsLists(l: Local, tid: Tid, item: Option<Item>)
    requires ListsOk(l)
    ensures var l' := CleanLocal(l, tid, item);
      && ListsOk(l')
      && forall i, x :: x in Listed(l', i) <==> x in Listed(l, i) && !(Given(item) && i == item && x == tid)
  {
    if item in l.items {
      WithoutElems(l.items[item], tid);
    }
  }

  /** Cleaning up twice is cleaning up once. */
  lemma CleanIdempotent(l: Local, tid: Tid, item: Option<Item>)
    requires ListsOk(l)
    ensures CleanLocal(CleanLocal(l, tid, item), tid, item) == CleanLocal(l, tid, item)
  {
    if item in l.items {
      CleanSame(l.items, item, tid, tid);
      WithoutElems(l.items[item], tid);
    }
  }

  /** The order of two clean-ups does not matter, nor does a stop in between. */
  lemma CleanCommutes(l: Local, a: Tid, i: Option<Item>, b: Tid, j: Option<Item>)
    requires ListsOk(l)
    ensures CleanLocal(CleanLocal(l, a, i), b, j) == CleanLocal(CleanLocal(l, b, j), a, i)
    ensures CleanLocal(StopLocal(l, b), a, i) == StopLocal(CleanLocal(l, a, i), b)
  {
    CleanItemsCommute(l, a, i, b, j);
  }

  lemma CleanItemsCommute(l: Local, a: Tid, i: Option<Item>, b: Tid, j: Option<Item>)
    requires ListsOk(l)
    ensures CleanItems(CleanItems(l.items, a, i), b, j) == CleanItems(CleanItems(l.items, b, j), a, i)
  {
    if i in l.items && i == j {
      var s := l.items[i];
      CleanSame(l.items, i, a, b);
      CleanSame(l.items, i, b, a);
      WithoutCommutes(s, a, b);
    }
  }

  /** Two clean-ups of the same item. */
  lemma CleanSame(items: map<Option<Item>, seq<Tid>>, i: Option<Item>, a: Tid, b: Tid)
    requires i in items && items[i] != [] && NoDup(items[i])
    ensures CleanItems(CleanItems(items, a, i), b, i) ==
              if !Given(i) then items
              else if Without(Without(items[i], a), b) == [] then items - {i}
              else items[i := Without(Without(items[i], a), b)]
  {
    var s := items[i];
    WithoutElems(s, a);
    WithoutElems(Without(s, a), b);
    assert items[i := s] == items;
  }

  // --------------------------------------------------------------------- Redis

  /** The task hash and the item sets.  Redis drops a set when it becomes empty. */
  datatype Store = Store(hash: map<Tid, Item>, sets: map<Item, set<Tid>>)

  function Members(s: Store, item: Item): set<Tid> {
    if item in s.sets then s.sets[item] else {}
  }

  function ItemField(item: Option<Item>): Item {
    if Given(item) then item.value else ""
  }

  /** `redis_save_task`: one pipeline. */
  function SaveTask(s: Store, tid: Tid, item: Option<Item>): Store {
    Store(s.hash[tid := ItemField(item)],
          if Given(item) then s.sets[item.value := Members(s, item.value) + {tid}] else s.sets)
  }

  /** The pipeline of `redis_cleanup_task`. */
  function ForgetTask(s: Store, tid: Tid, item: Option<Item>): Store {
    Store(s.hash - {tid},
          if Given(item) && item.value in s.sets then
            var rest := s.sets[item.value] - {tid};
            if rest == {} then s.sets - {item.value} else s.sets[item.value := rest]
          else s.sets)
  }

  function DeleteSet(s: Store, item: Item): Store {
    s.(sets := s.sets - {item})
  }

  /** The hash files `t` under the non-empty item id `item`. */
  ghost predicate Filed(s: Store, t: Tid, item: Item) {
    item != "" && t in s.hash && s.hash[t] == item
  }

  /** Every id in an item set is in the hash, under that item. */
  ghost predicate SetsInHash(s: Store) {
    forall item, t :: t in Members(s, item) ==> Filed(s, t, item)
  }

  /** And every id of the hash that has an item is in the set of that item. */
  ghost predicate HashInSets(s: Store) {
    forall t :: t in s.hash && s.hash[t] != "" ==> t in Members(s, s.hash[t])
  }

  lemma SaveMembers(s: Store, tid: Tid, item: Option<Item>)
    ensures forall i :: Members(SaveTask(s, tid, item), i)
              == Members(s, i) + (if Given(item) && i == item.value then {tid} else {})
  {
  }

  lemma ForgetMembers(s: Store, tid: Tid, item: Option<Item>)
    ensures forall i :: Members(ForgetTask(s, tid, item), i)
              == Members(s, i) - (if Given(item) && i == item.value then {tid} else {})
  {
  }

  lemma FewerMembers(s: Store, s': Store)
    requires SetsInHash(s) && s'.hash == s.hash
    requires forall i :: i in s'.sets ==> i in s.sets && s'.sets[i] <= s.sets[i]
    ensures SetsInHash(s')
  {
    forall item, t | t in Members(s', item) ensures Filed(s', t, item) {
      assert t in Members(s, item) && Filed(s, t, item);
    }
  }

  /** Saving an id that is not in the hash. */
  lemma SaveKeeps(s: Store, tid: Tid, item: Option<Item>)
    requires SetsInHash(s) && tid !in s.hash
    ensures SetsInHash(SaveTask(s, tid, item))
    ensures HashInSets(s) ==> HashInSets(SaveTask(s, tid, item))
  {
    var s' := SaveTask(s, tid, item);
    SaveMembers(s, tid, item);
    forall i, t | t in Members(s', i) ensures Filed(s', t, i) {
      assert (t in Members(s, i) && Filed(s, t, i)) || (t == tid && Given(item) && i == item.value);
    }
  }

  /** Forgetting an id under the item it has in the hash. */
  lemma ForgetKeeps(s: Store, tid: Tid, item: Option<Item>)
    requires SetsInHash(s) && (tid in s.hash ==> s.hash[tid] == ItemField(item))
    ensures SetsInHash(ForgetTask(s, tid, item))
    ensures HashInSets(s) ==> HashInSets(ForgetTask(s, tid, item))
  {
    var s' := ForgetTask(s, tid, item);
    ForgetMembers(s, tid, item);
    forall i, t | t in Members(s', i) ensures Filed(s', t, i) {
      assert t in Members(s, i) && Filed(s, t, i);
    }
  }

  /** Deleting a set keeps hash and sets equal exactly when nobody joined it since it
      was counted. */
  lemma DeleteKeepsEqual(s: Store, item: Item)
    requires SetsInHash(s) && HashInSets(s)
    ensures SetsInHash(DeleteSet(s, item))
    ensures HashInSets(DeleteSet(s, item)) <==> Members(s, item) == {}
  {
    var s' := DeleteSet(s, item);
    FewerMembers(s, s');
    if t :| t in Members(s, item) {
      assert t in s.hash && s.hash[t] == item;
    }
  }

  // ---------------------------------------------------------- pending operations

  /** What is still to be done of an operation; `back` names the process whose local
      registry a done-callback will clean at the end. */
  datatype Op =
    | Saving(tid: Tid, item: Option<Item>)
    | Looking(tid: Tid)
    | Forgetting(tid: Tid, item: Option<Item>, back: Option<Pid>)
    | Counting(tid: Tid, item: Option<Item>, back: Option<Pid>)
    | Deleting(tid: Tid, item: Option<Item>, back: Option<Pid>)
    | Tidying(tid: Tid, item: Option<Item>, pid: Pid)

  datatype Made = Made(pid: Pid, item: Option<Item>)

  /** `made`, `saved` and `finished` record the past: who created a task for which
      item, which were saved to Redis, and whose done-callbacks have fired. */
  datatype State = State(
    redis: bool, store: Store, locals: map<Pid, Local>, ops: multiset<Op>,
    made: map<Tid, Made>, saved: set<Tid>, finished: set<Tid>)

  function LocalOf(st: State, p: Pid): Local {
    if p in st.locals then st.locals[p] else Local({}, map[])
  }

  datatype Step =
    | Create(pid: Pid, tid: Tid, item: Option<Item>)
    | Finish(tid: Tid)
    | Stop(tid: Tid)
    | StopHere(pid: Pid, tid: Tid)
    | Advance(op: Op)
    | CountAndDelete(op: Op)

  /** Once Redis is clean, a done-callback goes on to its local registry. */
  function Back(tid: Tid, item: Option<Item>, back: Option<Pid>): multiset<Op> {
    if back.Some? then multiset{Tidying(tid, item, back.value)} else multiset{}
  }

  /** The operations an operation turns into. */
  function Next(st: State, op: Op): multiset<Op> {
    match op
    case Saving(_, _) => multiset{}
    case Looking(t) =>
      multiset{Forgetting(t, if t in st.store.hash && st.store.hash[t] != "" then Some(st.store.hash[t]) else None, None)}
    case Forgetting(t, item, back) =>
      if Given(item) then multiset{Counting(t, item, back)} else Back(t, item, back)
    case Counting(t, item, back) =>
      if Given(item) && Members(st.store, item.value) == {} then multiset{Deleting(t, item, back)} else Back(t, item, back)
    case Deleting(t, item, back) => Back(t, item, back)
    case Tidying(_, _, _) => multiset{}
  }

  /** What executing its next command does to Redis. */
  function StoreAfter(s: Store, op: Op): Store {
    match op
    case Saving(t, item) => SaveTask(s, t, item)
    case Forgetting(t, item, _) => ForgetTask(s, t, item)
    case Deleting(_, item, _) => if Given(item) then DeleteSet(s, item.value) else s
    case _ => s
  }

  ghost predicate Enabled(st: State, step: Step) {
    match step
    case Create(_, t, _) => t !in st.made
    case Finish(t) => t in st.made && t !in st.finished
    case Stop(t) => st.redis
    case StopHere(_, t) => !st.redis
    case Advance(op) => op in st.ops
    case CountAndDelete(op) => op in st.ops && op.Counting?
  }

  /** What is pending after a step. */
  function OpsAfter(st: State, step: Step): multiset<Op> {
    match step
    case Create(_, t, item) => st.ops + if st.redis then multiset{Saving(t, item)} else multiset{}
    case Finish(t) =>
      if t !in st.made then st.ops else
      var m := st.made[t];
      st.ops + if st.redis then multiset{Forgetting(t, m.item, Some(m.pid))} else multiset{Tidying(t, m.item, m.pid)}
    case Stop(t) => st.ops + multiset{Looking(t)}
    case StopHere(_, _) => st.ops
    case Advance(op) => st.ops - multiset{op} + Next(st, op)
    case CountAndDelete(op) => st.ops - multiset{op} + if op.Counting? then Back(op.tid, op.item, op.back) else multiset{}
  }

  function Do(st: State, step: Step): State {
    var ops := OpsAfter(st, step);
    match step
    case Create(p, t, item) =>
      st.(locals := st.locals[p := CreateLocal(LocalOf(st, p), t, item)], made := st.made[t := Made(p, item)], ops := ops)
    case Finish(t) =>
      if t in st.made then st.(finished := st.finished + {t}, ops := ops) else st
    case Stop(t) => st.(ops := ops)
    case StopHere(p, t) => st.(locals := st.locals[p := StopLocal(LocalOf(st, p), t)])
    case Advance(op) =>
      st.(store := StoreAfter(st.store, op),
          saved := if op.Saving? then st.saved + {op.tid} else st.saved,
          locals := if op.Tidying? then st.locals[op.pid := CleanLocal(LocalOf(st, op.pid), op.tid, op.item)] else st.locals,
          ops := ops)
    case CountAndDelete(op) =>
      var empty := op.Counting? && Given(op.item) && Members(st.store, op.item.value) == {};
      st.(store := if empty then DeleteSet(st.store, op.item.value) else st.store, ops := ops)
  }

  /** Disciplines a run may keep: tasks are stopped, or finish, only after they were
      saved; `scard` and `delete` run as one step. */
  datatype Rules = Rules(stopSaved: bool, finishSaved: bool, atomicDelete: bool)

  ghost predicate StopsSaved(st: State, step: Step) {
    step.Stop? ==> step.tid in st.saved
  }

  ghost predicate FinishesSaved(st: State, step: Step) {
    step.Finish? && st.redis ==> step.tid in st.saved
  }

  predicate AtomicDelete(step: Step) {
    !(step.Advance? && (step.op.Counting? || step.op.Deleting?))
  }

  ghost predicate Keeps(rules: Rules, st: State, step: Step) {
    && (rules.stopSaved ==> StopsSaved(st, step))
    && (rules.finishSaved ==> FinishesSaved(st, step))
    && (rules.atomicDelete ==> AtomicDelete(step))
  }

  function Initial(redis: bool): State {
    State(redis, Store(map[], map[]), map[], multiset{}, map[], {}, {})
  }

  /** Some interleaving of `steps` from empty registries ends in `st`. */
  ghost predicate RunsTo(redis: bool, rules: Rules, steps: seq<Step>, st: State)
    decreases |steps|
  {
    if steps == [] then st == Initial(redis)
    else exists before :: Last(redis, rules, steps, before, st)
  }

  ghost predicate Last(redis: bool, rules: Rules, steps: seq<Step>, before: State, st: State)
    requires steps != []
    decreases |steps|, 0
  {
    var last := steps[|steps| - 1];
    && RunsTo(redis, rules, steps[..|steps| - 1], before)
    && Enabled(before, last) && Keeps(rules, before, last) && st == Do(before, last)
  }

  lemma Extend(redis: bool, rules: Rules, steps: seq<Step>, st: State, step: Step) returns (steps': seq<Step>, st': State)
    requires RunsTo(redis, rules, steps, st) && Enabled(st, step) && Keeps(rules, st, step)
    ensures RunsTo(redis, rules, steps', st') && st' == Do(st, step)
  {
    steps', st' := steps + [step], Do(st, step);
    assert (steps + [step])[..|steps|] == steps;
    assert Last(redis, rules, steps + [step], st, Do(st, step));
  }

  // ------------------------------------------------------------------ invariants

  /** What is known about a pending operation. */
  ghost predicate OpOk(st: State, op: Op) {
    match op
    case Saving(t, item) => t in st.made && st.made[t].item == item && t !in st.saved && st.ops[op] == 1
    case Looking(t) => t in st.saved
    case Forgetting(t, item, back) =>
      && t in st.made
      && (if Given(item) then st.made[t].item == item else !Given(st.made[t].item) || (t in st.saved && t !in st.store.hash))
      && (back.Some? ==> st.made[t] == Made(back.value, item) && t in st.finished)
    case Counting(t, item, back) => t in st.made && (back.Some? ==> st.made[t] == Made(back.value, item) && t in st.finished)
    case Deleting(t, item, back) => t in st.made && (back.Some? ==> st.made[t] == Made(back.value, item) && t in st.finished)
    case Tidying(t, item, pid) => t in st.made && st.made[t] == Made(pid, item) && t in st.finished
  }

  ghost predicate HashOk(st: State, t: Tid) {
    t in st.store.hash ==> t in st.saved && t in st.made && st.store.hash[t] == ItemField(st.made[t].item)
  }

  ghost predicate StoreInv(st: State) {
    && st.saved <= st.made.Keys && st.finished <= st.made.Keys
    && (forall op :: op in st.ops ==> OpOk(st, op))
    && (forall t :: HashOk(st, t))
    && SetsInHash(st.store)
  }

  lemma NewOpsOk(st: State, op: Op)
    requires StoreInv(st) && op in st.ops
    ensures forall o :: o in Next(st, op) ==> !o.Saving? && !o.Looking? && (o.Forgetting? ==> op.Looking?)
  {
  }

  /** An operation that follows from a pending one is well-informed. */
  lemma NextOpOk(st: State, op: Op, o: Op)
    requires StoreInv(st) && op in st.ops && o in Next(st, op)
    ensures OpOk(Do(st, Advance(op)), o)
  {
    assert OpOk(st, op) && HashOk(st, op.tid);
    hide OpsAfter, CleanLocal, Members, LocalOf, StoreInv, HashInSets, SetsInHash;
  }

  /** What executing a pending command does to the hash and to the past. */
  lemma AdvancePast(st: State, op: Op)
    ensures var st' := Do(st, Advance(op));
      && st'.made == st.made && st'.finished == st.finished && st'.ops == OpsAfter(st, Advance(op))
      && st'.saved == (if op.Saving? then st.saved + {op.tid} else st.saved)
      && st'.store.hash == (if op.Saving? then st.store.hash[op.tid := ItemField(op.item)]
                            else if op.Forgetting? then st.store.hash - {op.tid} else st.store.hash)
  {
    hide OpsAfter, CleanLocal, LocalOf, Members;
  }

  /** A save that is still pending is the only one for its task. */
  lemma SavingStays(st: State, op: Op, o: Op)
    requires StoreInv(st) && op in st.ops && o in st.ops && o.Saving? && o in OpsAfter(st, Advance(op))
    ensures OpsAfter(st, Advance(op))[o] == 1 && !(op.Saving? && op.tid == o.tid)
  {
    assert OpOk(st, op) && OpOk(st, o);
    NewOpsOk(st, op);
    hide Next, StoreInv;
  }

  /** The pending operations that remain stay so. */
  lemma OtherOpOk(st: State, op: Op, o: Op)
    requires StoreInv(st) && op in st.ops && o in st.ops && o in OpsAfter(st, Advance(op))
    ensures OpOk(Do(st, Advance(op)), o)
  {
    assert OpOk(st, o);
    assert op.Saving? ==> op.tid !in st.saved by { assert OpOk(st, op); }
    AdvancePast(st, op);
    assert o.Saving? ==> o.tid !in st.saved by { assert OpOk(st, o); }
    if o.Saving? { SavingStays(st, op, o); }
    hide Do, OpsAfter, StoreInv, OpOk;
    OldOpOk(st, Do(st, Advance(op)), o);
  }

  /** Executing a pending command keeps every pending operation well-informed. */
  lemma AdvanceOps(st: State, op: Op)
    requires StoreInv(st) && op in st.ops
    ensures var st' := Do(st, Advance(op)); forall o :: o in st'.ops ==> OpOk(st', o)
  {
    var st' := Do(st, Advance(op));
    AdvancePast(st, op);
    assert OpsAfter(st, Advance(op)) == st.ops - multiset{op} + Next(st, op);
    hide Do, OpsAfter, Next, StoreInv, OpOk;
    forall o | o in st'.ops ensures OpOk(st', o) {
      if o in Next(st, op) {
        NextOpOk(st, op, o);
      } else {
        OtherOpOk(st, op, o);
      }
    }
  }

  lemma AdvanceStore(st: State, op: Op)
    requires StoreInv(st) && op in st.ops
    ensures var st' := Do(st, Advance(op)); SetsInHash(st'.store) && forall t :: HashOk(st', t)
  {
    var s, st' := st.store, Do(st, Advance(op));
    assert OpOk(st, op);
    forall t ensures HashOk(st', t) {
      assert HashOk(st, t);
    }
    match op {
      case Saving(t, item) =>
        assert HashOk(st, t);
        SaveKeeps(s, t, item);
      case Forgetting(t, item, back) =>
        assert HashOk(st, t);
        ForgetKeeps(s, t, item);
      case Deleting(t, item, back) =>
        if Given(item) { FewerMembers(s, st'.store); }
      case _ =>
    }
  }

  /** Steps that leave the store alone, or only drop sets. */
  lemma QuietStep(st: State, step: Step)
    requires StoreInv(st) && Enabled(st, step) && StopsSaved(st, step) && !step.Advance?
    ensures StoreInv(Do(st, step))
  {
    var st' := Do(st, step);
    assert SetsInHash(st.store) && forall t :: HashOk(st, t);
    hide *;
    QuietPast(st, step);
    QuietFinished(st, step);
    QuietSets(st, step);
    forall o | o in st'.ops ensures OpOk(st', o) {
      QuietOps(st, step, o);
    }
    forall t ensures HashOk(st', t) {
      SameHashOk(st, st', t);
    }
    FewerMembers(st.store, st'.store);
    StoreParts(st');
  }

  lemma StoreParts(st: State)
    requires st.saved <= st.made.Keys && st.finished <= st.made.Keys && SetsInHash(st.store)
    requires (forall op :: op in st.ops ==> OpOk(st, op)) && forall t :: HashOk(st, t)
    ensures StoreInv(st)
  {
  }

  lemma SameHashOk(st: State, st': State, t: Tid)
    requires HashOk(st, t) && st'.store.hash == st.store.hash && st.saved <= st'.saved
    requires forall x :: x in st.made ==> x in st'.made && st'.made[x] == st.made[x]
    ensures HashOk(st', t)
  {
  }

  lemma QuietSets(st: State, step: Step)
    requires !step.Advance?
    ensures var s, s' := st.store, Do(st, step).store; forall i :: i in s'.sets ==> i in s.sets && s'.sets[i] == s.sets[i]
  {
    hide OpsAfter, LocalOf, CreateLocal, StopLocal, Members;
  }

  lemma QuietFinished(st: State, step: Step)
    requires StoreInv(st) && Enabled(st, step) && !step.Advance?
    ensures var st' := Do(st, step); st'.saved <= st'.made.Keys && st'.finished <= st'.made.Keys
  {
    hide OpsAfter, OpOk, HashOk, SetsInHash, Members, LocalOf, CreateLocal, StopLocal;
  }

  /** A pending operation stays well-informed while the past only grows. */
  lemma OldOpOk(st: State, st': State, o: Op)
    requires OpOk(st, o)
    requires forall t :: t in st.made ==> t in st'.made && st'.made[t] == st.made[t]
    requires st.saved <= st'.saved && st.finished <= st'.finished
    requires forall t :: t in st.saved && t in st'.store.hash ==> t in st.store.hash
    requires o.Saving? ==> o.tid !in st'.saved && st'.ops[o] == 1
    ensures OpOk(st', o)
  {
  }

  lemma QuietOps(st: State, step: Step, o: Op)
    requires StoreInv(st) && Enabled(st, step) && StopsSaved(st, step) && !step.Advance?
    requires o in Do(st, step).ops
    ensures OpOk(Do(st, step), o)
  {
    if o in st.ops {
      assert OpOk(st, o);
      if o.Saving? {
        SavingUntouched(st, step, o);
      }
      QuietPast(st, step);
      hide StoreInv, Do;
      OldOpOk(st, Do(st, step), o);
    } else {
      NewQuietOp(st, step, o);
    }
  }

  /** Steps that execute no pending command only add to the past. */
  lemma QuietPast(st: State, step: Step)
    requires Enabled(st, step) && !step.Advance?
    ensures var st' := Do(st, step);
      && (forall t :: t in st.made ==> t in st'.made && st'.made[t] == st.made[t])
      && st.saved == st'.saved && st.finished <= st'.finished && st'.store.hash == st.store.hash
  {
    hide OpsAfter, Members, CreateLocal, StopLocal;
  }

  lemma SavingUntouched(st: State, step: Step, o: Op)
    requires StoreInv(st) && Enabled(st, step) && !step.Advance? && o in st.ops && o.Saving?
    ensures Do(st, step).ops[o] == 1
  {
    assert OpOk(st, o);
  }

  lemma NewQuietOp(st: State, step: Step, o: Op)
    requires StoreInv(st) && Enabled(st, step) && StopsSaved(st, step) && !step.Advance?
    requires o in Do(st, step).ops && o !in st.ops
    ensures OpOk(Do(st, step), o)
  {
    OpsOnly(st, step);
    assert st.saved <= st.made.Keys;
    match step {
      case Create(p, t, item) => CreateOpOk(st, p, t, item, o);
      case Finish(t) => FinishOpOk(st, t, o);
      case Stop(t) => StopOpOk(st, t, o);
      case StopHere(_, _) => assert false;
      case CountAndDelete(op) =>
        assert OpOk(st, op);
        CountOpOk(st, op, o);
    }
  }

  lemma CreateOpOk(st: State, p: Pid, t: Tid, item: Option<Item>, o: Op)
    requires t !in st.made && st.saved <= st.made.Keys && o in OpsAfter(st, Create(p, t, item)) && o !in st.ops
    ensures OpOk(Do(st, Create(p, t, item)), o)
  {
    hide CreateLocal, LocalOf;
  }

  lemma FinishOpOk(st: State, t: Tid, o: Op)
    requires t in st.made && o in OpsAfter(st, Finish(t)) && o !in st.ops
    ensures OpOk(Do(st, Finish(t)), o)
  {
  }

  lemma StopOpOk(st: State, t: Tid, o: Op)
    requires t in st.saved && o in OpsAfter(st, Stop(t)) && o !in st.ops
    ensures OpOk(Do(st, Stop(t)), o)
  {
  }

  lemma CountOpOk(st: State, op: Op, o: Op)
    requires OpOk(st, op) && op.Counting? && o in OpsAfter(st, CountAndDelete(op)) && o !in st.ops
    ensures OpOk(Do(st, CountAndDelete(op)), o)
  {
    hide Members, DeleteSet;
  }

  lemma StepKeepsStore(st: State, step: Step)
    requires StoreInv(st) && Enabled(st, step) && StopsSaved(st, step)
    ensures StoreInv(Do(st, step))
  {
    if step.Advance? {
      assert OpOk(st, step.op);
      AdvanceOps(st, step.op);
      AdvanceStore(st, step.op);
    } else {
      QuietStep(st, step);
    }
  }

  lemma InitialStore(redis: bool)
    ensures StoreInv(Initial(redis)) && HashInSets(Initial(redis).store)
  {
  }

  // ------------------------------------------------------ equality of hash and sets

  lemma AtomicStepKeepsEqual(st: State, step: Step)
    requires StoreInv(st) && Enabled(st, step) && HashInSets(st.store) && AtomicDelete(step)
    ensures HashInSets(Do(st, step).store)
  {
    hide OpsAfter, OpOk, HashOk, SaveTask, ForgetTask, DeleteSet, CleanLocal, CreateLocal, StopLocal;
    match step {
      case Advance(op) => AtomicAdvance(st, op);
      case CountAndDelete(op) =>
        if Given(op.item) { DeleteKeepsEqual(st.store, op.item.value); }
      case _ =>
    }
  }

  lemma AtomicAdvance(st: State, op: Op)
    requires StoreInv(st) && op in st.ops && HashInSets(st.store) && !op.Deleting?
    ensures HashInSets(StoreAfter(st.store, op))
  {
    assert OpOk(st, op) && HashOk(st, op.tid);
    hide SaveTask, ForgetTask, Members;
    match op {
      case Saving(t, item) => SaveKeeps(st.store, t, item);
      case Forgetting(t, item, back) => ForgetKeeps(st.store, t, item);
      case _ =>
    }
  }

  lemma OpsOnly(st: State, step: Step)
    requires Enabled(st, step)
    ensures Do(st, step).ops == OpsAfter(st, step)
  {
    hide StoreAfter, Members, LocalOf, CleanLocal, CreateLocal, StopLocal, Next;
  }

  /** Only a count turns into a delete. */
  lemma NextDeleting(st: State, op: Op)
    ensures forall o :: o in Next(st, op) && o.Deleting? ==> op.Counting?
  {
    hide Members;
  }

  lemma AtomicStepDeletes(st: State, step: Step, op: Op)
    requires AtomicDelete(step) && op in OpsAfter(st, step) && op.Deleting?
    ensures op in st.ops
  {
    if step.Advance? { NextDeleting(st, step.op); }
    hide Next, Members;
  }

  lemma QuietHash(st: State, step: Step)
    requires !step.Advance?
    ensures Do(st, step).store.hash == st.store.hash
  {
    hide OpsAfter, Members, CreateLocal, StopLocal, LocalOf;
  }
}
