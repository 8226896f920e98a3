/** Version history of prompts: entries with parent pointers; deleting an entry hands
    its children to its parent. */
module PromptHistory {
  import opened Forest
  import opened Collections

  datatype Entry = Entry(promptId: Id, parentId: Option<Id>, snapshot: string, userId: string,
                         commitMessage: Option<string>, createdAt: int)

  type Entries = map<Id, Entry>

  /** The parent pointers, dangling ones included. */
  function Links(es: Entries): map<Id, Id> {
    map x | x in es && es[x].parentId.Some? :: es[x].parentId.value
  }

  function Children(es: Entries, id: Id): set<Id> {
    set x | x in es && es[x].parentId == Some(id)
  }

  /** The history without `e`; its children point to its parent instead. */
  function Spliced(es: Entries, e: Id): Entries
    requires e in es
  {
    map x | x in es && x != e ::
      if es[x].parentId == Some(e) then es[x].(parentId := es[e].parentId) else es[x]
  }

  /** The same entry, its parent aside. */
  predicate SameContent(a: Entry, b: Entry) {
    && a.promptId == b.promptId && a.snapshot == b.snapshot && a.userId == b.userId
    && a.commitMessage == b.commitMessage && a.createdAt == b.createdAt
  }

  class PromptHistoryTable {
    var entries: Entries

    constructor ()
      ensures entries == map[]
    {
      entries := map[];
    }

    method CreateHistoryEntry(id: Id, entry: Entry)
      modifies this
      ensures entries == old(entries)[id := entry]
    {
      entries := entries[id := entry];
    }

    method DeleteHistoryEntry(historyId: Id) returns (found: bool)
      modifies this
      ensures found == (historyId in old(entries))
      ensures entries == if found then Spliced(old(entries), historyId) else old(entries)
      ensures entries.Keys == old(entries).Keys - {historyId}
      ensures forall x :: x in entries ==>
                && SameContent(entries[x], old(entries)[x])
                && entries[x].parentId ==
                     if found && old(entries)[x].parentId == Some(historyId) then old(entries)[historyId].parentId
                     else old(entries)[x].parentId
    {
      if historyId !in entries { return false; }
      var entry := entries[historyId];
      var children := Children(entries, historyId);
      var todo := children;
      while todo != {}
        invariant todo <= children && entries.Keys == old(entries).Keys
        invariant forall x :: x in entries ==>
          entries[x] == if x in children && x !in todo then old(entries)[x].(parentId := entry.parentId) else old(entries)[x]
        decreases todo
      {
        var child :| child in todo;
        entries := entries[child := entries[child].(parentId := entry.parentId)];
        todo := todo - {child};
      }
      entries := entries - {historyId};
      found := true;
    }
  }

  // ------------------------------------------------------------ ancestry survives

  /** Nothing but itself is reached from an entry that is its own parent. */
  lemma {:induction false} SelfLoop(par: map<Id, Id>, e: Id, x: Id, n: nat)
    requires e in par && par[e] == e && Climb(par, e, x, n)
    ensures x == e
  {
    if n > 0 {
      SelfLoop(par, e, x, n - 1);
    }
  }

  lemma {:induction false} ClimbSurvives(es: Entries, e: Id, x: Id, y: Id, n: nat)
    requires e in es && x != e && y != e && n > 0 && Climb(Links(es), y, x, n)
    ensures Ancestor(Links(Spliced(es, e)), x, y)
    decreases n
  {
    var par, par' := Links(es), Links(Spliced(es, e));
    var p := par[y];
    if p != e {
      assert par'[y] == p;
      if n > 1 { ClimbSurvives(es, e, x, p, n - 1); }
    } else {
      var q := par[e];
      assert Climb(par, q, x, n - 2);
      assert par'[y] == q;
      if n > 2 {
        if q == e {
          SelfLoop(par, e, x, n - 2);
        } else {
          ClimbSurvives(es, e, x, q, n - 2);
        }
      }
    }
    AncestorStep(par', x, y);
  }

  lemma {:induction false} ClimbWasThere(es: Entries, e: Id, x: Id, y: Id, n: nat)
    requires e in es && n > 0 && Climb(Links(Spliced(es, e)), y, x, n)
    ensures Ancestor(Links(es), x, y)
    decreases n
  {
    var par, par' := Links(es), Links(Spliced(es, e));
    assert y in Spliced(es, e) && y != e;
    var p := par'[y];
    if n > 1 { ClimbWasThere(es, e, x, p, n - 1); }
    if par[y] == e {
      assert par[e] == p;
      AncestorStep(par, x, e);
    }
    AncestorStep(par, x, y);
  }

  /** For any two survivors, one is an ancestor of the other afterwards exactly when it
      was before. */
  lemma DeleteKeepsAncestry(es: Entries, e: Id, x: Id, y: Id)
    requires e in es && x != e && y != e
    ensures Ancestor(Links(Spliced(es, e)), x, y) <==> Ancestor(Links(es), x, y)
  {
    if Ancestor(Links(es), x, y) {
      var n: nat :| n > 0 && Climb(Links(es), y, x, n);
      ClimbSurvives(es, e, x, y, n);
    }
    if Ancestor(Links(Spliced(es, e)), x, y) {
      var n: nat :| n > 0 && Climb(Links(Spliced(es, e)), y, x, n);
      ClimbWasThere(es, e, x, y, n);
    }
  }

  lemma DeleteKeepsForest(es: Entries, e: Id)
    requires e in es && Acyclic(Links(es))
    ensures Acyclic(Links(Spliced(es, e)))
  {
    forall x ensures !Ancestor(Links(Spliced(es, e)), x, x) {
      if Ancestor(Links(Spliced(es, e)), x, x) {
        AncestorStep(Links(Spliced(es, e)), x, x);
        assert x != e;
        DeleteKeepsAncestry(es, e, x, x);
      }
    }
  }

  /** No survivor points at the deleted entry, unless that entry was its own parent
      and had other children. */
  lemma NoPointerLeft(es: Entries, e: Id)
    requires e in es
    ensures Children(Spliced(es, e), e) == {} <==> !(e in Children(es, e) && Children(es, e) != {e})
  {
    var es' := Spliced(es, e);
    if e in Children(es, e) && Children(es, e) != {e} {
      var x :| x in Children(es, e) && x != e;
      assert x in Children(es', e);
    } else {
      forall x ensures x !in Children(es', e) {
        assert x in Children(es, e) && x != e ==> e !in Children(es, e);
      }
    }
  }

  // ------------------------------------------------------------------------- runs

  datatype Step = Create(id: Id, entry: Entry) | Delete(id: Id)

  /** `used` are the ids ever given out; a new one was never seen as a parent. */
  datatype State = State(entries: Entries, used: set<Id>)

  ghost predicate Enabled(st: State, s: Step) {
    match s
    case Create(id, entry) =>
      && id !in st.used && entry.parentId != Some(id)
      && forall x :: x in st.entries ==> st.entries[x].parentId != Some(id)
    case Delete(_) => true
  }

  function Do(st: State, s: Step): State {
    match s
    case Create(id, entry) => State(st.entries[id := entry], st.used + {id})
    case Delete(id) => if id in st.entries then st.(entries := Spliced(st.entries, id)) else st
  }

  ghost predicate Inv(st: State) {
    st.entries.Keys <= st.used && Acyclic(Links(st.entries))
  }

  lemma CreateLinks(st: State, id: Id, entry: Entry)
    requires Inv(st) && Enabled(st, Create(id, entry))
    ensures Acyclic(Links(st.entries[id := entry]))
    ensures forall x, y :: y != id ==> (Ancestor(Links(st.entries[id := entry]), x, y) <==> Ancestor(Links(st.entries), x, y))
  {
    var par, par' := Links(st.entries), Links(st.entries[id := entry]);
    if entry.parentId.Some? {
      assert par' == par[id := entry.parentId.value];
      AddLeaf(par, id, entry.parentId.value);
    } else {
      assert par' == par;
    }
    forall x, y | y != id ensures Ancestor(par', x, y) <==> Ancestor(par, x, y) {
      LeafKeepsAncestry(par, par', id, x, y);
    }
  }

  lemma StepKeeps(st: State, s: Step, x: Id, y: Id)
    requires Inv(st) && Enabled(st, s)
    ensures Inv(Do(st, s)) && st.used <= Do(st, s).used
    ensures Do(st, s).entries.Keys * st.used <= st.entries.Keys
    ensures x in st.entries && y in st.entries && x in Do(st, s).entries && y in Do(st, s).entries ==>
              (Ancestor(Links(Do(st, s).entries), x, y) <==> Ancestor(Links(st.entries), x, y))
    ensures x in st.entries && x in Do(st, s).entries ==> SameContent(Do(st, s).entries[x], st.entries[x])
  {
    match s {
      case Create(id, entry) =>
        CreateLinks(st, id, entry);
      case Delete(id) =>
        if id in st.entries {
          DeleteKeepsForest(st.entries, id);
          if x != id && y != id { DeleteKeepsAncestry(st.entries, id, x, y); }
        }
    }
  }

  ghost predicate Runs(st: State, steps: seq<Step>, st': State)
    decreases |steps|
  {
    if steps == [] then st' == st
    else Enabled(st, steps[0]) && Runs(Do(st, steps[0]), steps[1..], st')
  }

  /** Over any sequence of creates and deletes the history stays a forest, and two
      entries that survive it are related afterwards exactly as before and have the
      same content. */
  lemma {:induction false} RunsKeepAncestry(st: State, steps: seq<Step>, st': State, x: Id, y: Id)
    requires Inv(st) && Runs(st, steps, st') && x in st.used && y in st.used
    ensures Inv(st') && st.used <= st'.used && st'.entries.Keys * st.used <= st.entries.Keys
    ensures x in st'.entries && y in st'.entries ==>
              x in st.entries && y in st.entries && (Ancestor(Links(st'.entries), x, y) <==> Ancestor(Links(st.entries), x, y))
    ensures x in st'.entries ==> x in st.entries && SameContent(st'.entries[x], st.entries[x])
    decreases |steps|
  {
    if steps != [] {
      StepKeeps(st, steps[0], x, y);
      RunsKeepAncestry(Do(st, steps[0]), steps[1..], st', x, y);
    }
  }

  /** Every parent pointer leads to a stored entry. */
  ghost predicate Resolved(es: Entries) {
    forall x :: x in es && es[x].parentId.Some? ==> es[x].parentId.value in es
  }

  /** A create that names a stored parent or none; a delete is harmless. */
  ghost predicate NamesStored(st: State, s: Step) {
    s.Create? && s.entry.parentId.Some? ==> s.entry.parentId.value in st.entries
  }

  /** One step keeps every pointer resolved exactly if it names a stored parent. */
  lemma StepKeepsResolved(st: State, s: Step)
    requires Inv(st) && Enabled(st, s) && Resolved(st.entries)
    ensures Resolved(Do(st, s).entries) <==> NamesStored(st, s)
  {
    var es, es' := st.entries, Do(st, s).entries;
    match s {
      case Create(id, entry) =>
        assert es'[id] == entry;
        assert forall x :: x in es && x != id ==> es'[x] == es[x];
      case Delete(e) =>
        if e in es { SplicedResolved(es, e); }
    }
  }

  lemma SplicedResolved(es: Entries, e: Id)
    requires e in es && Acyclic(Links(es)) && Resolved(es)
    ensures Resolved(Spliced(es, e))
  {
    if es[e].parentId.Some? {
      ParentIsAncestor(Links(es), e);
      assert !Ancestor(Links(es), e, e);
    }
  }

  /** The pointers are resolved in each state of the run. */
  ghost predicate ResolvedThroughout(st: State, steps: seq<Step>)
    decreases |steps|
  {
    Resolved(st.entries) && (steps != [] ==> ResolvedThroughout(Do(st, steps[0]), steps[1..]))
  }

  /** Each create of the run names a parent that is stored by then, or none. */
  ghost predicate AllNameStored(st: State, steps: seq<Step>)
    decreases |steps|
  {
    steps != [] ==> NamesStored(st, steps[0]) && AllNameStored(Do(st, steps[0]), steps[1..])
  }

  /** Over any sequence of creates and deletes no pointer ever dangles exactly if every
      create names a stored parent or none: deletes never make one dangle. */
  lemma {:induction false} RunsResolvedExactly(st: State, steps: seq<Step>, st': State)
    requires Inv(st) && Runs(st, steps, st') && Resolved(st.entries)
    ensures ResolvedThroughout(st, steps) <==> AllNameStored(st, steps)
    ensures AllNameStored(st, steps) ==> Resolved(st'.entries)
    decreases |steps|
  {
    if steps != [] {
      var next := Do(st, steps[0]);
      StepKeepsResolved(st, steps[0]);
      StepKeeps(st, steps[0], "", "");
      if Resolved(next.entries) {
        RunsResolvedExactly(next, steps[1..], st');
      } else {
        assert !ResolvedThroughout(next, steps[1..]);
      }
    }
  }

  /** What is stored under `x`, told by the steps: the entry as created, with the parent
      of each parent that was deleted since. */
  function Told(base: Entries, steps: seq<Step>, x: Id): Option<Entry> {
    if steps == [] then (if x in base then Some(base[x]) else None) else
    var before := Told(base, steps[..|steps| - 1], x);
    match steps[|steps| - 1]
    case Create(id, entry) => if x == id then Some(entry) else before
    case Delete(e) =>
      var gone := Told(base, steps[..|steps| - 1], e);
      if x == e then None
      else if before.Some? && gone.Some? && before.value.parentId == Some(e) then
        var r := before.value;
        Some(Entry(r.promptId, gone.value.parentId, r.snapshot, r.userId, r.commitMessage, r.createdAt))
      else before
  }

  /** Runs seen from their end. */
  lemma {:induction false} LastStep(st: State, steps: seq<Step>, st': State) returns (before: State)
    requires Runs(st, steps, st') && steps != []
    ensures Runs(st, steps[..|steps| - 1], before) && Enabled(before, steps[|steps| - 1]) && st' == Do(before, steps[|steps| - 1])
    decreases |steps|
  {
    hide Enabled, Do;
    if |steps| == 1 {
      before := st;
      assert Runs(Do(st, steps[0]), steps[1..], st');
    } else {
      before := LastStep(Do(st, steps[0]), steps[1..], st');
      assert steps[1..][..|steps| - 2] == steps[..|steps| - 1][1..];
    }
  }

  /** After any run the entries are exactly what the steps tell. */
  lemma {:induction false} RunIsHistory(st: State, steps: seq<Step>, st': State, x: Id)
    requires Runs(st, steps, st')
    ensures Told(st.entries, steps, x) == if x in st'.entries then Some(st'.entries[x]) else None
    decreases |steps|
  {
    if steps != [] {
      var before := LastStep(st, steps, st');
      RunIsHistory(st, steps[..|steps| - 1], before, x);
      if steps[|steps| - 1].Delete? { RunIsHistory(st, steps[..|steps| - 1], before, steps[|steps| - 1].id); }
      hide Runs, Enabled;
    }
  }
}
