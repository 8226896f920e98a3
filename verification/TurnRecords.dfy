/** What a turn leaves in the history, told by what the client sent: the user message
    and, for each model, the id of its answer. */
module TurnRecords {
  import opened Collections
  import opened Json
  import opened Messages
  import opened ChatMessages
  import opened Chats
  import opened ChatTurn

  type Answers = seq<(string, Option<Id>)>

  /** The `i`-th model is to answer, under a non-empty id. */
  predicate Named(answers: Answers, i: int) {
    0 <= i < |answers| && answers[i].1.Some? && answers[i].1.value != ""
  }

  /** No later model answers under the same id. */
  ghost predicate LastNamed(answers: Answers, i: int) {
    Named(answers, i) && forall j :: i < j < |answers| ==> answers[j].1 != answers[i].1
  }

  ghost function NamedIds(answers: Answers): set<Id> {
    set i | 0 <= i < |answers| && Named(answers, i) :: answers[i].1.value
  }

  /** How many of the first `n` models are to answer. */
  ghost function Rank(answers: Answers, n: nat): nat
    requires n <= |answers|
  {
    |set i | 0 <= i < n && Named(answers, i)|
  }

  ghost function SentIds(t: Turn): set<Id> {
    var id := Get(t.user, Id);
    if id.Str? && id.s != "" then {id.s} else {}
  }

  const STARTED_KEYS: set<Key> := {Id, ParentId, ChildrenIds, Role, Content, Done, Model, Timestamp}

  /** What was stored before stays only in other keys. */
  ghost predicate OtherKeysKept(m: Message, was: Message) {
    m.Keys == was.Keys + STARTED_KEYS && forall k :: k in was && k !in STARTED_KEYS ==> m[k] == was[k]
  }

  /** An answer that was just started: empty and unfinished, under the user message. */
  ghost predicate Started(m: Message, was: Message, model: string, id: Id, parent: Json, now: int) {
    && OtherKeysKept(m, was)
    && m[Id] == Str(id) && m[ParentId] == parent && m[ChildrenIds] == List([])
    && m[Role] == Str("assistant") && m[Content] == Str("") && m[Done] == Bool(false)
    && m[Model] == Str(model) && m[Timestamp] == Num(now)
  }

  // ------------------------------------------------------------- targets by rank

  lemma NamedFront(answers: Answers, i: int)
    requires answers != []
    ensures Named(answers[..|answers| - 1], i) <==> Named(answers, i) && i != |answers| - 1
    ensures Named(answers[..|answers| - 1], i) ==> answers[..|answers| - 1][i] == answers[i]
  {
  }

  lemma NamedIdsFront(answers: Answers)
    requires answers != []
    ensures var front, n := answers[..|answers| - 1], |answers| - 1;
      NamedIds(answers) == NamedIds(front) + if Named(answers, n) then {answers[n].1.value} else {}
  {
    var front, n := answers[..|answers| - 1], |answers| - 1;
    forall a ensures a in NamedIds(answers) <==> a in NamedIds(front) || (Named(answers, n) && a == answers[n].1.value) {
      if a in NamedIds(answers) {
        var i :| 0 <= i < |answers| && Named(answers, i) && answers[i].1.value == a;
        assert i < n ==> Named(front, i) && front[i].1.value == a;
      }
      if a in NamedIds(front) {
        var i :| 0 <= i < |front| && Named(front, i) && front[i].1.value == a;
        assert Named(answers, i) && answers[i].1.value == a;
      }
    }
  }

  lemma TargetsFront(answers: Answers)
    requires answers != []
    ensures var front, n := answers[..|answers| - 1], |answers| - 1;
      Targets(answers) == if Named(answers, n) then Targets(front) + [(answers[n].0, answers[n].1.value)] else Targets(front)
  {
  }

  lemma RankNext(answers: Answers, n: nat)
    requires n < |answers|
    ensures Rank(answers, n + 1) == Rank(answers, n) + if Named(answers, n) then 1 else 0
  {
    var now, next := set i | 0 <= i < n && Named(answers, i), set i | 0 <= i < n + 1 && Named(answers, i);
    assert next == now + if Named(answers, n) then {n} else {};
  }

  lemma RankFront(answers: Answers, n: nat)
    requires answers != [] && n < |answers|
    ensures Rank(answers[..|answers| - 1], n) == Rank(answers, n)
  {
    var front := answers[..|answers| - 1];
    assert (set i | 0 <= i < n && Named(front, i)) == (set i | 0 <= i < n && Named(answers, i));
  }

  /** The list of targets: the `i`-th model, if it is to answer, stands behind those
      before it, and nothing else is in the list. */
  lemma {:induction false} TargetsByRank(answers: Answers)
    ensures |Targets(answers)| == Rank(answers, |answers|)
    ensures forall i :: Named(answers, i) ==>
              Rank(answers, i) < |Targets(answers)| && Targets(answers)[Rank(answers, i)] == (answers[i].0, answers[i].1.value)
  {
    if answers == [] {
      assert (set i | 0 <= i < 0 && Named(answers, i)) == {};
    } else {
      var front, n := answers[..|answers| - 1], |answers| - 1;
      TargetsByRank(front);
      TargetsFront(answers);
      RankNext(answers, n);
      RankFront(answers, n);
      hide Targets, Named, Rank, NamedIds;
      forall i | Named(answers, i)
        ensures Rank(answers, i) < |Targets(answers)| && Targets(answers)[Rank(answers, i)] == (answers[i].0, answers[i].1.value)
      {
        NamedFront(answers, i);
        NamedRange(answers, i);
        if i < n { RankFront(answers, i); }
      }
    }
  }

  lemma {:induction false} TargetsNamed(answers: Answers)
    ensures Elems(Ids(Targets(answers))) == NamedIds(answers)
  {
    if answers != [] {
      var front, n := answers[..|answers| - 1], |answers| - 1;
      TargetsNamed(front);
      TargetsFront(answers);
      NamedIdsFront(answers);
      if Named(answers, n) { IdsAppend(Targets(front), answers[n].0, answers[n].1.value); }
    }
  }

  lemma NamedRange(answers: Answers, i: int)
    requires Named(answers, i)
    ensures 0 <= i < |answers| && answers[i].1.Some?
  {
  }

  lemma IdsAppend(targets: seq<(string, Id)>, model: string, id: Id)
    ensures Ids(targets + [(model, id)]) == Ids(targets) + [id]
    ensures Elems(Ids(targets + [(model, id)])) == Elems(Ids(targets)) + {id}
  {
    assert Ids(targets + [(model, id)]) == Ids(targets) + [id];
  }

  // ------------------------------------------------------------------ the answers

  function Before(ms: MessageMap, id: Id): Message {
    if id in ms then ms[id] else map[]
  }

  /** Each answer is started over what `base` has under its id. */
  ghost predicate EachStarted(base: MessageMap, ms': MessageMap, answers: Answers, parent: Json, now: int) {
    forall i :: LastNamed(answers, i) ==> AnswerStarted(base, ms', answers, parent, now, i)
  }

  ghost predicate AnswerStarted(base: MessageMap, ms': MessageMap, answers: Answers, parent: Json, now: int, i: int)
    requires Named(answers, i)
  {
    var (model, id) := answers[i];
    id.value in ms' && Started(ms'[id.value], Before(base, id.value), model, id.value, parent, now)
  }

  /** No other message is changed, and no other key of an answer. */
  ghost predicate OthersKept(ms: MessageMap, base: MessageMap, ms': MessageMap, answers: Answers) {
    && ms'.Keys == ms.Keys + NamedIds(answers)
    && (forall x :: x in ms && x !in NamedIds(answers) ==> ms'[x] == ms[x])
    && (forall x :: x in NamedIds(answers) ==> OtherKeysKept(ms'[x], Before(base, x)))
  }

  ghost predicate AllStarted(ms: MessageMap, base: MessageMap, ms': MessageMap, answers: Answers, parent: Json, now: int) {
    OthersKept(ms, base, ms', answers) && EachStarted(base, ms', answers, parent, now)
  }

  lemma PlaceholderStarts(was: Message, model: string, id: Id, parent: Json, now: int)
    ensures Started(was + Placeholder(model, id, parent, now), was, model, id, parent, now)
  {
  }

  lemma StartedAgain(m: Message, once: Message, was: Message, model: string, id: Id, parent: Json, now: int)
    requires OtherKeysKept(once, was) && Started(m, once, model, id, parent, now)
    ensures Started(m, was, model, id, parent, now)
  {
  }

  lemma LastNamedFront(answers: Answers, i: int)
    requires answers != [] && LastNamed(answers, i) && i != |answers| - 1
    ensures LastNamed(answers[..|answers| - 1], i)
    ensures Named(answers, |answers| - 1) ==> answers[i].1.value != answers[|answers| - 1].1.value
  {
    NamedFront(answers, i);
  }

  /** One more answer. */
  lemma StartNext(ms: MessageMap, base: MessageMap, before: MessageMap, m: Message, answers: Answers, parent: Json, now: int)
    requires answers != [] && Named(answers, |answers| - 1)
    requires AllStarted(ms, base, before, answers[..|answers| - 1], parent, now)
    requires var (model, id) := answers[|answers| - 1]; Started(m, Before(base, id.value), model, id.value, parent, now)
    ensures AllStarted(ms, base, before[answers[|answers| - 1].1.value := m], answers, parent, now)
  {
    var n := |answers| - 1;
    var last := answers[n].1.value;
    StartedKeeps(m, Before(base, last), answers[n].0, last, parent, now);
    KeptNext(ms, base, before, m, answers);
    hide Started, Before, OthersKept, Named;
    forall i | LastNamed(answers, i) ensures AnswerStarted(base, before[last := m], answers, parent, now, i) {
      if i != n { StartedBefore(base, before, m, answers, parent, now, i); }
    }
  }

  lemma KeptNext(ms: MessageMap, base: MessageMap, before: MessageMap, m: Message, answers: Answers)
    requires answers != [] && Named(answers, |answers| - 1)
    requires OthersKept(ms, base, before, answers[..|answers| - 1])
    requires OtherKeysKept(m, Before(base, answers[|answers| - 1].1.value))
    ensures OthersKept(ms, base, before[answers[|answers| - 1].1.value := m], answers)
  {
    NamedIdsFront(answers);
    hide Before, OtherKeysKept, NamedIds;
  }

  lemma StartedBefore(base: MessageMap, before: MessageMap, m: Message, answers: Answers, parent: Json, now: int, i: int)
    requires answers != [] && LastNamed(answers, i) && i != |answers| - 1 && Named(answers, |answers| - 1)
    requires EachStarted(base, before, answers[..|answers| - 1], parent, now)
    ensures AnswerStarted(base, before[answers[|answers| - 1].1.value := m], answers, parent, now, i)
  {
    LastNamedFront(answers, i);
    hide Started, Before;
    assert AnswerStarted(base, before, answers[..|answers| - 1], parent, now, i);
  }

  lemma StartedKeeps(m: Message, was: Message, model: string, id: Id, parent: Json, now: int)
    requires Started(m, was, model, id, parent, now)
    ensures OtherKeysKept(m, was)
  {
  }

  lemma NoneNamed(ms: MessageMap, base: MessageMap, parent: Json, now: int)
    ensures AllStarted(ms, base, ms, [], parent, now)
  {
    assert NamedIds([]) == {};
  }

  /** A model that is not to answer changes nothing. */
  lemma StartNone(ms: MessageMap, base: MessageMap, ms': MessageMap, answers: Answers, parent: Json, now: int)
    requires answers != [] && !Named(answers, |answers| - 1)
    requires AllStarted(ms, base, ms', answers[..|answers| - 1], parent, now)
    ensures AllStarted(ms, base, ms', answers, parent, now)
  {
    KeptSame(ms, base, ms', answers);
    hide Started, Before, OthersKept;
    forall i | LastNamed(answers, i) ensures AnswerStarted(base, ms', answers, parent, now, i) {
      LastNamedFront(answers, i);
      assert AnswerStarted(base, ms', answers[..|answers| - 1], parent, now, i);
    }
  }

  lemma KeptSame(ms: MessageMap, base: MessageMap, ms': MessageMap, answers: Answers)
    requires answers != [] && !Named(answers, |answers| - 1)
    requires OthersKept(ms, base, ms', answers[..|answers| - 1])
    ensures OthersKept(ms, base, ms', answers)
  {
    NamedIdsFront(answers);
    hide Before, OtherKeysKept, NamedIds;
  }

  lemma {:induction false} MergedStarted(ms: MessageMap, answers: Answers, parent: Json, now: int)
    ensures AllStarted(ms, ms, MergeAll(ms, Targets(answers), parent, now), answers, parent, now)
  {
    if answers == [] {
      NoneNamed(ms, ms, parent, now);
    } else {
      var front, n := answers[..|answers| - 1], |answers| - 1;
      MergedStarted(ms, front, parent, now);
      TargetsFront(answers);
      if Named(answers, n) {
        var (model, id) := answers[n];
        var before := MergeAll(ms, Targets(front), parent, now);
        NextMerged(ms, before, front, model, id.value, parent, now);
        StartNext(ms, ms, before, Before(before, id.value) + Placeholder(model, id.value, parent, now), answers, parent, now);
        MergeNext(ms, Targets(front), model, id.value, parent, now);
      } else {
        StartNone(ms, ms, MergeAll(ms, Targets(front), parent, now), answers, parent, now);
      }
      hide *;
    }
  }

  lemma MergeNext(ms: MessageMap, targets: seq<(string, Id)>, model: string, id: Id, parent: Json, now: int)
    ensures var before := MergeAll(ms, targets, parent, now);
      MergeAll(ms, targets + [(model, id)], parent, now) == before[id := Before(before, id) + Placeholder(model, id, parent, now)]
  {
    assert (targets + [(model, id)])[..|targets|] == targets;
  }

  lemma NextMerged(ms: MessageMap, before: MessageMap, front: Answers, model: string, id: Id, parent: Json, now: int)
    requires AllStarted(ms, ms, before, front, parent, now)
    ensures Started(Before(before, id) + Placeholder(model, id, parent, now), Before(ms, id), model, id, parent, now)
  {
    PlaceholderStarts(Before(before, id), model, id, parent, now);
    hide Started, OtherKeysKept, Placeholder;
    if id in NamedIds(front) {
      StartedAgain(Before(before, id) + Placeholder(model, id, parent, now), before[id], Before(ms, id), model, id, parent, now);
    } else {
      assert Before(before, id) == Before(ms, id);
    }
  }

  /** In a new chat the placeholders replace what was there. */
  lemma {:induction false} AddedStarted(ms: MessageMap, answers: Answers, parent: Json, now: int)
    ensures AllStarted(ms, map[], AddPlaceholders(ms, Targets(answers), parent, now), answers, parent, now)
  {
    if answers == [] {
      NoneNamed(ms, map[], parent, now);
    } else {
      var front, n := answers[..|answers| - 1], |answers| - 1;
      AddedStarted(ms, front, parent, now);
      TargetsFront(answers);
      if Named(answers, n) {
        var (model, id) := answers[n];
        var before := AddPlaceholders(ms, Targets(front), parent, now);
        PlaceholderAlone(model, id.value, parent, now);
        StartNext(ms, map[], before, Placeholder(model, id.value, parent, now), answers, parent, now);
        AddNext(ms, Targets(front), model, id.value, parent, now);
      } else {
        StartNone(ms, map[], AddPlaceholders(ms, Targets(front), parent, now), answers, parent, now);
      }
      hide *;
    }
  }

  lemma PlaceholderAlone(model: string, id: Id, parent: Json, now: int)
    ensures Started(Placeholder(model, id, parent, now), map[], model, id, parent, now)
  {
    PlaceholderStarts(map[], model, id, parent, now);
    assert map[] + Placeholder(model, id, parent, now) == Placeholder(model, id, parent, now);
  }

  lemma AddNext(ms: MessageMap, targets: seq<(string, Id)>, model: string, id: Id, parent: Json, now: int)
    ensures AddPlaceholders(ms, targets + [(model, id)], parent, now)
         == AddPlaceholders(ms, targets, parent, now)[id := Placeholder(model, id, parent, now)]
  {
    assert (targets + [(model, id)])[..|targets|] == targets;
  }

  // ------------------------------------------------------------------ a later turn

  /** What is known under `x` once the user message was sent. */
  function Sent(ms: MessageMap, t: Turn, x: Id): Message {
    if x != "" && Get(t.user, Id) == Str(x) then Before(ms, x) + t.user else Before(ms, x)
  }

  /** The user message is stored and names `x` as its parent. */
  ghost predicate ParentOfSent(t: Turn, x: Id) {
    SentIds(t) != {} && x != "" && Get(t.user, ParentId) == Str(x)
  }

  /** The list of `x` once the user message was listed by its parent. */
  function ListWithUser(ms: MessageMap, t: Turn, x: Id): seq<Json> {
    var kids, child := Kids(Sent(ms, t, x)), Get(t.user, Id);
    if child.Str? && child.s != "" && x != "" && Get(t.user, ParentId) == Str(x) && Sent(ms, t, x) != map[] && child !in kids
    then kids + [child] else kids
  }

  /** Every answer stands at the end of the list, in the order of the models. */
  ghost predicate ListedInOrder(kids: seq<Json>, kids': seq<Json>, answers: Answers) {
    && |kids'| == |kids| + Rank(answers, |answers|)
    && forall i :: Named(answers, i) ==>
         Rank(answers, i) < Rank(answers, |answers|) && kids'[|kids| + Rank(answers, i)] == Str(answers[i].1.value)
  }

  /** No two models answer under the same id, and none under an id listed before. */
  ghost predicate NewAnswers(kids: seq<Json>, answers: Answers) {
    && (forall i, j :: i < j && Named(answers, i) && Named(answers, j) ==> answers[i].1.value != answers[j].1.value)
    && forall i :: Named(answers, i) ==> Str(answers[i].1.value) !in kids
  }

  /** The list of the user message names what it named, and every answer. */
  ghost predicate AnswersListed(kids: seq<Json>, kids': seq<Json>, answers: Answers) {
    && kids <= kids'
    && (forall k :: k in kids' <==> k in kids || (k.Str? && k.s in NamedIds(answers)))
    && (NewAnswers(kids, answers) ==> ListedInOrder(kids, kids', answers))
  }

  ghost predicate SameButList(m: Message, m': Message) {
    forall k :: k != ChildrenIds ==> (k in m <==> k in m') && Get(m, k) == Get(m', k)
  }

  /** A message that is no answer: other fields as sent or as before, and its list. */
  ghost predicate OtherRecorded(ms: MessageMap, m: Message, t: Turn, x: Id) {
    && SameButList(Sent(ms, t, x), m)
    && (if x in SentIds(t) then AnswersListed(ListWithUser(ms, t, x), Kids(m), t.answers)
        else Kids(m) == ListWithUser(ms, t, x))
    && (x !in SentIds(t) && !ParentOfSent(t, x) ==> m == Before(ms, x))
  }

  /** What the turn leaves: the user message as sent, every answer started and listed,
      no other id, and nothing else changed but the parent's list. */
  ghost predicate TurnRecorded(ms: MessageMap, ms': MessageMap, t: Turn, now: int) {
    && ms'.Keys == ms.Keys + SentIds(t) + NamedIds(t.answers)
    && (forall i :: LastNamed(t.answers, i) ==>
          var (model, id) := t.answers[i];
          id.value in ms' && Started(ms'[id.value], Sent(ms, t, id.value), model, id.value, Get(t.user, Id), now))
    && (forall x :: x in ms' && x !in NamedIds(t.answers) ==> OtherRecorded(ms, ms'[x], t, x))
  }

  lemma {:induction false} AppendAllNew(kids: seq<Json>, ids: seq<Id>)
    requires NoDup(ids) && forall a :: a in ids ==> Str(a) !in kids
    ensures |AppendNew(kids, ids)| == |kids| + |ids|
    ensures forall i :: 0 <= i < |ids| ==> AppendNew(kids, ids)[|kids| + i] == Str(ids[i])
  {
    if ids != [] {
      var front, last := ids[..|ids| - 1], ids[|ids| - 1];
      assert ids == front + [last];
      NoDupFront(front, last);
      AppendAllNew(kids, front);
      AppendNewMembers(kids, front);
    }
  }

  lemma {:induction false} NewIdsDistinct(kids: seq<Json>, answers: Answers)
    requires NewAnswers(kids, answers)
    ensures NoDup(Ids(Targets(answers))) && forall a :: a in Ids(Targets(answers)) ==> Str(a) !in kids
  {
    if answers != [] {
      var front, n := answers[..|answers| - 1], |answers| - 1;
      forall i ensures Named(front, i) ==> Named(answers, i) && front[i] == answers[i] { NamedFront(answers, i); }
      NewIdsDistinct(kids, front);
      TargetsFront(answers);
      if Named(answers, n) {
        TargetsNamed(front);
        IdsAppend(Targets(front), answers[n].0, answers[n].1.value);
        NoDupAppend(Ids(Targets(front)), answers[n].1.value);
      }
    }
  }

  lemma AppendedInOrder(kids: seq<Json>, answers: Answers)
    requires NewAnswers(kids, answers)
    ensures ListedInOrder(kids, AppendNew(kids, Ids(Targets(answers))), answers)
  {
    NewIdsDistinct(kids, answers);
    AppendAllNew(kids, Ids(Targets(answers)));
    TargetsByRank(answers);
    hide *;
    InOrder(kids, AppendNew(kids, Ids(Targets(answers))), Targets(answers), answers);
  }

  lemma InOrder(kids: seq<Json>, kids': seq<Json>, targets: seq<(string, Id)>, answers: Answers)
    requires |targets| == Rank(answers, |answers|) && |kids'| == |kids| + |targets|
    requires forall i :: Named(answers, i) ==>
               Rank(answers, i) < |targets| && targets[Rank(answers, i)] == (answers[i].0, answers[i].1.value)
    requires forall i :: 0 <= i < |Ids(targets)| ==> kids'[|kids| + i] == Str(Ids(targets)[i])
    ensures ListedInOrder(kids, kids', answers)
  {
    hide Rank;
    forall i | Named(answers, i) ensures kids'[|kids| + Rank(answers, i)] == Str(answers[i].1.value) {
      assert Ids(targets)[Rank(answers, i)] == answers[i].1.value;
    }
  }

  lemma AppendedListed(kids: seq<Json>, answers: Answers)
    ensures AnswersListed(kids, AppendNew(kids, Ids(Targets(answers))), answers)
  {
    var ids := Ids(Targets(answers));
    AppendNewMembers(kids, ids);
    TargetsNamed(answers);
    if NewAnswers(kids, answers) { AppendedInOrder(kids, answers); }
    hide Targets, NamedIds, ListedInOrder, NewAnswers, AppendNew, Ids;
    assert forall a :: a in ids <==> a in Elems(ids);
  }

  lemma KidsPatch(m: Message, kids: seq<Json>)
    ensures m + map[ChildrenIds := List(kids)] == m[ChildrenIds := List(kids)]
  {
  }

  lemma LinkIs(db: Db, c: Id, t: Turn, now: int)
    requires c in db.chats && LinkGrandparent(db, c, t, now).Saved?
    ensures var ms, db', g, child := MessagesOf(db, c), LinkGrandparent(db, c, t, now).db, Get(t.user, ParentId), Get(t.user, Id);
      && OnlyChat(db, db', c)
      && MessagesOf(db', c) ==
           if child.Str? && child.s != "" && g.Str? && g.s != "" && g.s in ms && ms[g.s] != map[] && child !in Kids(ms[g.s])
           then SetKids(ms, g.s, Kids(ms[g.s]) + [child]) else ms
  {
    hide UpsertRow;
    forall m, kids { KidsPatch(m, kids); }
  }

  lemma AnnounceIs(db: Db, c: Id, t: Turn, now: int)
    requires c in db.chats && LinkAnswers(db, c, t, now).Saved?
    ensures var ms, db', u := MessagesOf(db, c), LinkAnswers(db, c, t, now).db, Get(t.user, Id);
      && OnlyChat(db, db', c)
      && MessagesOf(db', c) ==
           if u.Str? && u.s != "" && u.s in ms && ms[u.s] != map[] && Targets(t.answers) != []
           then SetKids(ms, u.s, AppendNew(Kids(ms[u.s]), Ids(Targets(t.answers)))) else ms
  {
    hide UpsertRow, AppendNew, Targets;
    forall m, kids { KidsPatch(m, kids); }
  }

  lemma SaveAnswerIs(db: Db, c: Id, target: (string, Id), parent: Json, now: int)
    requires c in db.chats
    ensures var db' := Upsert(db, c, target.1, Placeholder(target.0, target.1, parent, now), now);
      OnlyChat(db, db', c) && MessagesOf(db', c) == Merged(MessagesOf(db, c), target, parent, now)
  {
    hide UpsertRow, Placeholder;
  }

  lemma {:induction false} SaveAnswersIs(db: Db, c: Id, targets: seq<(string, Id)>, parent: Json, now: int)
    requires c in db.chats
    ensures var db' := SaveAnswers(db, c, targets, parent, now);
      OnlyChat(db, db', c) && MessagesOf(db', c) == MergeAll(MessagesOf(db, c), targets, parent, now)
  {
    hide Upsert, Merged, Placeholder;
    if targets != [] {
      var front := targets[..|targets| - 1];
      SaveAnswersIs(db, c, front, parent, now);
      SaveAnswerIs(SaveAnswers(db, c, front, parent, now), c, targets[|targets| - 1], parent, now);
    }
  }

  lemma SaveUserIs(db: Db, c: Id, t: Turn, now: int)
    requires c in db.chats
    ensures var ms, db', u := MessagesOf(db, c), SaveUser(db, c, t, now), Get(t.user, Id);
      && OnlyChat(db, db', c)
      && MessagesOf(db', c) == if u.Str? && u.s != "" then ms[u.s := Sent(ms, t, u.s)] else ms
  {
    hide UpsertRow;
  }

  /** A message once the user message is stored and listed by its parent. */
  ghost predicate AsSentAndListed(ms: MessageMap, m: Message, t: Turn, x: Id) {
    && SameButList(Sent(ms, t, x), m)
    && Kids(m) == ListWithUser(ms, t, x)
    && (!ParentOfSent(t, x) ==> m == Sent(ms, t, x))
  }

  lemma SentAndListed(db: Db, c: Id, t: Turn, now: int)
    requires c in db.chats && LinkGrandparent(SaveUser(db, c, t, now), c, t, now).Saved?
    ensures var ms, db' := MessagesOf(db, c), LinkGrandparent(SaveUser(db, c, t, now), c, t, now).db;
      && OnlyChat(db, db', c)
      && MessagesOf(db', c).Keys == ms.Keys + SentIds(t)
      && forall x :: x in MessagesOf(db', c) ==> AsSentAndListed(ms, MessagesOf(db', c)[x], t, x)
  {
    var ms, db1 := MessagesOf(db, c), SaveUser(db, c, t, now);
    SaveUserIs(db, c, t, now);
    LinkIs(db1, c, t, now);
    PutIs(ms, MessagesOf(db1, c), t);
    hide *;
    OnlyChatTransitive(db, db1, LinkGrandparent(db1, c, t, now).db, c);
    ListedByParent(ms, MessagesOf(db1, c), MessagesOf(LinkGrandparent(db1, c, t, now).db, c), t);
  }

  lemma SentStored(db: Db, c: Id, t: Turn, now: int, x: Id)
    requires c in db.chats
    ensures StoredIn(SaveUser(db, c, t, now), c, x) == Sent(MessagesOf(db, c), t, x)
  {
    SaveUserIs(db, c, t, now);
    hide SaveUser;
  }

  lemma PutIs(ms: MessageMap, ms1: MessageMap, t: Turn)
    requires var u := Get(t.user, Id); ms1 == if u.Str? && u.s != "" then ms[u.s := Sent(ms, t, u.s)] else ms
    ensures ms1.Keys == ms.Keys + SentIds(t) && forall x :: x in ms1 ==> ms1[x] == Sent(ms, t, x)
  {
  }

  lemma ListedByParent(ms: MessageMap, ms1: MessageMap, ms2: MessageMap, t: Turn)
    requires ms1.Keys == ms.Keys + SentIds(t) && forall x :: x in ms1 ==> ms1[x] == Sent(ms, t, x)
    requires var g, child := Get(t.user, ParentId), Get(t.user, Id);
      ms2 == if child.Str? && child.s != "" && g.Str? && g.s != "" && g.s in ms1 && ms1[g.s] != map[] && child !in Kids(ms1[g.s])
             then SetKids(ms1, g.s, Kids(ms1[g.s]) + [child]) else ms1
    ensures ms2.Keys == ms1.Keys && forall x :: x in ms2 ==> AsSentAndListed(ms, ms2[x], t, x)
  {
    var child, g := Get(t.user, Id), Get(t.user, ParentId);
    forall x | x in ms2 ensures AsSentAndListed(ms, ms2[x], t, x) {
      hide Sent, SetKids, Get, Kids, AsSentAndListed, SentIds, ListWithUser;
      SetKidsAt(ms1, g, child, x);
      MaybeListed(ms, t, x);
    }
  }

  lemma SetKidsAt(ms: MessageMap, g: Json, child: Json, x: Id)
    ensures g.Str? && g.s in ms && x in ms ==>
              SetKids(ms, g.s, Kids(ms[g.s]) + [child])[x] == if g == Str(x) then ms[x][ChildrenIds := List(Kids(ms[x]) + [child])] else ms[x]
  {
  }

  /** The parent's list grows by the user message, unless it is there already. */
  lemma MaybeListed(ms: MessageMap, t: Turn, x: Id)
    ensures var m, child := Sent(ms, t, x), Get(t.user, Id);
      if child.Str? && child.s != "" && x != "" && Get(t.user, ParentId) == Str(x) && m != map[] && child !in Kids(m)
      then AsSentAndListed(ms, m[ChildrenIds := List(Kids(m) + [child])], t, x) else AsSentAndListed(ms, m, t, x)
  {
    hide Sent;
  }

  lemma NewList(sent: Message, m: Message, kids: seq<Json>)
    requires SameButList(sent, m)
    ensures SameButList(sent, m[ChildrenIds := List(kids)]) && Kids(m[ChildrenIds := List(kids)]) == kids
  {
  }

  /** Only the user message gets a new list. */
  lemma AnnouncedRecorded(ms: MessageMap, m: Message, t: Turn, x: Id)
    requires AsSentAndListed(ms, m, t, x)
    ensures var kids := AppendNew(Kids(m), Ids(Targets(t.answers)));
      && (x in SentIds(t) ==> OtherRecorded(ms, m[ChildrenIds := List(kids)], t, x))
      && (x !in SentIds(t) || Targets(t.answers) == [] ==> OtherRecorded(ms, m, t, x))
  {
    AppendedListed(Kids(m), t.answers);
    NewList(Sent(ms, t, x), m, AppendNew(Kids(m), Ids(Targets(t.answers))));
    assert Targets(t.answers) == [] ==> AppendNew(Kids(m), Ids(Targets(t.answers))) == Kids(m);
    assert x !in SentIds(t) ==> Sent(ms, t, x) == Before(ms, x);
    hide AnswersListed, AppendNew, Targets, Ids, ListWithUser, Sent, SameButList, SentIds, Kids, Before;
  }

  lemma StoredNotEmpty(ms: MessageMap, m: Message, t: Turn, x: Id)
    requires AsSentAndListed(ms, m, t, x) && x in SentIds(t)
    ensures m != map[]
  {
    assert Id in Sent(ms, t, x);
  }

  /** The messages when the answers have been announced and not started yet. */
  lemma AllAnnounced(ms: MessageMap, ms2: MessageMap, ms3: MessageMap, t: Turn)
    requires forall x :: x in ms2 ==> AsSentAndListed(ms, ms2[x], t, x)
    requires var u := Get(t.user, Id);
      ms3 == if u.Str? && u.s != "" && u.s in ms2 && ms2[u.s] != map[] && Targets(t.answers) != []
             then SetKids(ms2, u.s, AppendNew(Kids(ms2[u.s]), Ids(Targets(t.answers)))) else ms2
    ensures ms3.Keys == ms2.Keys && forall x :: x in ms3 ==> OtherRecorded(ms, ms3[x], t, x)
  {
    hide AsSentAndListed, OtherRecorded, Targets, Ids, AppendNew, Kids;
    forall x | x in ms3 ensures OtherRecorded(ms, ms3[x], t, x) {
      AnnouncedRecorded(ms, ms2[x], t, x);
      if x in SentIds(t) { StoredNotEmpty(ms, ms2[x], t, x); }
    }
  }

  lemma StartedOver(m: Message, was: Message, sent: Message, model: string, id: Id, parent: Json, now: int)
    requires Started(m, was, model, id, parent, now) && SameButList(sent, was)
    ensures Started(m, sent, model, id, parent, now)
  {
    KeptOver(m, was, sent);
    hide OtherKeysKept, SameButList;
  }

  lemma KeptOver(m: Message, was: Message, sent: Message)
    requires OtherKeysKept(m, was) && SameButList(sent, was)
    ensures OtherKeysKept(m, sent)
  {
    forall k ensures k in m <==> k in sent || k in STARTED_KEYS {
      assert k != ChildrenIds ==> (k in sent <==> k in was);
    }
    forall k | k in sent && k !in STARTED_KEYS ensures m[k] == sent[k] {
      assert Get(sent, k) == Get(was, k);
    }
  }

  lemma SentBefore(ms: MessageMap, ms3: MessageMap, t: Turn, a: Id)
    requires ms3.Keys == ms.Keys + SentIds(t) && (a in ms3 ==> OtherRecorded(ms, ms3[a], t, a))
    ensures SameButList(Sent(ms, t, a), Before(ms3, a))
  {
  }

  lemma AllRecorded(ms: MessageMap, ms3: MessageMap, ms': MessageMap, t: Turn, now: int)
    requires ms3.Keys == ms.Keys + SentIds(t) && forall x :: x in ms3 ==> OtherRecorded(ms, ms3[x], t, x)
    requires AllStarted(ms3, ms3, ms', t.answers, Get(t.user, Id), now)
    ensures TurnRecorded(ms, ms', t, now)
  {
    hide OtherRecorded, Started, OtherKeysKept, Sent, Before, NamedIds, SentIds, SameButList;
    forall i | LastNamed(t.answers, i)
      ensures var (model, id) := t.answers[i];
        id.value in ms' && Started(ms'[id.value], Sent(ms, t, id.value), model, id.value, Get(t.user, Id), now)
    {
      var (model, id) := t.answers[i];
      assert AnswerStarted(ms3, ms', t.answers, Get(t.user, Id), now, i);
      SentBefore(ms, ms3, t, id.value);
      StartedOver(ms'[id.value], Before(ms3, id.value), Sent(ms, t, id.value), model, id.value, Get(t.user, Id), now);
    }
  }

  /** A later turn that is not aborted leaves the user message as sent, every answer
      started under it and listed by it, no other id, and nothing else changed but the
      list of the user message's parent. */
  lemma LaterTurnRecorded(db: Db, c: Id, t: Turn, now: int)
    requires c in db.chats && SaveTurn(db, c, t, now).Saved?
    ensures var db' := SaveTurn(db, c, t, now).db;
      OnlyChat(db, db', c) && TurnRecorded(MessagesOf(db, c), MessagesOf(db', c), t, now)
  {
    var ms, parent := MessagesOf(db, c), Get(t.user, Id);
    var db2 := LinkGrandparent(SaveUser(db, c, t, now), c, t, now).db;
    var db3 := LinkAnswers(db2, c, t, now).db;
    var db' := SaveAnswers(db3, c, Targets(t.answers), parent, now);
    assert SaveTurn(db, c, t, now).db == db';
    assert LinkGrandparent(SaveUser(db, c, t, now), c, t, now).Saved? && LinkAnswers(db2, c, t, now).Saved?;
    hide *;
    SentAndListed(db, c, t, now);
    assert c in db2.chats by { InChats(db, db2, c); }
    AnnounceIs(db2, c, t, now);
    assert c in db3.chats by { InChats(db2, db3, c); }
    AllAnnounced(ms, MessagesOf(db2, c), MessagesOf(db3, c), t);
    SaveAnswersIs(db3, c, Targets(t.answers), parent, now);
    MergedStarted(MessagesOf(db3, c), t.answers, parent, now);
    AllRecorded(ms, MessagesOf(db3, c), MessagesOf(db', c), t, now);
    OnlyChatTransitive(db, db2, db3, c);
    OnlyChatTransitive(db, db3, db', c);
  }

  /** The stored message `x` has something else than a list of children. */
  ghost predicate Unlistable(ms: MessageMap, t: Turn, x: Id) {
    ChildrenIds in Sent(ms, t, x) && !Sent(ms, t, x)[ChildrenIds].List?
  }

  /** A turn is aborted exactly when the user message or, if it has one, its stored
      parent has no list to be extended; then what is left is what the turn would
      leave without answers. */
  lemma AbortedExactly(db: Db, c: Id, t: Turn, now: int)
    requires c in db.chats
    ensures SaveTurn(db, c, t, now).Aborted? <==>
            exists u, x :: u in SentIds(t) && Unlistable(MessagesOf(db, c), t, x) &&
              (ParentOfSent(t, x) || (x == u && NamedIds(t.answers) != {}))
    ensures SaveTurn(db, c, t, now).Aborted? ==> SaveTurn(db, c, t, now).db == SaveTurn(db, c, t.(answers := []), now).db
  {
    AbortedLeaves(db, c, t, now);
    var ms, db1 := MessagesOf(db, c), SaveUser(db, c, t, now);
    SaveUserIs(db, c, t, now);
    PutIs(ms, MessagesOf(db1, c), t);
    LinkAborted(db1, ms, c, t, now);
    var linked := LinkGrandparent(db1, c, t, now);
    if linked.Saved? {
      LinkIs(db1, c, t, now);
      NoTargets(t.answers);
      AnnounceAborted(ms, db1, c, t, now);
    }
    hide SaveUser, LinkGrandparent, LinkAnswers, Targets, Unlistable, NamedIds, SentIds;
  }

  lemma AbortedLeaves(db: Db, c: Id, t: Turn, now: int)
    ensures SaveTurn(db, c, t, now).Aborted? ==> SaveTurn(db, c, t.(answers := []), now).db == SaveTurn(db, c, t, now).db
  {
    hide Upsert, AppendNew;
  }

  lemma NoTargets(answers: Answers)
    ensures Targets(answers) == [] <==> NamedIds(answers) == {}
  {
    TargetsNamed(answers);
    assert Targets(answers) != [] ==> Ids(Targets(answers))[0] in Elems(Ids(Targets(answers)));
  }

  lemma LinkAborted(db1: Db, ms: MessageMap, c: Id, t: Turn, now: int)
    requires c in db1.chats && MessagesOf(db1, c).Keys == ms.Keys + SentIds(t)
    requires forall x :: x in MessagesOf(db1, c) ==> MessagesOf(db1, c)[x] == Sent(ms, t, x)
    ensures LinkGrandparent(db1, c, t, now).Aborted? <==> exists x :: ParentOfSent(t, x) && Unlistable(ms, t, x)
  {
    forall x ensures StoredIn(db1, c, x) == Sent(ms, t, x) {}
    hide Upsert, Sent;
    if LinkGrandparent(db1, c, t, now).Aborted? {
      assert ParentOfSent(t, Parent(t.user).value) && Unlistable(ms, t, Parent(t.user).value);
    }
  }

  lemma AnnounceAborted(ms: MessageMap, db1: Db, c: Id, t: Turn, now: int)
    requires c in db1.chats && MessagesOf(db1, c).Keys == ms.Keys + SentIds(t)
    requires forall x :: x in MessagesOf(db1, c) ==> MessagesOf(db1, c)[x] == Sent(ms, t, x)
    requires LinkGrandparent(db1, c, t, now).Saved?
    ensures LinkAnswers(LinkGrandparent(db1, c, t, now).db, c, t, now).Aborted? <==>
            exists u :: u in SentIds(t) && Unlistable(ms, t, u) && Targets(t.answers) != []
  {
    var db2 := LinkGrandparent(db1, c, t, now).db;
    LinkIs(db1, c, t, now);
    LinkAborted(db1, ms, c, t, now);
    forall u | u in SentIds(t)
      ensures NotAList(StoredIn(db2, c, u)) <==> Unlistable(ms, t, u)
      ensures StoredIn(db2, c, u) != map[]
    {
      assert u in MessagesOf(db1, c) && Id in Sent(ms, t, u);
      hide LinkGrandparent;
    }
    hide LinkGrandparent, Upsert, AppendNew, Targets, Sent;
  }

  /** Completed or aborted, a turn leaves other chats alone. */
  lemma TurnElsewhere(db: Db, c: Id, t: Turn, now: int)
    requires c in db.chats
    ensures OnlyChat(db, SaveTurn(db, c, t, now).db, c)
  {
    var db1 := SaveUser(db, c, t, now);
    var linked := LinkGrandparent(db1, c, t, now);
    if SaveTurn(db, c, t, now).Saved? {
      LaterTurnRecorded(db, c, t, now);
    } else {
      assert LinkAnswers(linked.db, c, t, now).Aborted? ==> LinkAnswers(linked.db, c, t, now).db == linked.db by {
        hide Upsert, AppendNew;
      }
      assert linked.Aborted? ==> linked.db == db1 by { hide Upsert; }
      SaveUserIs(db, c, t, now);
      if linked.Saved? { SentAndListed(db, c, t, now); }
    }
    hide SaveUser, LinkGrandparent, LinkAnswers, SaveAnswers, OnlyChat, TurnRecorded;
  }

  lemma InChats(db: Db, db': Db, c: Id)
    requires OnlyChat(db, db', c) && c in db.chats
    ensures c in db'.chats
  {
  }

  // -------------------------------------------------------------------- a first turn

  /** The first, or last, model that is to answer. */
  ghost predicate FirstNamed(answers: Answers, i: int) {
    Named(answers, i) && forall j :: 0 <= j < i ==> !Named(answers, j)
  }

  ghost predicate FinalNamed(answers: Answers, i: int) {
    Named(answers, i) && forall j :: i < j < |answers| ==> !Named(answers, j)
  }

  /** What a first turn writes: the user message as sent, with the answers as its
      children in the order of the models; every answer started; no other id; and the
      first answer, if there is one, as the current message. */
  ghost predicate HistoryRecorded(h: History, t: Turn, now: int) {
    && h.messages.Keys == SentIds(t) + NamedIds(t.answers)
    && (forall i :: LastNamed(t.answers, i) ==>
          var (model, id) := t.answers[i];
          id.value in h.messages && Started(h.messages[id.value], map[], model, id.value, Get(t.user, Id), now))
    && (forall u :: u in SentIds(t) && u !in NamedIds(t.answers) && u in h.messages ==>
          && SameButList(t.user, h.messages[u])
          && ChildrenIds in h.messages[u] && h.messages[u][ChildrenIds].List?
          && ListedInOrder([], h.messages[u][ChildrenIds].xs, t.answers))
    && (forall i :: FirstNamed(t.answers, i) ==> h.currentId == Str(t.answers[i].1.value))
    && ((forall i :: !Named(t.answers, i)) ==> h.currentId == Get(t.user, Id))
  }

  lemma {:induction false} TargetsEnds(answers: Answers)
    ensures Targets(answers) == [] <==> forall i :: !Named(answers, i)
    ensures forall i :: FirstNamed(answers, i) ==> Targets(answers) != [] && Targets(answers)[0].1 == answers[i].1.value
    ensures forall i :: FinalNamed(answers, i) ==>
              Targets(answers) != [] && Targets(answers)[|Targets(answers)| - 1].1 == answers[i].1.value
  {
    if answers != [] {
      var front, n := answers[..|answers| - 1], |answers| - 1;
      TargetsEnds(front);
      TargetsFront(answers);
      forall i ensures (Named(front, i) <==> Named(answers, i) && i != n) && (Named(front, i) ==> front[i] == answers[i]) {
        NamedFront(answers, i);
      }
      hide Targets;
      forall i | FirstNamed(answers, i) ensures Targets(answers) != [] && Targets(answers)[0].1 == answers[i].1.value {
        if i != n { assert FirstNamed(front, i); } else { assert forall j :: !Named(front, j); }
      }
      forall i | FinalNamed(answers, i)
        ensures Targets(answers) != [] && Targets(answers)[|Targets(answers)| - 1].1 == answers[i].1.value
      {
        if i != n { assert FinalNamed(front, i); }
      }
    }
  }

  lemma FirstListed(answers: Answers)
    ensures ListedInOrder([], AsStrs(Ids(Targets(answers))), answers)
  {
    TargetsByRank(answers);
    hide Targets, Rank, Named;
    AsStrsEach(Ids(Targets(answers)));
    InOrder([], AsStrs(Ids(Targets(answers))), Targets(answers), answers);
  }

  lemma AsStrsEach(ids: seq<Id>)
    ensures forall i :: 0 <= i < |ids| ==> AsStrs(ids)[i] == Str(ids[i])
  {
  }

  lemma FirstTurnRecorded(t: Turn, now: int)
    ensures HistoryRecorded(NewHistory(t, now), t, now)
  {
    var ms := FirstMessages(t);
    AddedStarted(ms, t.answers, Get(t.user, Id), now);
    TargetsEnds(t.answers);
    FirstListed(t.answers);
    hide Targets, NamedIds, Named, Started, OtherKeysKept, ListedInOrder, AddPlaceholders;
  }
}
