/** The part of a chat completion that records a turn: the user message, one
    placeholder per model, and the links between them, written by hand in both
    directions. */
module ChatTurn {
  import opened Collections
  import opened Json
  import opened Forest
  import opened Messages
  import opened ChatMessages
  import opened Chats

  /** `message_ids` maps each model to the id its answer will have, if any. */
  datatype Turn = Turn(user: Message, answers: seq<(string, Option<Id>)>)

  function UserId(t: Turn): Option<Id> {
    Pointer(Get(t.user, Id))
  }

  /** The answers with a truthy id, in order. */
  function Targets(answers: seq<(string, Option<Id>)>): seq<(string, Id)> {
    if answers == [] then [] else
    var (model, id) := answers[|answers| - 1];
    Targets(answers[..|answers| - 1]) + (if id.Some? && id.value != "" then [(model, id.value)] else [])
  }

  function Ids(targets: seq<(string, Id)>): (ids: seq<Id>)
    ensures |ids| == |targets|
  {
    seq(|targets|, i requires 0 <= i < |targets| => targets[i].1)
  }

  function AnswerIds(t: Turn): seq<Id> {
    Ids(Targets(t.answers))
  }

  function AsStrs(ids: seq<Id>): (s: seq<Json>)
    ensures |s| == |ids|
    ensures forall k :: k in s <==> k.Str? && k.s in ids
  {
    var s := seq(|ids|, i requires 0 <= i < |ids| => Str(ids[i]));
    assert forall x :: x in ids ==> exists i :: 0 <= i < |ids| && ids[i] == x && s[i] == Str(x);
    s
  }

  function Placeholder(model: string, id: Id, parent: Json, now: int): Message {
    map[Id := Str(id), ParentId := parent, ChildrenIds := List([]), Role := Str("assistant"),
        Content := Str(""), Done := Bool(false), Model := Str(model), Timestamp := Num(now)]
  }

  // ------------------------------------------------------------ existing chat

  /** A turn is recorded completely, or aborted half-way by an exception. */
  datatype Outcome = Saved(db: Db) | Aborted(db: Db)

  function StoredIn(db: Db, c: Id, m: Id): Message {
    if c in db.chats then Stored(db.chats[c].history, m) else map[]
  }

  function SaveUser(db: Db, c: Id, t: Turn, now: int): Db {
    match UserId(t)
    case Some(u) => Upsert(db, c, u, t.user, now)
    case None => db
  }

  /** `childrenIds` must be a list to be appended to. */
  predicate NotAList(m: Message) {
    ChildrenIds in m && !m[ChildrenIds].List?
  }

  function LinkGrandparent(db: Db, c: Id, t: Turn, now: int): Outcome {
    var g := Parent(t.user);
    if UserId(t).None? || g.None? || StoredIn(db, c, g.value) == map[] then Saved(db) else
    var grandparent := StoredIn(db, c, g.value);
    var child := Str(UserId(t).value);
    if NotAList(grandparent) then Aborted(db)
    else if child in Kids(grandparent) then Saved(db)
    else Saved(Upsert(db, c, g.value, map[ChildrenIds := List(Kids(grandparent) + [child])], now))
  }

  /** Append the ids that are not listed yet. */
  function AppendNew(kids: seq<Json>, ids: seq<Id>): seq<Json> {
    if ids == [] then kids else
    var front := AppendNew(kids, ids[..|ids| - 1]);
    var last := Str(ids[|ids| - 1]);
    if last in front then front else front + [last]
  }

  function LinkAnswers(db: Db, c: Id, t: Turn, now: int): Outcome {
    if UserId(t).None? || AnswerIds(t) == [] then Saved(db) else
    var user := StoredIn(db, c, UserId(t).value);
    if user == map[] then Saved(db)
    else if NotAList(user) then Aborted(db)
    else Saved(Upsert(db, c, UserId(t).value, map[ChildrenIds := List(AppendNew(Kids(user), AnswerIds(t)))], now))
  }

  function SaveAnswers(db: Db, c: Id, targets: seq<(string, Id)>, parent: Json, now: int): Db {
    if targets == [] then db else
    var (model, id) := targets[|targets| - 1];
    Upsert(SaveAnswers(db, c, targets[..|targets| - 1], parent, now), c, id, Placeholder(model, id, parent, now), now)
  }

  /** The turn, in the order of its writes. */
  function SaveTurn(db: Db, c: Id, t: Turn, now: int): Outcome {
    var linked := LinkGrandparent(SaveUser(db, c, t, now), c, t, now);
    if linked.Aborted? then linked else
    var announced := LinkAnswers(linked.db, c, t, now);
    if announced.Aborted? then announced else
    Saved(SaveAnswers(announced.db, c, Targets(t.answers), Get(t.user, Id), now))
  }

  // ----------------------------------------------------------------- new chat

  function AddPlaceholders(ms: MessageMap, targets: seq<(string, Id)>, parent: Json, now: int): MessageMap {
    if targets == [] then ms else
    var (model, id) := targets[|targets| - 1];
    AddPlaceholders(ms, targets[..|targets| - 1], parent, now)[id := Placeholder(model, id, parent, now)]
  }

  function FirstMessages(t: Turn): MessageMap {
    match UserId(t)
    case Some(u) => map[u := t.user[ChildrenIds := List(AsStrs(AnswerIds(t)))]]
    case None => map[]
  }

  function NewHistory(t: Turn, now: int): History {
    History(AddPlaceholders(FirstMessages(t), Targets(t.answers), Get(t.user, Id), now),
            if AnswerIds(t) != [] then Str(AnswerIds(t)[0]) else Get(t.user, Id))
  }

  // -------------------------------------------------------- what a client owes

  /** Nobody has heard of this id. */
  ghost predicate Fresh(ms: MessageMap, m: Id) {
    m != "" && m !in ms && forall x :: x in ms ==> Parent(ms[x]) != Some(m)
  }

  const LINK_KEYS: set<Key> := {Id, ParentId, ChildrenIds}

  /** The patch repeats the identity and the links of a stored message, if it
      mentions them at all. */
  predicate FieldsOnly(ms: MessageMap, m: Id, patch: Message) {
    m in ms && forall k :: k in LINK_KEYS && k in patch ==> patch[k] == Get(ms[m], k) && k in ms[m]
  }

  /** A list of children that keeps the old ones, answers of the turn aside, and
      otherwise names answers only: the web client lists the answers before it sends
      the message, and a dropped answer is listed again. */
  predicate ListsOnly(kids: seq<Json>, before: seq<Json>, ids: seq<Id>) {
    && NoDup(kids) && (forall k :: k in before ==> k in kids || (k.Str? && k.s in ids))
    && forall k :: k in kids ==> k in before || (k.Str? && k.s in ids)
  }

  /** A message nobody knows, and not its own parent. */
  ghost predicate NewUser(ms: MessageMap, u: Id, t: Turn) {
    Fresh(ms, u) && Parent(t.user) != Some(u) && !NotAList(t.user) && ListsOnly(Kids(t.user), [], AnswerIds(t))
  }

  /** A stored message sent again under the same parent: an answer is regenerated or
      continued. */
  predicate SentAgain(ms: MessageMap, u: Id, t: Turn) {
    && u in ms
    && (ParentId in t.user ==> t.user[ParentId] == Get(ms[u], ParentId))
    && (ChildrenIds in t.user ==> !NotAList(t.user) && ListsOnly(Kids(t.user), Kids(ms[u]), AnswerIds(t)))
  }

  ghost predicate UserOk(ms: MessageMap, t: Turn) {
    match UserId(t)
    case None => true
    case Some(u) => NewUser(ms, u, t) || SentAgain(ms, u, t)
  }

  /** A new answer; or a stored one without children, continued under the same
      parent. */
  ghost predicate AnswerReady(ms: MessageMap, a: Id, parent: Json) {
    || (Fresh(ms, a) && Pointer(parent) != Some(a))
    || (a in ms && Get(ms[a], ParentId) == parent && Kids(ms[a]) == [])
  }

  ghost predicate AnswersOk(ms: MessageMap, t: Turn) {
    && NoDup(AnswerIds(t))
    && forall a :: a in AnswerIds(t) ==>
         AnswerReady(ms, a, Get(t.user, Id)) && UserId(t) != Some(a) && (UserId(t).Some? ==> Parent(t.user) != Some(a))
  }

  ghost predicate TurnOk(ms: MessageMap, t: Turn) {
    UserOk(ms, t) && AnswersOk(ms, t)
  }

  // -------------------------------------------------- the forest, write by write

  /** Same messages, same links. */
  ghost predicate SameLinks(ms: MessageMap, ms': MessageMap) {
    && ms.Keys == ms'.Keys
    && forall m, k :: m in ms && k in LINK_KEYS ==> (k in ms[m] <==> k in ms'[m]) && Get(ms[m], k) == Get(ms'[m], k)
  }

  lemma SameLinksForest(ms: MessageMap, ms': MessageMap)
    requires SameLinks(ms, ms') && IsForest(ms)
    ensures IsForest(ms')
  {
    forall m | m in ms ensures ShapedAs(ms'[m], m) && Kids(ms[m]) == Kids(ms'[m]) && Parent(ms[m]) == Parent(ms'[m]) {
      assert ShapedAs(ms[m], m);
      assert Get(ms[m], Id) == Get(ms'[m], Id);
      assert Get(ms[m], ParentId) == Get(ms'[m], ParentId);
      assert Get(ms[m], ChildrenIds) == Get(ms'[m], ChildrenIds) && (ChildrenIds in ms[m] <==> ChildrenIds in ms'[m]);
    }
    assert Parents(ms) == Parents(ms');
    hide Shaped, ShapedAs, Acyclic, SameLinks, Parents;
    forall p, k | p in ms' ensures ListsRight(ms', p, k, {}, None, {}) {
      assert ListsRight(ms, p, k, {}, None, {});
      SameKidsPoint(ms, ms', None, {}, p, k);
    }
    assert Shaped(ms') by { ShapedEach(ms'); }
  }

  lemma ShapedEach(ms: MessageMap)
    requires forall m :: m in ms ==> ShapedAs(ms[m], m)
    ensures Shaped(ms)
  {
  }

  lemma FieldsOnlyKeepsForest(ms: MessageMap, m: Id, patch: Message)
    requires IsForest(ms) && FieldsOnly(ms, m, patch)
    ensures IsForest(ms[m := ms[m] + patch])
  {
    SameLinksForest(ms, ms[m := ms[m] + patch]);
  }

  /** Storing a message nobody knows adds a leaf. */
  lemma NewMessageAcyclic(ms: MessageMap, m: Id, msg: Message)
    requires Acyclic(Parents(ms)) && Fresh(ms, m) && Parent(msg) != Some(m)
    ensures Acyclic(Parents(ms[m := msg]))
  {
    var par, par' := Parents(ms), Parents(ms[m := msg]);
    if Parent(msg).Some? {
      assert par' == par[m := Parent(msg).value];
      AddLeaf(par, m, Parent(msg).value);
    } else {
      assert par' == par;
    }
  }

  /** A forest under construction: all is right but the exceptions of `ListsRight`. */
  ghost predicate Growing(ms: MessageMap, unlisted: set<Id>, host: Option<Id>, announced: set<Id>) {
    Shaped(ms) && Acyclic(Parents(ms)) && LinkedBut(ms, unlisted, host, announced)
  }

  /** A new user message may already list answers to come, but is not listed by its
      parent yet. */
  lemma NewUserMessage(ms: MessageMap, u: Id, msg: Message, ahead: set<Id>)
    requires IsForest(ms) && Fresh(ms, u) && Get(msg, Id) == Str(u)
    requires !NotAList(msg) && NoDup(Kids(msg)) && Parent(msg) != Some(u)
    requires forall k :: k in Kids(msg) <==> k.Str? && k.s in ahead
    requires forall a :: a in ahead ==> a !in ms && a != u
    ensures Growing(ms[u := msg], {u}, Some(u), ahead)
  {
    NewMessageAcyclic(ms, u, msg);
    var ms' := ms[u := msg];
    forall p, k | p in ms' ensures ListsRight(ms', p, k, {u}, Some(u), ahead) {
      if p in ms {
        assert ListsRight(ms, p, k, {}, None, {});
      }
    }
  }

  /** Same messages and parents, and the same children but for `u`. */
  ghost predicate Relisted(ms: MessageMap, ms': MessageMap, u: Id) {
    && ms'.Keys == ms.Keys && u in ms
    && forall x :: x in ms ==> ShapedAs(ms'[x], x) && Parent(ms'[x]) == Parent(ms[x]) && (x != u ==> Kids(ms'[x]) == Kids(ms[x]))
  }

  lemma RelistedPoint(ms: MessageMap, ms': MessageMap, u: Id, host: Option<Id>, open_: set<Id>, before: set<Id>,
                      open_': set<Id>, announced: set<Id>, p: Id, k: Json)
    requires Relisted(ms, ms', u) && p in ms && p != u && (host == None || host == Some(u))
    requires k.Str? && k.s in open_ + open_' ==> IsChild(ms, k.s, u)
    requires ListsRight(ms, p, k, open_, host, before)
    ensures ListsRight(ms', p, k, open_', Some(u), announced)
  {
    hide ShapedAs;
  }

  lemma RelistedParents(ms: MessageMap, ms': MessageMap, u: Id)
    requires Relisted(ms, ms', u)
    ensures Shaped(ms') && Parents(ms') == Parents(ms)
  {
    hide ShapedAs;
  }

  /** Where only `u` has a new list, and it is right, all is right. */
  lemma RelistedGrowing(ms: MessageMap, ms': MessageMap, u: Id, host: Option<Id>, open_: set<Id>, before: set<Id>,
                        open_': set<Id>, announced: set<Id>)
    requires Growing(ms, open_, host, before) && (host == None || host == Some(u)) && Relisted(ms, ms', u)
    requires forall b :: b in open_ + open_' ==> IsChild(ms, b, u)
    requires forall k :: ListsRight(ms', u, k, open_', Some(u), announced)
    ensures Growing(ms', open_', Some(u), announced)
  {
    RelistedParents(ms, ms', u);
    assert ms'.Keys == ms.Keys;
    hide Shaped, Acyclic, Parents, ListsRight, Relisted, IsChild;
    forall p, k | p in ms' ensures ListsRight(ms', p, k, open_', Some(u), announced) {
      if p != u {
        assert ListsRight(ms, p, k, open_, host, before);
        RelistedPoint(ms, ms', u, host, open_, before, open_', announced, p, k);
      }
    }
  }

  /** When a stored user message is sent again, its list may have dropped some children
      and may name answers ahead of time. */
  lemma ResentMessage(ms: MessageMap, u: Id, msg: Message, behind: set<Id>, ahead: set<Id>)
    requires IsForest(ms) && u in ms && Get(msg, Id) == Str(u) && Get(msg, ParentId) == Get(ms[u], ParentId)
    requires !NotAList(msg) && NoDup(Kids(msg))
    requires forall k :: k in Kids(msg) <==>
               (k in Kids(ms[u]) && !(k.Str? && k.s in behind)) || (k.Str? && k.s in ahead)
    requires (forall b :: b in behind ==> IsChild(ms, b, u)) && forall a :: a in ahead ==> a !in ms
    ensures Growing(ms[u := msg], behind, Some(u), ahead)
  {
    var ms' := ms[u := msg];
    assert ShapedAs(ms[u], u) && ShapedAs(msg, u);
    assert Relisted(ms, ms', u) by { hide ShapedAs, Acyclic, LinkedBut; }
    forall k ensures ListsRight(ms', u, k, behind, Some(u), ahead) {
      assert ListsRight(ms, u, k, {}, None, {});
    }
    hide Relisted, Shaped, Acyclic, LinkedBut, ListsRight;
    RelistedGrowing(ms, ms', u, None, {}, {}, behind, ahead);
  }

  /** Linking the parent to the user message leaves only the answers to come. */
  lemma LinkUserMessage(ms: MessageMap, u: Id, g: Id, ahead: set<Id>)
    requires Growing(ms, {u}, Some(u), ahead)
    requires g in ms && g != u && IsChild(ms, u, g) && Str(u) !in Kids(ms[g])
    ensures Growing(SetKids(ms, g, Kids(ms[g]) + [Str(u)]), {}, Some(u), ahead)
  {
    var ms' := SetKids(ms, g, Kids(ms[g]) + [Str(u)]);
    SetKidsEffect(ms, g, Kids(ms[g]) + [Str(u)]);
    NoDupAppend(Kids(ms[g]), Str(u));
    SameParents(ms, ms');
    SetKidsShaped(ms, g, Kids(ms[g]) + [Str(u)]);
    hide Shaped, Acyclic, SetKids, IsChild, Kids, SameButKids;
    forall p, k | p in ms' ensures ListsRight(ms', p, k, {}, Some(u), ahead) {
      assert ListsRight(ms, p, k, {u}, Some(u), ahead);
      LinkUserPoint(ms, u, g, ahead, p, k);
    }
  }

  lemma LinkUserPoint(ms: MessageMap, u: Id, g: Id, ahead: set<Id>, p: Id, k: Json)
    requires g in ms && g != u && p in ms && IsChild(ms, u, g) && ListsRight(ms, p, k, {u}, Some(u), ahead)
    ensures ListsRight(SetKids(ms, g, Kids(ms[g]) + [Str(u)]), p, k, {}, Some(u), ahead)
  {
    var ms' := SetKids(ms, g, Kids(ms[g]) + [Str(u)]);
    SetKidsEffect(ms, g, Kids(ms[g]) + [Str(u)]);
    SameChildren(ms, ms');
    assert p != g ==> ms'[p] == ms[p];
  }

  lemma SameParents(ms: MessageMap, ms': MessageMap)
    requires SameButKids(ms, ms')
    ensures Parents(ms) == Parents(ms')
    ensures forall c, p :: IsChild(ms, c, p) <==> IsChild(ms', c, p)
  {
    SameChildren(ms, ms');
    forall m | m in ms ensures Parent(ms[m]) == Parent(ms'[m]) {
      assert Get(ms[m], ParentId) == Get(ms'[m], ParentId);
    }
  }

  lemma SetKidsShaped(ms: MessageMap, p: Id, kids: seq<Json>)
    requires Shaped(ms) && p in ms && NoDup(kids)
    ensures Shaped(SetKids(ms, p, kids))
  {
    SetKidsEffect(ms, p, kids);
  }

  /** With a dangling parent, or none, there is nothing to link. */
  lemma NothingToLink(ms: MessageMap, u: Id, ahead: set<Id>)
    requires Growing(ms, {u}, Some(u), ahead) && u in ms
    requires Parent(ms[u]).None? || Parent(ms[u]).value !in ms
    ensures Growing(ms, {}, Some(u), ahead)
  {
    forall p, k | p in ms ensures ListsRight(ms, p, k, {}, Some(u), ahead) {
      assert ListsRight(ms, p, k, {u}, Some(u), ahead);
    }
  }

  lemma {:induction false} AppendNewEffect(kids: seq<Json>, ids: seq<Id>)
    requires NoDup(kids)
    ensures NoDup(AppendNew(kids, ids))
    ensures forall k :: k in AppendNew(kids, ids) <==> k in kids || (k.Str? && k.s in ids)
  {
    if ids != [] {
      var front, last := ids[..|ids| - 1], ids[|ids| - 1];
      AppendNewEffect(kids, front);
      assert ids == front + [last];
      if Str(last) !in AppendNew(kids, front) {
        NoDupAppend(AppendNew(kids, front), Str(last));
      }
    }
  }

  /** The user message announces the answers that are not stored yet; some it may have
      listed before. */
  lemma AnnounceAnswers(ms: MessageMap, u: Id, ids: seq<Id>, behind: set<Id>, ahead: set<Id>)
    requires Growing(ms, behind, Some(u), ahead) && u in ms && ahead <= Elems(ids) && behind <= Elems(ids)
    requires forall b :: b in behind ==> IsChild(ms, b, u)
    requires forall a :: a in ids ==> a !in ms || IsChild(ms, a, u)
    ensures Growing(SetKids(ms, u, AppendNew(Kids(ms[u]), ids)), {}, Some(u), Elems(ids))
  {
    var kids := AppendNew(Kids(ms[u]), ids);
    var ms' := SetKids(ms, u, kids);
    assert ShapedAs(ms[u], u);
    AppendNewEffect(Kids(ms[u]), ids);
    forall k ensures ListsRight(ms', u, k, {}, Some(u), Elems(ids)) {
      assert ListsRight(ms, u, k, behind, Some(u), ahead);
      AnnouncedPoint(ms, u, ids, behind, ahead, k);
    }
    SetKidsRelists(ms, u, kids);
    hide *;
    RelistedGrowing(ms, ms', u, Some(u), behind, ahead, {}, Elems(ids));
  }

  lemma SetKidsRelists(ms: MessageMap, u: Id, kids: seq<Json>)
    requires Shaped(ms) && u in ms && NoDup(kids)
    ensures Relisted(ms, SetKids(ms, u, kids), u)
  {
    SetKidsShaped(ms, u, kids);
    SetKidsEffect(ms, u, kids);
    SameParentsEach(ms, SetKids(ms, u, kids));
  }

  lemma AnnouncedPoint(ms: MessageMap, u: Id, ids: seq<Id>, behind: set<Id>, ahead: set<Id>, k: Json)
    requires u in ms && ahead <= Elems(ids) && behind <= Elems(ids) && ListsRight(ms, u, k, behind, Some(u), ahead)
    requires k.Str? && k.s in ids ==> k.s !in ms || IsChild(ms, k.s, u)
    requires k in AppendNew(Kids(ms[u]), ids) <==> k in Kids(ms[u]) || (k.Str? && k.s in ids)
    ensures ListsRight(SetKids(ms, u, AppendNew(Kids(ms[u]), ids)), u, k, {}, Some(u), Elems(ids))
  {
    var kids := AppendNew(Kids(ms[u]), ids);
    SetKidsEffect(ms, u, kids);
    SameChildren(ms, SetKids(ms, u, kids));
    hide AppendNew, SameButKids;
  }

  /** Nobody announces, or there is nothing to announce. */
  lemma NothingAnnounced(ms: MessageMap, host: Option<Id>, behind: set<Id>, ahead: set<Id>, ids: seq<Id>)
    requires Growing(ms, behind, host, ahead) && ahead <= Elems(ids) && behind <= Elems(ids)
    requires (host.None? && behind == {}) || ids == []
    ensures Growing(ms, {}, host, Elems(ids))
  {
    assert behind == {};
    forall p, k | p in ms ensures ListsRight(ms, p, k, {}, host, Elems(ids)) {
      assert ListsRight(ms, p, k, {}, host, ahead);
    }
  }

  /** Storing an announced answer, or a root when there is no user message. */
  lemma NewAnswer(ms: MessageMap, host: Option<Id>, announced: set<Id>, a: Id, msg: Message)
    requires Growing(ms, {}, host, announced)
    requires Fresh(ms, a) && Get(msg, Id) == Str(a) && Kids(msg) == [] && !NotAList(msg)
    requires Parent(msg) == host && host != Some(a)
    requires host.Some? ==> a in announced && host.value in ms
    ensures Growing(ms[a := msg], {}, host, announced)
  {
    NewMessageAcyclic(ms, a, msg);
    var ms' := ms[a := msg];
    forall p, k | p in ms' ensures ListsRight(ms', p, k, {}, host, announced) {
      if p in ms {
        assert ListsRight(ms, p, k, {}, host, announced);
      }
    }
  }

  /** Starting a stored answer again changes no link. */
  lemma AnswerAgain(ms: MessageMap, host: Option<Id>, announced: set<Id>, a: Id, msg: Message)
    requires Growing(ms, {}, host, announced) && a in ms
    requires Get(msg, Id) == Str(a) && Parent(msg) == Parent(ms[a])
    requires Kids(msg) == [] == Kids(ms[a]) && !NotAList(msg)
    ensures Growing(ms[a := msg], {}, host, announced)
  {
    var ms' := ms[a := msg];
    assert ShapedAs(ms[a], a) && ShapedAs(msg, a);
    assert Relisted(ms, ms', a) by { hide ShapedAs, Acyclic, LinkedBut; }
    RelistedParents(ms, ms', a);
    hide Shaped, Acyclic, Relisted;
    forall p, k | p in ms' ensures ListsRight(ms', p, k, {}, host, announced) {
      assert ListsRight(ms, p, k, {}, host, announced);
      SameKidsPoint(ms, ms', host, announced, p, k);
    }
  }

  lemma SameKidsPoint(ms: MessageMap, ms': MessageMap, host: Option<Id>, announced: set<Id>, p: Id, k: Json)
    requires ms'.Keys == ms.Keys && Parents(ms') == Parents(ms) && p in ms && Kids(ms'[p]) == Kids(ms[p])
    requires ListsRight(ms, p, k, {}, host, announced)
    ensures ListsRight(ms', p, k, {}, host, announced)
  {
    if k.Str? {
      assert IsChild(ms, k.s, p) <==> k.s in Parents(ms) && Parents(ms)[k.s] == p;
      assert IsChild(ms', k.s, p) <==> k.s in Parents(ms') && Parents(ms')[k.s] == p;
    }
  }

  lemma AllAnswered(ms: MessageMap, host: Option<Id>, announced: set<Id>)
    requires Growing(ms, {}, host, announced) && announced <= ms.Keys
    ensures IsForest(ms)
  {
    forall p, k | p in ms ensures ListsRight(ms, p, k, {}, None, {}) {
      assert ListsRight(ms, p, k, {}, host, announced);
    }
  }

  // ---------------------------------------------------------- the whole turn

  function MessagesOf(db: Db, c: Id): MessageMap
    requires c in db.chats
  {
    db.chats[c].history.messages
  }

  /** What an upsert does to the messages of its chat. */
  lemma UpsertMessages(db: Db, c: Id, m: Id, patch: Message, now: int)
    requires c in db.chats
    ensures var db' := Upsert(db, c, m, patch, now);
      && c in db'.chats && db'.chats[c].history.currentId == Str(m)
      && MessagesOf(db', c) == MessagesOf(db, c)[m := Stored(db.chats[c].history, m) + patch]
  {
  }

  lemma StoredNoAlias(db: Db, c: Id, m: Id)
    requires Base(db) && c in db.chats && m in MessagesOf(db, c)
    ensures NoAlias(MessagesOf(db, c)[m])
  {
    assert ChatAgrees(db, c) && MessageAgrees(db.rows, c, MessagesOf(db, c), m);
  }

  /** A patch that only sets the child list is `SetKids`, and mirrors. */
  lemma UpsertKids(db: Db, c: Id, m: Id, kids: seq<Json>, now: int)
    requires Base(db) && c in db.chats && m in MessagesOf(db, c)
    ensures var db' := Upsert(db, c, m, map[ChildrenIds := List(kids)], now);
      && Base(db') && OnlyChat(db, db', c)
      && MessagesOf(db', c) == SetKids(MessagesOf(db, c), m, kids)
  {
    var ms, patch := MessagesOf(db, c), map[ChildrenIds := List(kids)];
    assert ms[m] + patch == ms[m][ChildrenIds := List(kids)];
    StoredNoAlias(db, c, m);
    UpsertAgreesExactly(db, c, m, patch, now);
    UpsertMessages(db, c, m, patch, now);
  }

  /** What saving the user message needs for the stores to keep agreeing. */
  predicate UserMirrors(ms: MessageMap, t: Turn) {
    UserId(t).Some? ==> Mirrors(ms, UserId(t).value, t.user)
  }

  /** The answers the stored user message lists although they are not stored yet. */
  ghost function Ahead(ms: MessageMap, t: Turn): (ahead: set<Id>)
    ensures ahead <= Elems(AnswerIds(t))
  {
    set a | a in Elems(AnswerIds(t)) && a !in ms && UserId(t).Some? && UserId(t).value in ms
      && Str(a) in Kids(ms[UserId(t).value])
  }

  /** The stored answers that the user message has dropped from its list. */
  ghost function Behind(ms: MessageMap, t: Turn): (behind: set<Id>)
    ensures behind <= Elems(AnswerIds(t))
    ensures UserId(t).None? ==> behind == {}
    ensures forall b :: b in behind ==> UserId(t).Some? && IsChild(ms, b, UserId(t).value)
  {
    set b | b in Elems(AnswerIds(t)) && b in ms && UserId(t).Some? && IsChild(ms, b, UserId(t).value)
      && UserId(t).value in ms && Str(b) !in Kids(ms[UserId(t).value])
  }

  /** How saving the user message, and listing it, changes the other messages. */
  ghost predicate UserAdded(ms: MessageMap, ms': MessageMap, t: Turn) {
    && ms'.Keys == ms.Keys + UserIds(t)
    && (forall x :: x in ms && UserId(t) != Some(x) ==>
          && Parent(ms'[x]) == Parent(ms[x])
          && (UserId(t).None? || Parent(t.user) != Some(x) ==> ms'[x] == ms[x]))
    && (forall u :: UserId(t) == Some(u) ==> Parent(ms'[u]) == (if u in ms then Parent(ms[u]) else Parent(t.user)))
  }

  function UserIds(t: Turn): set<Id> {
    if UserId(t).Some? then {UserId(t).value} else {}
  }

  /** The forest once the user message is stored, and before its parent lists it. */
  lemma NewUserStored(ms: MessageMap, t: Turn)
    requires IsForest(ms) && UserId(t).Some? && NewUser(ms, UserId(t).value, t) && AnswersOk(ms, t)
    ensures var u := UserId(t).value; var ms' := ms[u := t.user]; Growing(ms', {u}, Some(u), Ahead(ms', t))
  {
    var u := UserId(t).value;
    var ahead := Ahead(ms[u := t.user], t);
    forall k | k in Kids(t.user) ensures k.Str? && k.s in ahead {
      assert AnswerReady(ms, k.s, Get(t.user, Id));
    }
    NewUserMessage(ms, u, t.user, ahead);
  }

  lemma ResentUserStored(ms: MessageMap, t: Turn)
    requires IsForest(ms) && UserId(t).Some? && SentAgain(ms, UserId(t).value, t) && AnswersOk(ms, t)
    ensures var u := UserId(t).value; var ms' := ms[u := ms[u] + t.user];
      Growing(ms', Behind(ms', t), Some(u), Ahead(ms', t)) && Get(ms'[u], ParentId) == Get(ms[u], ParentId)
  {
    var u := UserId(t).value;
    var msg := ms[u] + t.user;
    var behind, ahead := Behind(ms[u := msg], t), Ahead(ms[u := msg], t);
    assert ShapedAs(ms[u], u) && Parent(msg) == Parent(ms[u]);
    assert Kids(msg) == if ChildrenIds in t.user then Kids(t.user) else Kids(ms[u]);
    forall b | b in behind ensures IsChild(ms, b, u) {}
    forall k ensures k in Kids(msg) <==>
               (k in Kids(ms[u]) && !(k.Str? && k.s in behind)) || (k.Str? && k.s in ahead)
    {
      assert ListsRight(ms, u, k, {}, None, {});
      if k in Kids(msg) && k !in Kids(ms[u]) {
        assert AnswerReady(ms, k.s, Get(t.user, Id));
      }
    }
    ResentMessage(ms, u, msg, behind, ahead);
  }

  /** A user message that was stored before is already linked. */
  lemma StoredUserLinked(db: Db, c: Id, t: Turn, now: int, behind: set<Id>, ahead: set<Id>)
    requires c in db.chats && UserId(t).Some? && UserId(t).value in MessagesOf(db, c)
    requires Growing(MessagesOf(db, c), behind, UserId(t), ahead) && UserId(t).value !in behind
    requires Parent(t.user).Some? ==> Parent(t.user) == Parent(MessagesOf(db, c)[UserId(t).value])
    ensures LinkGrandparent(db, c, t, now) == Saved(db)
  {
    var ms, u, g := MessagesOf(db, c), UserId(t).value, Parent(t.user);
    if g.Some? && StoredIn(db, c, g.value) != map[] {
      assert IsChild(ms, u, g.value) && ShapedAs(ms[g.value], g.value);
      assert ListsRight(ms, g.value, Str(u), behind, UserId(t), ahead);
    }
  }

  /** A user message nobody knew is stored, then listed by its parent. */
  lemma NewUserSaved(db: Db, c: Id, t: Turn, now: int)
    requires Base(db) && c in db.chats && IsForest(MessagesOf(db, c)) && UserId(t).Some?
    requires NewUser(MessagesOf(db, c), UserId(t).value, t) && AnswersOk(MessagesOf(db, c), t)
    requires UserMirrors(MessagesOf(db, c), t)
    ensures UserStored(db, c, t, LinkGrandparent(SaveUser(db, c, t, now), c, t, now))
  {
    var u, ms, db1 := UserId(t).value, MessagesOf(db, c), SaveUser(db, c, t, now);
    UpsertAgreesExactly(db, c, u, t.user, now);
    UpsertMessages(db, c, u, t.user, now);
    assert map[] + t.user == t.user;
    assert u !in ms && MessagesOf(db1, c) == ms[u := t.user];
    NewUserStored(ms, t);
    assert Parent(t.user) != Some(u);
    hide *;
    NewUserLinked(db1, c, t, now, Ahead(MessagesOf(db1, c), t));
    NewUserAdded(db, db1, LinkGrandparent(db1, c, t, now).db, c, t);
  }

  lemma NewUserAdded(db: Db, db1: Db, db2: Db, c: Id, t: Turn)
    requires c in db.chats && c in db1.chats && c in db2.chats && UserId(t).Some? && UserId(t).value !in MessagesOf(db, c)
    requires OnlyChat(db, db1, c) && OnlyChat(db1, db2, c) && Base(db2)
    requires MessagesOf(db1, c) == MessagesOf(db, c)[UserId(t).value := t.user]
    requires ParentListed(MessagesOf(db1, c), MessagesOf(db2, c), t)
    requires Growing(MessagesOf(db2, c), {}, UserId(t), Ahead(MessagesOf(db1, c), t)) && Parent(t.user) != UserId(t)
    ensures UserStored(db, c, t, Saved(db2))
  {
    var ms1, ms2, u := MessagesOf(db1, c), MessagesOf(db2, c), UserId(t).value;
    assert ms2[u] == ms1[u] && ms1[u] == t.user;
    assert Ahead(ms2, t) == Ahead(ms1, t);
    forall b ensures b !in Behind(ms2, t) {
      assert ListsRight(ms2, u, Str(b), {}, UserId(t), Ahead(ms1, t));
    }
    assert Behind(ms2, t) == {};
    OnlyChatTransitive(db, db1, db2, c);
  }

  /** Only the parent's list of children may have changed. */
  ghost predicate ParentListed(ms: MessageMap, ms': MessageMap, t: Turn) {
    && ms'.Keys == ms.Keys
    && forall x :: x in ms ==> Parent(ms'[x]) == Parent(ms[x]) && (Parent(t.user) != Some(x) ==> ms'[x] == ms[x])
  }

  lemma SetKidsElsewhere(ms: MessageMap, t: Turn, kids: seq<Json>)
    requires Parent(t.user).Some? && Parent(t.user).value in ms
    ensures ParentListed(ms, SetKids(ms, Parent(t.user).value, kids), t)
  {
    SameParentsEach(ms, SetKids(ms, Parent(t.user).value, kids));
  }

  /** The user message is stored and linked; only answers may be missing from its list,
      or listed ahead of time. */
  ghost predicate UserStored(db: Db, c: Id, t: Turn, o: Outcome) {
    && o.Saved? && Base(o.db) && c in db.chats && OnlyChat(db, o.db, c)
    && UserAdded(MessagesOf(db, c), MessagesOf(o.db, c), t)
    && Growing(MessagesOf(o.db, c), Behind(MessagesOf(o.db, c), t), UserId(t), Ahead(MessagesOf(o.db, c), t))
  }

  lemma ResentUserSaved(db: Db, c: Id, t: Turn, now: int)
    requires Base(db) && c in db.chats && IsForest(MessagesOf(db, c)) && UserId(t).Some?
    requires SentAgain(MessagesOf(db, c), UserId(t).value, t) && AnswersOk(MessagesOf(db, c), t)
    requires UserMirrors(MessagesOf(db, c), t)
    ensures UserStored(db, c, t, LinkGrandparent(SaveUser(db, c, t, now), c, t, now))
  {
    var u, ms, db1 := UserId(t).value, MessagesOf(db, c), SaveUser(db, c, t, now);
    ResentUserUpserted(db, c, t, now);
    ResentUserAdded(ms, t);
    ResentUserStored(ms, t);
    assert u in ms && forall a :: a in AnswerIds(t) ==> a != u;
    assert u !in Behind(MessagesOf(db1, c), t);
    hide *;
    StoredUserLinked(db1, c, t, now, Behind(MessagesOf(db1, c), t), Ahead(MessagesOf(db1, c), t));
    assert UserStored(db, c, t, Saved(db1)) by { StoredAtOnce(db, db1, c, t); }
  }

  lemma StoredAtOnce(db: Db, db1: Db, c: Id, t: Turn)
    requires Base(db1) && c in db.chats && c in db1.chats && OnlyChat(db, db1, c)
    requires UserAdded(MessagesOf(db, c), MessagesOf(db1, c), t)
    requires Growing(MessagesOf(db1, c), Behind(MessagesOf(db1, c), t), UserId(t), Ahead(MessagesOf(db1, c), t))
    ensures UserStored(db, c, t, Saved(db1))
  {
  }

  lemma ResentUserUpserted(db: Db, c: Id, t: Turn, now: int)
    requires Base(db) && c in db.chats && UserId(t).Some? && UserId(t).value in MessagesOf(db, c)
    requires UserMirrors(MessagesOf(db, c), t)
    ensures var db1, ms, u := SaveUser(db, c, t, now), MessagesOf(db, c), UserId(t).value;
      Base(db1) && OnlyChat(db, db1, c) && c in db1.chats && MessagesOf(db1, c) == ms[u := ms[u] + t.user]
  {
    hide Base, UpsertRow;
    UpsertAgreesExactly(db, c, UserId(t).value, t.user, now);
    UpsertMessages(db, c, UserId(t).value, t.user, now);
  }

  lemma ResentUserAdded(ms: MessageMap, t: Turn)
    requires UserId(t).Some? && SentAgain(ms, UserId(t).value, t)
    ensures var u := UserId(t).value; var ms' := ms[u := ms[u] + t.user];
      UserAdded(ms, ms', t) && (Parent(t.user).Some? ==> Parent(t.user) == Parent(ms'[u]))
  {
    var u := UserId(t).value;
    assert Get(ms[u] + t.user, ParentId) == Get(ms[u], ParentId);
  }

  /** After the user message is saved and linked, only answers it lists ahead of time
      are missing from the forest. */
  lemma UserSaved(db: Db, c: Id, t: Turn, now: int)
    requires Base(db) && c in db.chats && IsForest(MessagesOf(db, c))
    requires TurnOk(MessagesOf(db, c), t) && UserMirrors(MessagesOf(db, c), t)
    ensures UserStored(db, c, t, LinkGrandparent(SaveUser(db, c, t, now), c, t, now))
  {
    var ms := MessagesOf(db, c);
    if UserId(t).None? {
      assert Ahead(ms, t) == {} && Behind(ms, t) == {} && LinkedBut(ms, {}, None, {});
    } else if NewUser(ms, UserId(t).value, t) {
      NewUserSaved(db, c, t, now);
    } else {
      ResentUserSaved(db, c, t, now);
    }
  }

  /** The answers are still new, or still as they were stored. */
  lemma AnswersStillReady(ms: MessageMap, ms': MessageMap, t: Turn)
    requires UserAdded(ms, ms', t) && AnswersOk(ms, t)
    ensures forall a :: a in AnswerIds(t) ==> AnswerReady(ms', a, Get(t.user, Id))
  {
    forall a | a in AnswerIds(t) ensures AnswerReady(ms', a, Get(t.user, Id)) {
      assert AnswerReady(ms, a, Get(t.user, Id));
    }
  }

  lemma SameParentsEach(ms: MessageMap, ms': MessageMap)
    requires SameButKids(ms, ms')
    ensures forall m :: m in ms ==> Parent(ms[m]) == Parent(ms'[m])
  {
    forall m | m in ms ensures Parent(ms[m]) == Parent(ms'[m]) {
      assert Get(ms[m], ParentId) == Get(ms'[m], ParentId);
    }
  }

  lemma NewUserLinked(db: Db, c: Id, t: Turn, now: int, ahead: set<Id>)
    requires Base(db) && c in db.chats && UserId(t).Some?
    requires UserId(t).value in MessagesOf(db, c) && MessagesOf(db, c)[UserId(t).value] == t.user
    requires Growing(MessagesOf(db, c), {UserId(t).value}, UserId(t), ahead) && Parent(t.user) != UserId(t)
    ensures var o := LinkGrandparent(db, c, t, now);
      && o.Saved? && Base(o.db) && OnlyChat(db, o.db, c) && ParentListed(MessagesOf(db, c), MessagesOf(o.db, c), t)
      && Growing(MessagesOf(o.db, c), {}, UserId(t), ahead)
  {
    var ms, u, g := MessagesOf(db, c), UserId(t).value, Parent(t.user);
    assert UserId(t) == Some(u);
    if g.Some? && g.value in ms {
      NewUserUpsert(db, c, t, now, ahead);
      hide *;
      UpsertKids(db, c, g.value, Kids(ms[g.value]) + [Str(u)], now);
      SetKidsElsewhere(ms, t, Kids(ms[g.value]) + [Str(u)]);
      LinkUserMessage(ms, u, g.value, ahead);
    } else {
      NothingToLink(ms, u, ahead);
      assert LinkGrandparent(db, c, t, now) == Saved(db) by {
        hide Base, Growing, Upsert;
      }
      hide LinkGrandparent, Base, Growing;
    }
  }

  /** The parent of a new user message is there and does not list it yet. */
  lemma NewUserUpsert(db: Db, c: Id, t: Turn, now: int, ahead: set<Id>)
    requires c in db.chats && UserId(t).Some? && Parent(t.user).Some? && Parent(t.user) != UserId(t)
    requires var ms := MessagesOf(db, c);
      Growing(ms, {UserId(t).value}, UserId(t), ahead) && UserId(t).value in ms && ms[UserId(t).value] == t.user
      && Parent(t.user).value in ms
    ensures var ms, u, g := MessagesOf(db, c), UserId(t).value, Parent(t.user).value;
      && IsChild(ms, u, g) && Str(u) !in Kids(ms[g])
      && LinkGrandparent(db, c, t, now) == Saved(Upsert(db, c, g, map[ChildrenIds := List(Kids(ms[g]) + [Str(u)])], now))
  {
    var ms, u, g := MessagesOf(db, c), UserId(t).value, Parent(t.user).value;
    assert ShapedAs(ms[g], g);
    assert StoredIn(db, c, g) == ms[g] != map[];
    assert ListsRight(ms, g, Str(u), {u}, UserId(t), ahead);
    hide Growing, Upsert;
  }

  lemma PlaceholderShape(model: string, id: Id, parent: Json, now: int)
    ensures var msg := Placeholder(model, id, parent, now);
      && Get(msg, Id) == Str(id) && Parent(msg) == Pointer(parent) && Kids(msg) == [] && !NotAList(msg)
      && Role in msg && msg[Role] != Null && NoAlias(msg)
  {
  }

  // ------------------------------------------------------------ the placeholders

  /** A placeholder merged into what is stored under its id. */
  function Merged(ms: MessageMap, target: (string, Id), parent: Json, now: int): MessageMap {
    ms[target.1 := (if target.1 in ms then ms[target.1] else map[]) + Placeholder(target.0, target.1, parent, now)]
  }

  function MergeAll(ms: MessageMap, targets: seq<(string, Id)>, parent: Json, now: int): MessageMap {
    if targets == [] then ms else
    Merged(MergeAll(ms, targets[..|targets| - 1], parent, now), targets[|targets| - 1], parent, now)
  }

  lemma LastTarget(targets: seq<(string, Id)>)
    requires targets != []
    ensures var front, last := targets[..|targets| - 1], targets[|targets| - 1];
      && Ids(targets) == Ids(front) + [last.1]
      && (forall x :: x in Ids(targets) <==> x in Ids(front) || x == last.1)
      && (NoDup(Ids(targets)) ==> NoDup(Ids(front)) && last.1 !in Ids(front))
  {
    var front, last := targets[..|targets| - 1], targets[|targets| - 1];
    assert Ids(targets) == Ids(front) + [last.1];
    if NoDup(Ids(targets)) {
      NoDupFront(Ids(front), last.1);
    }
  }

  lemma {:induction false} MergedKeys(ms: MessageMap, targets: seq<(string, Id)>, parent: Json, now: int)
    ensures MergeAll(ms, targets, parent, now).Keys == ms.Keys + Elems(Ids(targets))
    ensures forall x :: x in ms && x !in Ids(targets) ==> MergeAll(ms, targets, parent, now)[x] == ms[x]
  {
    if targets != [] {
      LastTarget(targets);
      MergedKeys(ms, targets[..|targets| - 1], parent, now);
    }
  }

  /** Storing placeholders leaves the other answers ready. */
  lemma {:induction false} OthersStayReady(ms: MessageMap, targets: seq<(string, Id)>, parent: Json, now: int, a: Id)
    requires AnswerReady(ms, a, parent) && a !in Ids(targets)
    ensures AnswerReady(MergeAll(ms, targets, parent, now), a, parent)
  {
    if targets != [] {
      var front, last := targets[..|targets| - 1], targets[|targets| - 1];
      LastTarget(targets);
      OthersStayReady(ms, front, parent, now, a);
      PlaceholderShape(last.0, last.1, parent, now);
      OneStaysReady(MergeAll(ms, front, parent, now), last, parent, now, a);
    }
  }

  lemma OneStaysReady(ms: MessageMap, target: (string, Id), parent: Json, now: int, a: Id)
    requires AnswerReady(ms, a, parent) && a != target.1
    ensures AnswerReady(Merged(ms, target, parent, now), a, parent)
  {
    var ms' := Merged(ms, target, parent, now);
    assert Get(ms'[target.1], ParentId) == parent;
  }

  lemma MergedShape(ms: MessageMap, target: (string, Id), parent: Json, now: int)
    ensures var ms' := Merged(ms, target, parent, now);
      && target.1 in ms' && ms' == ms[target.1 := ms'[target.1]]
      && var msg := ms'[target.1];
      Get(msg, Id) == Str(target.1) && Parent(msg) == Pointer(parent) && Kids(msg) == [] && !NotAList(msg)
  {
  }

  lemma ReadyCases(ms: MessageMap, a: Id, parent: Json)
    requires AnswerReady(ms, a, parent)
    ensures if a in ms then Parent(ms[a]) == Pointer(parent) && Kids(ms[a]) == [] else Fresh(ms, a) && Pointer(parent) != Some(a)
  {
  }

  /** Storing one placeholder keeps the links right. */
  lemma MergeKeepsGrowing(ms: MessageMap, host: Option<Id>, announced: set<Id>, target: (string, Id), parent: Json, now: int)
    requires Growing(ms, {}, host, announced) && Pointer(parent) == host
    requires host.Some? ==> host.value in ms
    requires target.1 in announced && AnswerReady(ms, target.1, parent)
    ensures Growing(Merged(ms, target, parent, now), {}, host, announced)
  {
    hide *;
    MergedShape(ms, target, parent, now);
    ReadyCases(ms, target.1, parent);
    if target.1 in ms {
      AnswerAgain(ms, host, announced, target.1, Merged(ms, target, parent, now)[target.1]);
    } else {
      NewAnswer(ms, host, announced, target.1, Merged(ms, target, parent, now)[target.1]);
    }
  }

  /** Storing the placeholders one by one keeps the links right. */
  lemma {:induction false} PlaceholdersForest(ms: MessageMap, host: Option<Id>, announced: set<Id>,
                                              targets: seq<(string, Id)>, parent: Json, now: int)
    requires Growing(ms, {}, host, announced) && Pointer(parent) == host
    requires host.Some? ==> host.value in ms
    requires forall a :: a in Ids(targets) ==> a in announced && AnswerReady(ms, a, parent)
    requires NoDup(Ids(targets))
    ensures Growing(MergeAll(ms, targets, parent, now), {}, host, announced)
  {
    if targets != [] {
      var front, last := targets[..|targets| - 1], targets[|targets| - 1];
      LastTarget(targets);
      hide Growing, AnswerReady;
      PlaceholdersForest(ms, host, announced, front, parent, now);
      OthersStayReady(ms, front, parent, now, last.1);
      MergedKeys(ms, front, parent, now);
      MergeKeepsGrowing(MergeAll(ms, front, parent, now), host, announced, last, parent, now);
    }
  }

  lemma OnlyChatTransitive(a: Db, b: Db, d: Db, c: Id)
    requires OnlyChat(a, b, c) && OnlyChat(b, d, c)
    ensures OnlyChat(a, d, c)
  {
  }

  /** The upsert of a placeholder, seen on the messages of the chat. */
  lemma UpsertAnswer(db: Db, c: Id, target: (string, Id), parent: Json, now: int)
    requires Base(db) && c in db.chats && AnswerReady(MessagesOf(db, c), target.1, parent)
    ensures var db' := Upsert(db, c, target.1, Placeholder(target.0, target.1, parent, now), now);
      Base(db') && OnlyChat(db, db', c) && MessagesOf(db', c) == Merged(MessagesOf(db, c), target, parent, now)
  {
    var ms, a, msg := MessagesOf(db, c), target.1, Placeholder(target.0, target.1, parent, now);
    if a in ms {
      StoredNoAlias(db, c, a);
      assert Get(ms[a] + msg, ParentId) == parent && Get(ms[a] + msg, ParentIdSnake) == Get(ms[a], ParentIdSnake);
    } else {
      assert map[] + msg == msg;
    }
    assert Mirrors(ms, a, msg);
    UpsertAgreesExactly(db, c, a, msg, now);
    UpsertMessages(db, c, a, msg, now);
  }

  lemma {:induction false} PlaceholdersMirrored(db: Db, c: Id, targets: seq<(string, Id)>, parent: Json, now: int)
    requires Base(db) && c in db.chats && NoDup(Ids(targets))
    requires forall a :: a in Ids(targets) ==> AnswerReady(MessagesOf(db, c), a, parent)
    ensures var db' := SaveAnswers(db, c, targets, parent, now);
      && Base(db') && OnlyChat(db, db', c)
      && MessagesOf(db', c) == MergeAll(MessagesOf(db, c), targets, parent, now)
  {
    if targets != [] {
      var front, last := targets[..|targets| - 1], targets[|targets| - 1];
      LastTarget(targets);
      hide Base, AnswerReady, Upsert, Merged;
      PlaceholdersMirrored(db, c, front, parent, now);
      OthersStayReady(MessagesOf(db, c), front, parent, now, last.1);
      var db1 := SaveAnswers(db, c, front, parent, now);
      UpsertAnswer(db1, c, last, parent, now);
      OnlyChatTransitive(db, db1, Upsert(db1, c, last.1, Placeholder(last.0, last.1, parent, now), now), c);
    }
  }

  /** All is right but for answers the user message has dropped, or lists ahead. */
  ghost predicate Unlisted(ms: MessageMap, t: Turn, behind: set<Id>, ahead: set<Id>) {
    && Growing(ms, behind, UserId(t), ahead) && ahead <= Elems(AnswerIds(t)) && behind <= Elems(AnswerIds(t))
    && forall b :: b in behind ==> UserId(t).Some? && IsChild(ms, b, UserId(t).value)
  }

  /** The user message lists its answers before they are stored. */
  lemma AnswersAnnounced(db: Db, c: Id, t: Turn, now: int, behind: set<Id>, ahead: set<Id>)
    requires Base(db) && c in db.chats && Unlisted(MessagesOf(db, c), t, behind, ahead)
    requires UserId(t).Some? ==> UserId(t).value in MessagesOf(db, c)
    requires forall a :: a in AnswerIds(t) ==> AnswerReady(MessagesOf(db, c), a, Get(t.user, Id))
    ensures Announced(db, c, UserId(t), AnswerIds(t), LinkAnswers(db, c, t, now))
  {
    var ms, ids := MessagesOf(db, c), AnswerIds(t);
    if UserId(t).Some? && ids != [] {
      var u := UserId(t).value;
      assert ShapedAs(ms[u], u) && ms[u] != map[];
      forall a | a in ids ensures a !in ms || IsChild(ms, a, u) {
        assert AnswerReady(ms, a, Get(t.user, Id));
      }
      assert LinkAnswers(db, c, t, now) == Saved(Upsert(db, c, u, map[ChildrenIds := List(AppendNew(Kids(ms[u]), ids))], now)) by {
        hide Base, Growing, Upsert, AppendNew;
      }
      AnnouncedByUpsert(db, c, u, ids, now, behind, ahead);
    } else {
      NothingAnnounced(ms, UserId(t), behind, ahead, ids);
      assert LinkAnswers(db, c, t, now) == Saved(db);
    }
  }

  ghost predicate Announced(db: Db, c: Id, host: Option<Id>, ids: seq<Id>, o: Outcome) {
    && o.Saved? && Base(o.db) && c in db.chats && OnlyChat(db, o.db, c)
    && Growing(MessagesOf(o.db, c), {}, host, Elems(ids))
    && HostAlone(MessagesOf(db, c), MessagesOf(o.db, c), host)
  }

  /** Nothing but the child list of `host` may have changed. */
  ghost predicate HostAlone(ms: MessageMap, ms': MessageMap, host: Option<Id>) {
    ms'.Keys == ms.Keys && forall x :: x in ms ==> Parent(ms'[x]) == Parent(ms[x]) && (host != Some(x) ==> ms'[x] == ms[x])
  }

  lemma AnnouncedByUpsert(db: Db, c: Id, u: Id, ids: seq<Id>, now: int, behind: set<Id>, ahead: set<Id>)
    requires Base(db) && c in db.chats && u in MessagesOf(db, c)
    requires Growing(MessagesOf(db, c), behind, Some(u), ahead) && ahead <= Elems(ids) && behind <= Elems(ids)
    requires forall b :: b in behind ==> IsChild(MessagesOf(db, c), b, u)
    requires forall a :: a in ids ==> a !in MessagesOf(db, c) || IsChild(MessagesOf(db, c), a, u)
    ensures var kids := AppendNew(Kids(MessagesOf(db, c)[u]), ids);
      Announced(db, c, Some(u), ids, Saved(Upsert(db, c, u, map[ChildrenIds := List(kids)], now)))
  {
    var ms := MessagesOf(db, c);
    var kids := AppendNew(Kids(ms[u]), ids);
    hide *;
    UpsertKids(db, c, u, kids, now);
    AnnounceAnswers(ms, u, ids, behind, ahead);
    HostAloneListed(ms, u, kids);
    AnnouncedNow(db, Upsert(db, c, u, map[ChildrenIds := List(kids)], now), c, Some(u), ids);
  }

  lemma HostAloneListed(ms: MessageMap, u: Id, kids: seq<Json>)
    requires u in ms
    ensures HostAlone(ms, SetKids(ms, u, kids), Some(u))
  {
    SetKidsEffect(ms, u, kids);
    SameParentsEach(ms, SetKids(ms, u, kids));
  }

  lemma AnnouncedNow(db: Db, db1: Db, c: Id, host: Option<Id>, ids: seq<Id>)
    requires Base(db1) && c in db.chats && c in db1.chats && OnlyChat(db, db1, c)
    requires Growing(MessagesOf(db1, c), {}, host, Elems(ids)) && HostAlone(MessagesOf(db, c), MessagesOf(db1, c), host)
    ensures Announced(db, c, host, ids, Saved(db1))
  {
  }

  lemma AnnouncedStillReady(ms: MessageMap, ms': MessageMap, t: Turn)
    requires HostAlone(ms, ms', UserId(t))
    requires forall a :: a in AnswerIds(t) ==> AnswerReady(ms, a, Get(t.user, Id)) && UserId(t) != Some(a)
    ensures forall a :: a in AnswerIds(t) ==> AnswerReady(ms', a, Get(t.user, Id))
  {
    forall a | a in AnswerIds(t) ensures AnswerReady(ms', a, Get(t.user, Id)) {
      assert AnswerReady(ms, a, Get(t.user, Id));
    }
  }

  /** Placeholders are announced, then stored: the forest is complete at the end. */
  lemma AnswersSaved(db: Db, c: Id, t: Turn, now: int, behind: set<Id>, ahead: set<Id>)
    requires Base(db) && c in db.chats && Unlisted(MessagesOf(db, c), t, behind, ahead)
    requires UserId(t).Some? ==> UserId(t).value in MessagesOf(db, c)
    requires NoDup(AnswerIds(t))
    requires forall a :: a in AnswerIds(t) ==> AnswerReady(MessagesOf(db, c), a, Get(t.user, Id)) && UserId(t) != Some(a)
    ensures var o := LinkAnswers(db, c, t, now);
      && o.Saved? && OnlyChat(db, o.db, c)
      && var db' := SaveAnswers(o.db, c, Targets(t.answers), Get(t.user, Id), now);
      && Base(db') && OnlyChat(db, db', c) && IsForest(MessagesOf(db', c))
      && MessagesOf(db', c).Keys == MessagesOf(db, c).Keys + Elems(AnswerIds(t))
  {
    AnswersAnnounced(db, c, t, now, behind, ahead);
    var db1 := LinkAnswers(db, c, t, now).db;
    var ms1, targets, parent := MessagesOf(db1, c), Targets(t.answers), Get(t.user, Id);
    AnnouncedStillReady(MessagesOf(db, c), ms1, t);
    assert Ids(targets) == AnswerIds(t) && Pointer(parent) == UserId(t);
    hide AnswerReady, Growing, Base, IsForest, LinkAnswers, SaveAnswers, MergeAll;
    PlaceholdersForest(ms1, UserId(t), Elems(AnswerIds(t)), targets, parent, now);
    MergedKeys(ms1, targets, parent, now);
    PlaceholdersMirrored(db1, c, targets, parent, now);
    AllAnswered(MergeAll(ms1, targets, parent, now), UserId(t), Elems(AnswerIds(t)));
    OnlyChatTransitive(db, db1, SaveAnswers(db1, c, targets, parent, now), c);
  }

  /** `currentId` names a stored message. */
  ghost predicate CurrentOk(h: History) {
    h.messages == map[] || (h.currentId.Str? && h.currentId.s in h.messages)
  }

  ghost predicate ChatOk(h: History) {
    IsForest(h.messages) && CurrentOk(h)
  }

  lemma {:induction false} UpsertsKeepCurrent(db: Db, c: Id, targets: seq<(string, Id)>, parent: Json, now: int)
    requires c in db.chats && CurrentOk(db.chats[c].history)
    ensures var db' := SaveAnswers(db, c, targets, parent, now);
      c in db'.chats && CurrentOk(db'.chats[c].history)
  {
    if targets != [] {
      UpsertsKeepCurrent(db, c, targets[..|targets| - 1], parent, now);
    }
  }

  lemma TurnCurrent(db: Db, c: Id, t: Turn, now: int)
    requires c in db.chats && CurrentOk(db.chats[c].history)
    ensures var o := SaveTurn(db, c, t, now);
      c in o.db.chats && CurrentOk(o.db.chats[c].history)
  {
    hide UpsertRow, AppendNew, Targets, Ids, Kids;
    var db1 := SaveUser(db, c, t, now);
    assert c in db1.chats && CurrentOk(db1.chats[c].history);
    var linked := LinkGrandparent(db1, c, t, now);
    assert c in linked.db.chats && CurrentOk(linked.db.chats[c].history);
    if linked.Saved? {
      var announced := LinkAnswers(linked.db, c, t, now);
      assert c in announced.db.chats && CurrentOk(announced.db.chats[c].history);
      if announced.Saved? {
        UpsertsKeepCurrent(announced.db, c, Targets(t.answers), Get(t.user, Id), now);
      }
    }
  }

  /** A turn never aborts, keeps the chat a doubly linked forest whose `currentId`
      is stored, adds exactly its own messages, leaves other chats alone, and keeps
      rows and blobs in agreement. */
  lemma TurnKeepsForest(db: Db, c: Id, t: Turn, now: int)
    requires Base(db) && c in db.chats && ChatOk(db.chats[c].history)
    requires TurnOk(MessagesOf(db, c), t) && UserMirrors(MessagesOf(db, c), t)
    ensures var o := SaveTurn(db, c, t, now);
      && o.Saved? && Base(o.db) && OnlyChat(db, o.db, c) && ChatOk(o.db.chats[c].history)
      && MessagesOf(o.db, c).Keys == MessagesOf(db, c).Keys + UserIds(t) + Elems(AnswerIds(t))
  {
    UserSaved(db, c, t, now);
    var ms, db1 := MessagesOf(db, c), LinkGrandparent(SaveUser(db, c, t, now), c, t, now).db;
    AnswersStillReady(ms, MessagesOf(db1, c), t);
    hide AnswerReady, Growing, Base, IsForest, LinkGrandparent, SaveUser, LinkAnswers, SaveAnswers;
    AnswersSaved(db1, c, t, now, Behind(MessagesOf(db1, c), t), Ahead(MessagesOf(db1, c), t));
    TurnCurrent(db, c, t, now);
    OnlyChatTransitive(db, db1, SaveTurn(db, c, t, now).db, c);
  }

  /** Sent again with new answers at the end of the list. */
  predicate ListsMore(ms: MessageMap, u: Id, t: Turn)
    requires u in ms
  {
    && Get(t.user, ParentId) == Get(ms[u], ParentId) && (forall a :: a in AnswerIds(t) ==> a !in ms)
    && Get(t.user, ChildrenIds) == List(Kids(ms[u]) + AsStrs(AnswerIds(t)))
  }

  /** The messages the web client sends keep the rules: a new one that already lists
      its answers, a stored one with a further answer at the end of its list, and a
      stored one whose answer is continued. */
  lemma ClientTurnsOk(ms: MessageMap, t: Turn)
    requires IsForest(ms) && UserId(t).Some? && AnswersOk(ms, t)
    ensures var u, kids := UserId(t).value, Get(t.user, ChildrenIds);
      && (Fresh(ms, u) && Parent(t.user) != Some(u) && kids == List(AsStrs(AnswerIds(t))) ==> TurnOk(ms, t))
      && (u in ms && ListsMore(ms, u, t) ==> TurnOk(ms, t))
      && (u in ms && t.user == ms[u] ==> TurnOk(ms, t))
  {
    var u, ids := UserId(t).value, AnswerIds(t);
    AsStrsNoDup(ids);
    if u in ms {
      assert ShapedAs(ms[u], u);
      var before, more := Kids(ms[u]), AsStrs(ids);
      if forall a :: a in ids ==> a !in ms {
        forall k | k in before ensures k !in more {
          assert ListsRight(ms, u, k, {}, None, {});
        }
        forall i, j | 0 <= i < |before| && 0 <= j < |more| ensures before[i] != more[j] {
          assert before[i] in before && more[j] in more;
        }
        assert NoDup(before + more);
      }
    }
  }

  // ------------------------------------------- exactly which lists may be sent

  lemma {:induction false} AppendNewMembers(kids: seq<Json>, ids: seq<Id>)
    ensures kids <= AppendNew(kids, ids)
    ensures forall k :: k in AppendNew(kids, ids) <==> k in kids || (k.Str? && k.s in ids)
  {
    if ids != [] {
      var front, last := ids[..|ids| - 1], ids[|ids| - 1];
      assert ids == front + [last];
      AppendNewMembers(kids, front);
    }
  }

  lemma {:induction false} AnswersElsewhere(db: Db, c: Id, targets: seq<(string, Id)>, parent: Json, now: int, x: Id)
    requires c in db.chats && x !in Ids(targets)
    ensures var db' := SaveAnswers(db, c, targets, parent, now);
      && c in db'.chats && (x in MessagesOf(db', c) <==> x in MessagesOf(db, c))
      && (x in MessagesOf(db, c) ==> MessagesOf(db', c)[x] == MessagesOf(db, c)[x])
  {
    hide UpsertRow;
    if targets != [] {
      LastTarget(targets);
      AnswersElsewhere(db, c, targets[..|targets| - 1], parent, now, x);
    }
  }

  /** A message keeps its parent, and the children it listed stay at the front. */
  ghost predicate Extended(ms: MessageMap, ms': MessageMap, x: Id) {
    && (x in ms <==> x in ms')
    && (x in ms ==> Parent(ms'[x]) == Parent(ms[x]) && Kids(ms[x]) <= Kids(ms'[x]))
  }

  lemma UpsertExtends(db: Db, c: Id, m: Id, kids: seq<Json>, now: int, x: Id)
    requires c in db.chats && m in MessagesOf(db, c) && Kids(MessagesOf(db, c)[m]) <= kids
    ensures var db' := Upsert(db, c, m, map[ChildrenIds := List(kids)], now);
      c in db'.chats && Extended(MessagesOf(db, c), MessagesOf(db', c), x)
  {
    hide UpsertRow;
    UpsertMessages(db, c, m, map[ChildrenIds := List(kids)], now);
  }

  lemma LinkExtends(db: Db, c: Id, t: Turn, now: int, x: Id)
    requires c in db.chats
    ensures var db' := LinkGrandparent(db, c, t, now).db; c in db'.chats && Extended(MessagesOf(db, c), MessagesOf(db', c), x)
  {
    hide Upsert;
    var g := Parent(t.user);
    if g.Some? && g.value in MessagesOf(db, c) && UserId(t).Some? {
      UpsertExtends(db, c, g.value, Kids(MessagesOf(db, c)[g.value]) + [Str(UserId(t).value)], now, x);
    }
  }

  lemma AnnounceExtends(db: Db, c: Id, t: Turn, now: int, x: Id)
    requires c in db.chats
    ensures var db' := LinkAnswers(db, c, t, now).db; c in db'.chats && Extended(MessagesOf(db, c), MessagesOf(db', c), x)
  {
    hide Upsert, AppendNew;
    var u := UserId(t);
    if u.Some? && u.value in MessagesOf(db, c) {
      AppendNewMembers(Kids(MessagesOf(db, c)[u.value]), AnswerIds(t));
      UpsertExtends(db, c, u.value, AppendNew(Kids(MessagesOf(db, c)[u.value]), AnswerIds(t)), now, x);
    }
  }

  /** The messages once the user message is stored. */
  function UserPut(ms: MessageMap, t: Turn): MessageMap {
    match UserId(t)
    case Some(u) => ms[u := (if u in ms then ms[u] else map[]) + t.user]
    case None => ms
  }

  lemma UserPutStored(db: Db, c: Id, t: Turn, now: int)
    requires c in db.chats
    ensures var db1 := SaveUser(db, c, t, now); c in db1.chats && MessagesOf(db1, c) == UserPut(MessagesOf(db, c), t)
  {
    hide UpsertRow;
  }

  /** Whatever a turn does, completed or aborted, everything but its answers is only
      extended. */
  lemma TurnExtends(db: Db, c: Id, t: Turn, now: int, x: Id)
    requires c in db.chats && x !in AnswerIds(t)
    ensures var db' := SaveTurn(db, c, t, now).db;
      c in db'.chats && Extended(UserPut(MessagesOf(db, c), t), MessagesOf(db', c), x)
  {
    var db1 := SaveUser(db, c, t, now);
    UserPutStored(db, c, t, now);
    var linked := LinkGrandparent(db1, c, t, now);
    LinkExtends(db1, c, t, now, x);
    AnnounceExtends(linked.db, c, t, now, x);
    AnswersElsewhere(LinkAnswers(linked.db, c, t, now).db, c, Targets(t.answers), Get(t.user, Id), now, x);
    assert AnswerIds(t) == Ids(Targets(t.answers));
    hide SaveUser, LinkGrandparent, LinkAnswers, SaveAnswers, AnswerIds, UserPut;
  }

  /** Nothing but answers joined the list, and what is no list stays none. */
  ghost predicate ListBound(m: Message, m': Message, ids: seq<Id>) {
    (forall k :: k in Kids(m') ==> k in Kids(m) || (k.Str? && k.s in ids)) && (NotAList(m) ==> NotAList(m'))
  }

  lemma LinkLeavesUser(db: Db, c: Id, t: Turn, now: int, u: Id)
    requires c in db.chats && u in MessagesOf(db, c) && Parent(t.user) != Some(u)
    ensures var db' := LinkGrandparent(db, c, t, now).db;
      c in db'.chats && u in MessagesOf(db', c) && MessagesOf(db', c)[u] == MessagesOf(db, c)[u]
  {
    hide UpsertRow;
  }

  lemma AnnounceBound(db: Db, c: Id, t: Turn, now: int, u: Id)
    requires c in db.chats && u in MessagesOf(db, c) && UserId(t) == Some(u)
    ensures var db' := LinkAnswers(db, c, t, now).db;
      c in db'.chats && u in MessagesOf(db', c) && ListBound(MessagesOf(db, c)[u], MessagesOf(db', c)[u], AnswerIds(t))
  {
    hide UpsertRow, AppendNew;
    AppendNewMembers(Kids(MessagesOf(db, c)[u]), AnswerIds(t));
  }

  /** What the list of the user message can be after the turn. */
  lemma UserListBound(db: Db, c: Id, t: Turn, now: int, u: Id)
    requires c in db.chats && UserId(t) == Some(u) && u !in AnswerIds(t) && Parent(t.user) != Some(u)
    ensures var db' := SaveTurn(db, c, t, now).db;
      && c in db'.chats && u in MessagesOf(db', c) && u in UserPut(MessagesOf(db, c), t)
      && ListBound(UserPut(MessagesOf(db, c), t)[u], MessagesOf(db', c)[u], AnswerIds(t))
  {
    var db1 := SaveUser(db, c, t, now);
    UserPutStored(db, c, t, now);
    var linked := LinkGrandparent(db1, c, t, now);
    LinkLeavesUser(db1, c, t, now, u);
    AnnounceBound(linked.db, c, t, now, u);
    AnswersElsewhere(LinkAnswers(linked.db, c, t, now).db, c, Targets(t.answers), Get(t.user, Id), now, u);
    assert AnswerIds(t) == Ids(Targets(t.answers));
    hide SaveUser, LinkGrandparent, LinkAnswers, SaveAnswers, AnswerIds;
  }

  /** Starting an answer empties its list and touches no other message. */
  lemma AnswerStarts(db: Db, c: Id, target: (string, Id), parent: Json, now: int, a: Id)
    requires c in db.chats
    ensures var db' := Upsert(db, c, target.1, Placeholder(target.0, target.1, parent, now), now);
      && c in db'.chats
      && (a == target.1 ==> a in MessagesOf(db', c) && Kids(MessagesOf(db', c)[a]) == [])
      && (a != target.1 && a in MessagesOf(db, c) ==> a in MessagesOf(db', c) && MessagesOf(db', c)[a] == MessagesOf(db, c)[a])
  {
    var msg := Placeholder(target.0, target.1, parent, now);
    UpsertMessages(db, c, target.1, msg, now);
    assert ChildrenIds in msg && msg[ChildrenIds] == List([]);
    hide Upsert, Placeholder;
  }

  /** Every answer that was started has no children. */
  lemma {:induction false} AnswersStartEmpty(db: Db, c: Id, targets: seq<(string, Id)>, parent: Json, now: int, a: Id)
    requires c in db.chats && a in Ids(targets)
    ensures var db' := SaveAnswers(db, c, targets, parent, now);
      c in db'.chats && a in MessagesOf(db', c) && Kids(MessagesOf(db', c)[a]) == []
  {
    var front, last := targets[..|targets| - 1], targets[|targets| - 1];
    LastTarget(targets);
    SaveAnswersStay(db, c, front, parent, now);
    if a != last.1 {
      AnswersStartEmpty(db, c, front, parent, now, a);
    }
    AnswerStarts(SaveAnswers(db, c, front, parent, now), c, last, parent, now, a);
    hide Upsert, Placeholder, Kids;
  }

  lemma {:induction false} SaveAnswersStay(db: Db, c: Id, targets: seq<(string, Id)>, parent: Json, now: int)
    requires c in db.chats
    ensures c in SaveAnswers(db, c, targets, parent, now).chats
  {
    if targets != [] {
      SaveAnswersStay(db, c, targets[..|targets| - 1], parent, now);
    }
  }

  /** Ids are where they belong: answers are new or stored under the same parent, and
      the user message is new or stored under the parent it names. */
  ghost predicate IdsOk(ms: MessageMap, t: Turn) {
    && NoDup(AnswerIds(t))
    && (forall a :: a in AnswerIds(t) ==>
          && UserId(t) != Some(a) && (UserId(t).Some? ==> Parent(t.user) != Some(a))
          && (if a in ms then Get(ms[a], ParentId) == Get(t.user, Id) else Fresh(ms, a)))
    && (forall u :: UserId(t) == Some(u) ==>
          if u in ms then ParentId in t.user ==> t.user[ParentId] == Get(ms[u], ParentId)
          else Fresh(ms, u) && Parent(t.user) != Some(u))
  }

  /** A turn keeps the forest exactly when the lists are right: the user message lists
      the children it had before, answers aside, and nothing else but answers of the
      turn, none twice; and an answer that is continued has no children. */
  lemma TurnForestExactly(db: Db, c: Id, t: Turn, now: int)
    requires Base(db) && c in db.chats && ChatOk(db.chats[c].history)
    requires IdsOk(MessagesOf(db, c), t) && UserMirrors(MessagesOf(db, c), t)
    ensures var db' := SaveTurn(db, c, t, now).db;
      c in db'.chats && (IsForest(MessagesOf(db', c)) <==> TurnOk(MessagesOf(db, c), t))
  {
    var ms, o := MessagesOf(db, c), SaveTurn(db, c, t, now);
    TurnCurrent(db, c, t, now);
    if TurnOk(ms, t) {
      TurnKeepsForest(db, c, t, now);
    }
    if IsForest(MessagesOf(o.db, c)) {
      hide SaveTurn, Base, UserMirrors;
      AnswersWereReady(db, c, t, now);
      if UserId(t).Some? {
        UserWasOk(db, c, t, now);
      }
    }
  }

  lemma UserNotItsParent(ms: MessageMap, t: Turn, u: Id)
    requires IsForest(ms) && IdsOk(ms, t) && UserId(t) == Some(u)
    ensures Parent(t.user) != Some(u) && Parent(UserPut(ms, t)[u]) != Some(u)
    ensures u in ms ==> Parent(UserPut(ms, t)[u]) == Parent(ms[u])
  {
    if u in ms && Parent(ms[u]) == Some(u) {
      ParentIsAncestor(Parents(ms), u);
    }
  }

  /** If the turn ends in a forest, answers started again had no children. */
  lemma AnswersWereReady(db: Db, c: Id, t: Turn, now: int)
    requires c in db.chats && IsForest(MessagesOf(db, c)) && IdsOk(MessagesOf(db, c), t)
    requires var db' := SaveTurn(db, c, t, now).db; c in db'.chats && IsForest(MessagesOf(db', c))
    ensures AnswersOk(MessagesOf(db, c), t)
  {
    var ms, ms' := MessagesOf(db, c), MessagesOf(SaveTurn(db, c, t, now).db, c);
    forall a | a in AnswerIds(t) && a in ms ensures Kids(ms[a]) == [] {
      hide *;
      if Kids(ms[a]) != [] {
        var k := Kids(ms[a])[0];
        ListedChild(ms, a, k);
        ChildOfAnswer(ms, t, a, k.s);
        TurnExtends(db, c, t, now, k.s);
        AbortedOrEmpty(db, c, t, now, a);
        StillChild(ms, ms', t, a, k.s);
        UnlistedChild(ms', a, k.s);
      }
    }
    hide SaveTurn, IsForest, Kids;
  }

  lemma StillChild(ms: MessageMap, ms': MessageMap, t: Turn, p: Id, x: Id)
    requires IsChild(ms, x, p) && UserId(t) != Some(x) && Extended(UserPut(ms, t), ms', x)
    ensures IsChild(ms', x, p)
  {
    hide Kids;
  }

  lemma UnlistedChild(ms: MessageMap, p: Id, x: Id)
    requires p in ms && IsChild(ms, x, p) && Str(x) !in Kids(ms[p])
    ensures !IsForest(ms)
  {
    assert !ListsRight(ms, p, Str(x), {}, None, {});
  }

  /** A child of a stored answer is neither an answer nor the user message. */
  lemma ChildOfAnswer(ms: MessageMap, t: Turn, a: Id, x: Id)
    requires IsForest(ms) && IdsOk(ms, t) && a in AnswerIds(t) && a in ms && IsChild(ms, x, a)
    ensures x !in AnswerIds(t) && UserId(t) != Some(x)
  {
    assert UserId(t) == Some(x) ==> Parent(ms[a]) == Some(x);
    if UserId(t) == Some(x) {
      var par := Parents(ms);
      ParentIsAncestor(par, a);
      ParentIsAncestor(par, x);
      AncestorTransitive(par, x, a, x);
      assert false;
    }
  }

  /** A turn that ends in a forest was not aborted, so its answers were started. */
  lemma AbortedOrEmpty(db: Db, c: Id, t: Turn, now: int, a: Id)
    requires c in db.chats && a in AnswerIds(t) && IsForest(MessagesOf(db, c)) && IdsOk(MessagesOf(db, c), t)
    requires var db' := SaveTurn(db, c, t, now).db; c in db'.chats && IsForest(MessagesOf(db', c))
    ensures var ms' := MessagesOf(SaveTurn(db, c, t, now).db, c); a in ms' && Kids(ms'[a]) == []
  {
    var db1 := SaveUser(db, c, t, now);
    UserPutStored(db, c, t, now);
    var linked := LinkGrandparent(db1, c, t, now);
    LinkNotAborted(db, c, t, now);
    var announced := LinkAnswers(linked.db, c, t, now);
    LinkExtends(db1, c, t, now, a);
    AnnounceExtends(linked.db, c, t, now, a);
    if announced.Aborted? {
      AbortedNotForest(linked.db, c, t, now);
      assert false;
    }
    assert AnswerIds(t) == Ids(Targets(t.answers));
    hide SaveUser, LinkGrandparent, LinkAnswers, SaveAnswers, AnswerIds, UserPut, IsForest, IdsOk;
    AnswersStartEmpty(announced.db, c, Targets(t.answers), Get(t.user, Id), now, a);
  }

  lemma AbortedNotForest(db: Db, c: Id, t: Turn, now: int)
    requires c in db.chats && LinkAnswers(db, c, t, now).Aborted?
    ensures LinkAnswers(db, c, t, now).db == db && !IsForest(MessagesOf(db, c))
  {
    hide Upsert, AppendNew, Acyclic, LinkedBut;
    var u := UserId(t).value;
    assert u in MessagesOf(db, c) && !ShapedAs(MessagesOf(db, c)[u], u);
  }

  /** The parent's child list is a list. */
  lemma LinkNotAborted(db: Db, c: Id, t: Turn, now: int)
    requires c in db.chats && IsForest(MessagesOf(db, c)) && IdsOk(MessagesOf(db, c), t)
    ensures LinkGrandparent(SaveUser(db, c, t, now), c, t, now).Saved?
  {
    var ms, db1, g := MessagesOf(db, c), SaveUser(db, c, t, now), Parent(t.user);
    UserPutStored(db, c, t, now);
    if UserId(t).Some? && g.Some? {
      UserNotItsParent(ms, t, UserId(t).value);
      if g.value in ms {
        assert ShapedAs(ms[g.value], g.value);
      }
    }
    hide SaveUser, Upsert, IsForest, IdsOk;
  }

  /** If the turn ends in a forest, the user message listed what it should. */
  lemma UserWasOk(db: Db, c: Id, t: Turn, now: int)
    requires c in db.chats && IsForest(MessagesOf(db, c)) && IdsOk(MessagesOf(db, c), t) && UserId(t).Some?
    requires var db' := SaveTurn(db, c, t, now).db; c in db'.chats && IsForest(MessagesOf(db', c))
    ensures UserOk(MessagesOf(db, c), t)
  {
    var ms, ms', u := MessagesOf(db, c), MessagesOf(SaveTurn(db, c, t, now).db, c), UserId(t).value;
    UserNotItsParent(ms, t, u);
    assert u !in AnswerIds(t);
    hide *;
    UserListBound(db, c, t, now, u);
    forall x | x !in AnswerIds(t) ensures Extended(UserPut(ms, t), ms', x) {
      TurnExtends(db, c, t, now, x);
    }
    UserListWas(ms, ms', t, u);
  }

  lemma ListedChild(ms: MessageMap, u: Id, k: Json)
    requires IsForest(ms) && u in ms
    ensures k in Kids(ms[u]) <==> k.Str? && IsChild(ms, k.s, u)
  {
    assert ListsRight(ms, u, k, {}, None, {});
  }

  /** Who is a child of `u` is as before, answers aside. */
  lemma SameChild(ms: MessageMap, ms': MessageMap, t: Turn, u: Id, x: Id)
    requires UserId(t) == Some(u) && u in UserPut(ms, t) && Extended(UserPut(ms, t), ms', x)
    requires Parent(UserPut(ms, t)[u]) != Some(u) && (u in ms ==> Parent(ms[u]) != Some(u))
    ensures IsChild(ms', x, u) <==> IsChild(ms, x, u)
  {
    hide Kids;
  }

  lemma SameListed(m: Message, m': Message, ids: seq<Id>, k: Json)
    requires Kids(m) <= Kids(m') && ListBound(m, m', ids) && !(k.Str? && k.s in ids)
    ensures k in Kids(m) <==> k in Kids(m')
  {
  }

  lemma NoChildYet(ms: MessageMap, u: Id, x: Id)
    requires Fresh(ms, u)
    ensures !IsChild(ms, x, u)
  {
  }

  /** Answers aside, the stored list was the list before the turn. */
  lemma ListCompared(ms: MessageMap, ms': MessageMap, t: Turn, u: Id, k: Json)
    requires IsForest(ms) && IsForest(ms') && UserId(t) == Some(u) && u in ms' && u in UserPut(ms, t) && (u in ms || Fresh(ms, u))
    requires Kids(UserPut(ms, t)[u]) <= Kids(ms'[u]) && ListBound(UserPut(ms, t)[u], ms'[u], AnswerIds(t))
    requires !(k.Str? && k.s in AnswerIds(t)) && (k.Str? ==> Extended(UserPut(ms, t), ms', k.s))
    requires Parent(UserPut(ms, t)[u]) != Some(u) && (u in ms ==> Parent(ms[u]) != Some(u))
    ensures k in Kids(UserPut(ms, t)[u]) <==> u in ms && k in Kids(ms[u])
  {
    hide *;
    SameListed(UserPut(ms, t)[u], ms'[u], AnswerIds(t), k);
    ListedChild(ms', u, k);
    if k.Str? { SameChild(ms, ms', t, u, k.s); }
    if u in ms {
      ListedChild(ms, u, k);
    } else if k.Str? {
      NoChildYet(ms, u, k.s);
    }
  }

  lemma ShapedList(ms: MessageMap, u: Id)
    requires IsForest(ms) && u in ms
    ensures NoDup(Kids(ms[u])) && !NotAList(ms[u])
  {
    assert ShapedAs(ms[u], u);
  }

  lemma PrefixNoDup(a: seq<Json>, b: seq<Json>)
    requires a <= b && NoDup(b)
    ensures NoDup(a)
  {
  }

  lemma ExtendedList(ms: MessageMap, ms': MessageMap, x: Id)
    requires Extended(ms, ms', x) && x in ms
    ensures x in ms' && Kids(ms[x]) <= Kids(ms'[x])
  {
  }

  lemma BoundKeepsNoList(m: Message, m': Message, ids: seq<Id>)
    requires ListBound(m, m', ids) && !NotAList(m')
    ensures !NotAList(m)
  {
    hide Kids;
  }

  lemma UserListWas(ms: MessageMap, ms': MessageMap, t: Turn, u: Id)
    requires IsForest(ms) && IsForest(ms') && IdsOk(ms, t) && UserId(t) == Some(u) && u in ms' && u in UserPut(ms, t)
    requires ListBound(UserPut(ms, t)[u], ms'[u], AnswerIds(t)) && u !in AnswerIds(t)
    requires forall x :: x !in AnswerIds(t) ==> Extended(UserPut(ms, t), ms', x)
    requires Parent(t.user) != Some(u) && Parent(UserPut(ms, t)[u]) != Some(u)
    requires u in ms ==> Parent(UserPut(ms, t)[u]) == Parent(ms[u])
    ensures UserOk(ms, t)
  {
    var msg, ids := UserPut(ms, t)[u], AnswerIds(t);
    assert u in ms || Fresh(ms, u);
    hide *;
    ExtendedList(UserPut(ms, t), ms', u);
    ShapedList(ms', u);
    PrefixNoDup(Kids(msg), Kids(ms'[u]));
    BoundKeepsNoList(msg, ms'[u], ids);
    var before := if u in ms then Kids(ms[u]) else [];
    forall k: Json | !(k.Str? && k.s in ids) ensures k in Kids(msg) <==> k in before {
      ListCompared(ms, ms', t, u, k);
    }
    ListsOnlyIf(Kids(msg), before, ids);
    ListSent(ms, t, u);
  }

  lemma ListsOnlyIf(kids: seq<Json>, before: seq<Json>, ids: seq<Id>)
    requires NoDup(kids) && forall k: Json :: !(k.Str? && k.s in ids) ==> (k in kids <==> k in before)
    ensures ListsOnly(kids, before, ids)
  {
  }

  /** The stored message has the list that was sent, if one was sent. */
  lemma ListSent(ms: MessageMap, t: Turn, u: Id)
    requires IdsOk(ms, t) && UserId(t) == Some(u) && Parent(t.user) != Some(u) && !NotAList(UserPut(ms, t)[u])
    requires ListsOnly(Kids(UserPut(ms, t)[u]), if u in ms then Kids(ms[u]) else [], AnswerIds(t))
    ensures UserOk(ms, t)
  {
    var msg := UserPut(ms, t)[u];
    if u in ms {
      assert ChildrenIds in t.user ==> msg[ChildrenIds] == t.user[ChildrenIds];
    } else {
      assert map[] + t.user == t.user;
    }
  }

  /** A turn with a new user message keeps the forest exactly when that message lists
      nothing but answers of the turn, none twice.  A child listed for an answer that
      is not part of the turn stays listed and is never stored. */
  lemma NewUserForestExactly(db: Db, c: Id, t: Turn, now: int)
    requires Base(db) && c in db.chats && ChatOk(db.chats[c].history) && UserId(t).Some?
    requires AnswersOk(MessagesOf(db, c), t) && UserMirrors(MessagesOf(db, c), t)
    requires Fresh(MessagesOf(db, c), UserId(t).value) && Parent(t.user) != UserId(t) && !NotAList(t.user)
    ensures var db' := SaveTurn(db, c, t, now).db;
      c in db'.chats && (IsForest(MessagesOf(db', c)) <==> ListsOnly(Kids(t.user), [], AnswerIds(t)))
  {
    var ms := MessagesOf(db, c);
    forall a | a in AnswerIds(t) ensures if a in ms then Get(ms[a], ParentId) == Get(t.user, Id) else Fresh(ms, a) {
      assert AnswerReady(ms, a, Get(t.user, Id));
    }
    hide Base, ChatOk, SaveTurn;
    TurnForestExactly(db, c, t, now);
  }

  /** The input of a stale client: a stored user message is sent again with a list that
      lacks one of its children, which is no answer of the turn.  The child stays
      stored under its parent, but is no longer listed. */
  lemma StaleListUnlists(db: Db, c: Id, t: Turn, now: int, u: Id, b: Id)
    requires Base(db) && c in db.chats && ChatOk(db.chats[c].history)
    requires IdsOk(MessagesOf(db, c), t) && UserMirrors(MessagesOf(db, c), t)
    requires UserId(t) == Some(u) && u in MessagesOf(db, c) && IsChild(MessagesOf(db, c), b, u) && b !in AnswerIds(t)
    requires ChildrenIds in t.user && Str(b) !in Kids(t.user)
    ensures var db' := SaveTurn(db, c, t, now).db;
      && c in db'.chats && u in MessagesOf(db', c) && IsChild(MessagesOf(db', c), b, u)
      && Str(b) !in Kids(MessagesOf(db', c)[u]) && !IsForest(MessagesOf(db', c))
  {
    hide *;
    var ms := MessagesOf(db, c);
    HistoryForest(db, c);
    UserIsNoAnswer(ms, t, u);
    UserNotItsParent(ms, t, u);
    UserListBound(db, c, t, now, u);
    var ms' := MessagesOf(SaveTurn(db, c, t, now).db, c);
    TurnExtends(db, c, t, now, b);
    StaleList(ms, ms', t, u, b);
    UnlistedChild(ms', u, b);
  }

  lemma HistoryForest(db: Db, c: Id)
    requires c in db.chats && ChatOk(db.chats[c].history)
    ensures IsForest(MessagesOf(db, c))
  {
  }

  lemma UserIsNoAnswer(ms: MessageMap, t: Turn, u: Id)
    requires IdsOk(ms, t) && UserId(t) == Some(u)
    ensures u !in AnswerIds(t)
  {
  }

  lemma StaleList(ms: MessageMap, ms': MessageMap, t: Turn, u: Id, b: Id)
    requires UserId(t) == Some(u) && u in ms && u in ms' && IsChild(ms, b, u) && b !in AnswerIds(t)
    requires ChildrenIds in t.user && Str(b) !in Kids(t.user)
    requires u in UserPut(ms, t) && Parent(UserPut(ms, t)[u]) != Some(u) && Parent(UserPut(ms, t)[u]) == Parent(ms[u])
    requires ListBound(UserPut(ms, t)[u], ms'[u], AnswerIds(t)) && Extended(UserPut(ms, t), ms', b)
    ensures IsChild(ms', b, u) && Str(b) !in Kids(ms'[u])
  {
    SameChild(ms, ms', t, u, b);
    assert Kids(UserPut(ms, t)[u]) == Kids(t.user);
    hide Kids, UserPut, Extended, AnswerIds;
  }

  // ----------------------------------------------------------------- new chat

  /** The first turn of a chat: an own id for everything, and a user message, if
      any, that is not its own parent. */
  predicate FirstTurnOk(t: Turn) {
    && NoDup(AnswerIds(t))
    && (UserId(t).Some? ==> Parent(t.user) != UserId(t))
    && forall a :: a in AnswerIds(t) ==> a != "" && UserId(t) != Some(a) && (UserId(t).Some? ==> Parent(t.user) != Some(a))
  }

  lemma {:induction false} TargetsNonEmpty(answers: seq<(string, Option<Id>)>)
    ensures forall a :: a in Ids(Targets(answers)) ==> a != ""
  {
    if answers != [] {
      var front := answers[..|answers| - 1];
      var (model, id) := answers[|answers| - 1];
      TargetsNonEmpty(front);
      if id.Some? && id.value != "" {
        assert Ids(Targets(answers)) == Ids(Targets(front)) + [id.value];
      } else {
        assert Ids(Targets(answers)) == Ids(Targets(front));
      }
    }
  }

  lemma AsStrsNoDup(ids: seq<Id>)
    requires NoDup(ids)
    ensures NoDup(AsStrs(ids))
  {
    var s := AsStrs(ids);
    forall i, j | 0 <= i < j < |ids| ensures s[i] != s[j] {
      assert ids[i] != ids[j];
    }
  }

  /** The user message alone, announcing all answers. */
  lemma FirstMessagesLinked(t: Turn)
    requires FirstTurnOk(t)
    ensures var ms := FirstMessages(t);
      && Growing(ms, {}, UserId(t), Elems(AnswerIds(t)))
      && ms.Keys == UserIds(t)
      && forall a :: a in AnswerIds(t) ==> Fresh(ms, a)
  {
    var ms, ids := FirstMessages(t), AnswerIds(t);
    TargetsNonEmpty(t.answers);
    AsStrsNoDup(ids);
    var none: map<Id, Id> := map[];
    assert Acyclic(none) by {
      forall x ensures !Ancestor(none, x, x) {}
    }
    match UserId(t) {
      case None =>
        assert Parents(ms) == none;
      case Some(u) =>
        assert ms[u] == t.user[ChildrenIds := List(AsStrs(ids))];
        assert Get(ms[u], Id) == Get(t.user, Id) && Get(ms[u], ParentId) == Get(t.user, ParentId);
        if Parent(t.user).Some? {
          assert Parents(ms) == none[u := Parent(t.user).value];
          AddLeaf(none, u, Parent(t.user).value);
        } else {
          assert Parents(ms) == none;
        }
    }
    var announced := Elems(ids);
    forall p, k | p in ms ensures ListsRight(ms, p, k, {}, UserId(t), announced) {
    }
  }

  /** Placeholders under new ids are stored as they are. */
  lemma {:induction false} AddIsMerge(ms: MessageMap, targets: seq<(string, Id)>, parent: Json, now: int)
    requires NoDup(Ids(targets)) && forall a :: a in Ids(targets) ==> a !in ms
    ensures AddPlaceholders(ms, targets, parent, now) == MergeAll(ms, targets, parent, now)
  {
    if targets != [] {
      var front, last := targets[..|targets| - 1], targets[|targets| - 1];
      LastTarget(targets);
      AddIsMerge(ms, front, parent, now);
      MergedKeys(ms, front, parent, now);
      assert map[] + Placeholder(last.0, last.1, parent, now) == Placeholder(last.0, last.1, parent, now);
    }
  }

  /** The history written for a new chat is a doubly linked forest of exactly the
      turn's messages, and its `currentId` is stored. */
  lemma NewHistoryForest(t: Turn, now: int)
    requires FirstTurnOk(t)
    ensures ChatOk(NewHistory(t, now))
    ensures NewHistory(t, now).messages.Keys == UserIds(t) + Elems(AnswerIds(t))
  {
    var ms, targets, parent := FirstMessages(t), Targets(t.answers), Get(t.user, Id);
    FirstMessagesLinked(t);
    AddIsMerge(ms, targets, parent, now);
    PlaceholdersForest(ms, UserId(t), Elems(AnswerIds(t)), targets, parent, now);
    MergedKeys(ms, targets, parent, now);
    AllAnswered(MergeAll(ms, targets, parent, now), UserId(t), Elems(AnswerIds(t)));
    if AnswerIds(t) != [] {
      assert AnswerIds(t)[0] in AnswerIds(t);
    }
  }

  lemma {:induction false} PlaceholderAt(ms: MessageMap, targets: seq<(string, Id)>, parent: Json, now: int, m: Id)
    requires m in AddPlaceholders(ms, targets, parent, now)
    ensures var d := AddPlaceholders(ms, targets, parent, now)[m];
      (m in ms && d == ms[m] && m !in Ids(targets)) || (m in Ids(targets) && Get(d, Role) == Str("assistant") && NoAlias(d))
  {
    if targets != [] {
      var front, last := targets[..|targets| - 1], targets[|targets| - 1];
      LastTarget(targets);
      if m != last.1 {
        PlaceholderAt(ms, front, parent, now, m);
      }
    }
  }

  /** Rows and blob agree about a new chat exactly when its user message, if it has
      one, comes with a role and without a contradicting `parent_id`. */
  lemma NewChatAgrees(db: Db, c: Id, owner: string, t: Turn, order: seq<Id>, now: int)
    requires Base(db) && c !in db.chats && |c| == UUID_LENGTH && FirstTurnOk(t)
    requires Enumerates(order, NewHistory(t, now).messages)
    ensures Base(InsertChat(db, c, owner, NewHistory(t, now), order, now)) <==>
            (UserId(t).Some? ==> Truthy(Get(t.user, Role)) && NoAlias(t.user))
  {
    hide Base, InsertChat, ChatOk;
    InsertAgreesExactly(db, c, owner, NewHistory(t, now), order, now);
    NewHistoryForest(t, now);
    forall m | m in NewHistory(t, now).messages
      ensures var d := NewHistory(t, now).messages[m];
        (Truthy(Get(d, Role)) && NoAlias(d)) <==> (UserId(t) == Some(m) ==> Truthy(Get(t.user, Role)) && NoAlias(t.user))
    {
      FirstMessageRole(t, now, m);
    }
    if UserId(t).Some? {
      assert UserId(t).value in NewHistory(t, now).messages;
    }
  }

  lemma FirstMessageRole(t: Turn, now: int, m: Id)
    requires FirstTurnOk(t) && m in NewHistory(t, now).messages
    ensures var d := NewHistory(t, now).messages[m];
      (Truthy(Get(d, Role)) && NoAlias(d)) <==> (UserId(t) == Some(m) ==> Truthy(Get(t.user, Role)) && NoAlias(t.user))
  {
    PlaceholderAt(FirstMessages(t), Targets(t.answers), Get(t.user, Id), now, m);
    if UserId(t) == Some(m) {
      var d := t.user[ChildrenIds := List(AsStrs(AnswerIds(t)))];
      assert NewHistory(t, now).messages[m] == d;
      assert Get(d, Role) == Get(t.user, Role);
      assert Get(d, ParentId) == Get(t.user, ParentId) && Get(d, ParentIdSnake) == Get(t.user, ParentIdSnake);
    }
  }
}
