/** Whole histories of a chat database: new chats, turns and field updates in any
    order, and what readers of the two stores see at the end. */
module ChatRuns {
  import opened Collections
  import opened Json
  import opened Forest
  import opened Messages
  import opened ChatMessages
  import opened Chats
  import opened ChatTurn
  import opened TurnRecords

  datatype Step =
    | FirstTurn(c: Id, owner: string, turn: Turn, order: seq<Id>, now: int)
    | LaterTurn(c: Id, turn: Turn, now: int)
    | UpdateFields(c: Id, m: Id, patch: Message, now: int)

  /** What the client owes: new ids, roles, and links as a turn may have them. */
  ghost predicate Allowed(db: Db, s: Step) {
    match s
    case FirstTurn(c, owner, t, order, now) =>
      && c !in db.chats && |c| == UUID_LENGTH && FirstTurnOk(t)
      && Enumerates(order, NewHistory(t, now).messages)
      && (UserId(t).Some? ==> Truthy(Get(t.user, Role)) && NoAlias(t.user))
    case LaterTurn(c, t, now) =>
      c in db.chats ==> TurnOk(MessagesOf(db, c), t) && UserMirrors(MessagesOf(db, c), t)
    case UpdateFields(c, m, patch, now) =>
      c in db.chats ==> FieldsOnly(MessagesOf(db, c), m, patch) && Mirrors(MessagesOf(db, c), m, patch)
  }

  /** What the database itself demands: a new chat has a new id, and its messages are
      written in some order. */
  ghost predicate Possible(db: Db, s: Step) {
    s.FirstTurn? ==> s.c !in db.chats && Enumerates(s.order, NewHistory(s.turn, s.now).messages)
  }

  ghost function Do(db: Db, s: Step): Db
    requires Possible(db, s)
  {
    match s
    case FirstTurn(c, owner, t, order, now) => InsertChat(db, c, owner, NewHistory(t, now), order, now)
    case LaterTurn(c, t, now) => SaveTurn(db, c, t, now).db
    case UpdateFields(c, m, patch, now) => Upsert(db, c, m, patch, now)
  }

  /** A patch is merged into its message, which becomes the current one. */
  ghost predicate Patched(h: History, h': History, m: Id, patch: Message) {
    && h'.currentId == Str(m) && h'.messages.Keys == h.messages.Keys + {m}
    && (forall x :: x in h.messages && x != m ==> h'.messages[x] == h.messages[x])
    && forall k :: Get(h'.messages[m], k) == if k in patch then patch[k] else if m in h.messages then Get(h.messages[m], k) else Null
  }

  /** What each step of a run leaves in its chat, told by what the client sent; other
      chats are left alone, and an unknown chat gets nothing. */
  lemma StepRecorded(db: Db, s: Step)
    requires Possible(db, s)
    ensures var db' := Do(db, s);
      && (forall c :: c in db.chats && c != s.c ==> c in db'.chats && db'.chats[c] == db.chats[c])
      && (s.c in db'.chats <==> s.c in db.chats || s.FirstTurn?)
      && match s
         case FirstTurn(c, owner, t, _, now) => db'.chats[c].userId == owner && HistoryRecorded(db'.chats[c].history, t, now)
         case LaterTurn(c, t, now) =>
           c in db.chats && SaveTurn(db, c, t, now).Saved? ==> TurnRecorded(MessagesOf(db, c), MessagesOf(db', c), t, now)
         case UpdateFields(c, m, patch, _) => c in db.chats ==> Patched(db.chats[c].history, db'.chats[c].history, m, patch)
  {
    hide HistoryRecorded, TurnRecorded, NewHistory;
    match s {
      case FirstTurn(c, owner, t, order, now) =>
        FirstTurnRecorded(t, now);
        hide WriteRows;
      case LaterTurn(c, t, now) =>
        if c in db.chats {
          TurnElsewhere(db, c, t, now);
          if SaveTurn(db, c, t, now).Saved? { LaterTurnRecorded(db, c, t, now); }
        } else {
          TurnOnUnknownChat(db, c, t, now);
        }
        hide SaveTurn;
      case UpdateFields(c, m, patch, now) =>
        hide UpsertRow;
    }
  }

  /** The two stores agree and every chat is a doubly linked forest. */
  ghost predicate Good(db: Db) {
    Base(db) && forall c :: c in db.chats ==> ChatOk(db.chats[c].history)
  }

  lemma OnlyChatGood(db: Db, db': Db, c: Id)
    requires Good(db) && c in db.chats && OnlyChat(db, db', c) && Base(db') && ChatOk(db'.chats[c].history)
    ensures Good(db')
  {
    hide Base, ChatOk;
    forall x | x in db'.chats ensures ChatOk(db'.chats[x].history) {
      if x != c {
        assert ChatOk(db.chats[x].history);
      }
    }
  }

  lemma TurnOnUnknownChat(db: Db, c: Id, t: Turn, now: int)
    requires c !in db.chats
    ensures SaveTurn(db, c, t, now) == Saved(db)
  {
    AnswersOnUnknownChat(db, c, Targets(t.answers), Get(t.user, Id), now);
  }

  lemma {:induction false} AnswersOnUnknownChat(db: Db, c: Id, targets: seq<(string, Id)>, parent: Json, now: int)
    requires c !in db.chats
    ensures SaveAnswers(db, c, targets, parent, now) == db
  {
    if targets != [] {
      AnswersOnUnknownChat(db, c, targets[..|targets| - 1], parent, now);
    }
  }

  /** A field update keeps the forest, and the message it touches becomes current. */
  lemma FieldsKeepGood(db: Db, c: Id, m: Id, patch: Message, now: int)
    requires Good(db) && c in db.chats
    requires FieldsOnly(MessagesOf(db, c), m, patch) && Mirrors(MessagesOf(db, c), m, patch)
    ensures Good(Upsert(db, c, m, patch, now))
  {
    hide Base, IsForest, Mirrors;
    UpsertAgreesExactly(db, c, m, patch, now);
    UpsertMessages(db, c, m, patch, now);
    FieldsOnlyKeepsForest(MessagesOf(db, c), m, patch);
    OnlyChatGood(db, Upsert(db, c, m, patch, now), c);
  }

  lemma FirstTurnKeepsGood(db: Db, s: Step)
    requires s.FirstTurn? && Good(db) && Allowed(db, s)
    ensures Good(Do(db, s))
  {
    hide Base, ChatOk, NewHistory;
    NewChatAgrees(db, s.c, s.owner, s.turn, s.order, s.now);
    NewHistoryForest(s.turn, s.now);
  }

  /** Every allowed step keeps the database good, and no turn aborts. */
  lemma StepKeepsGood(db: Db, s: Step)
    requires Good(db) && Allowed(db, s)
    ensures Good(Do(db, s))
    ensures s.LaterTurn? ==> SaveTurn(db, s.c, s.turn, s.now).Saved?
  {
    hide Base, ChatOk, SaveTurn;
    match s {
      case FirstTurn(_, _, _, _, _) =>
        FirstTurnKeepsGood(db, s);
      case LaterTurn(c, t, now) =>
        if c in db.chats {
          TurnKeepsForest(db, c, t, now);
          OnlyChatGood(db, SaveTurn(db, c, t, now).db, c);
        } else {
          TurnOnUnknownChat(db, c, t, now);
        }
      case UpdateFields(c, m, patch, now) =>
        if c in db.chats {
          FieldsKeepGood(db, c, m, patch, now);
        }
    }
  }

  /** `db` can be reached from two empty tables by the given steps. */
  ghost predicate Reaches(steps: seq<Step>, db: Db)
    decreases |steps|
  {
    if steps == [] then db == Db(map[], map[])
    else exists before :: Last(steps, before, db)
  }

  /** The last step of a run that was at `before`. */
  ghost predicate Last(steps: seq<Step>, before: Db, db: Db)
    requires steps != []
    decreases |steps|, 0
  {
    var last := steps[|steps| - 1];
    Reaches(steps[..|steps| - 1], before) && Allowed(before, last) && db == Do(before, last)
  }

  lemma {:induction false} ReachableGood(steps: seq<Step>, db: Db)
    requires Reaches(steps, db)
    ensures Good(db)
    decreases |steps|
  {
    hide Good, Allowed, Possible, Do;
    if steps == [] {
      EmptyGood();
    } else {
      var last := steps[|steps| - 1];
      var before :| Last(steps, before, db);
      ReachableGood(steps[..|steps| - 1], before);
      StepKeepsGood(before, last);
    }
  }

  lemma EmptyGood()
    ensures Good(Db(map[], map[]))
  {
  }

  // ------------------------------------------------------- what readers compare

  /** The same message, as far as both stores record it. */
  ghost predicate SameMessage(rebuilt: Message, d: Message) {
    SameText(rebuilt, d) && SameStatus(rebuilt, d) && SameList(Kids(rebuilt), Kids(d))
  }

  ghost predicate SameText(rebuilt: Message, d: Message) {
    && Get(rebuilt, Id) == Get(d, Id)
    && Get(rebuilt, ParentId) == Get(d, ParentId)
    && Get(rebuilt, Role) == GetOr(d, Role, Str("user"))
    && Get(rebuilt, Content) == (if Get(d, Content).Null? then Str("") else d[Content])
    && Get(rebuilt, Output) == Get(d, Output)
    && Get(rebuilt, Model) == Or(Get(d, ModelId), Get(d, Model))
  }

  ghost predicate SameStatus(rebuilt: Message, d: Message) {
    && Get(rebuilt, Files) == Get(d, Files)
    && Get(rebuilt, Sources) == Get(d, Sources)
    && Get(rebuilt, Embeds) == Get(d, Embeds)
    && Get(rebuilt, Done) == GetOr(d, Done, Bool(true))
    && Get(rebuilt, StatusHistory) == Or(Get(d, StatusHistorySnake), Get(d, StatusHistory))
    && Get(rebuilt, Error) == Get(d, Error)
  }

  /** The same children, none twice, and equally many of them. */
  ghost predicate SameList(a: seq<Json>, b: seq<Json>) {
    NoDup(a) && NoDup(b) && |a| == |b| && forall k :: k in a <==> k in b
  }

  /** The same ids, and the same message under each. */
  ghost predicate SameStory(rebuilt: MessageMap, ms: MessageMap) {
    forall m :: m in rebuilt || m in ms ==> m in rebuilt && m in ms && SameMessage(rebuilt[m], ms[m])
  }

  lemma {:induction false} SameElemsSameLength<T>(a: seq<T>, b: seq<T>)
    requires NoDup(a) && NoDup(b) && forall x :: x in a ==> x in b
    ensures |a| <= |b|
  {
    if a != [] {
      var front, last := a[..|a| - 1], a[|a| - 1];
      assert a == front + [last];
      NoDupFront(front, last);
      assert last in a;
      var i :| 0 <= i < |b| && b[i] == last;
      var b' := b[..i] + b[i + 1..];
      forall x | x in front ensures x in b' {
        assert x in a && x != last;
        var j :| 0 <= j < |b| && b[j] == x;
        assert if j < i then b'[j] == x else b'[j - 1] == x;
      }
      assert NoDup(b');
      SameElemsSameLength(front, b');
    }
  }

  lemma RebuiltMessage(r: Row, msg: Message, d: Message, m: Id)
    requires FromRow(msg, r, m) && RowAgrees(r, d) && Get(d, Id) == Str(m)
    requires NoDup(Kids(msg)) && NoDup(Kids(d)) && forall k :: k in Kids(msg) <==> k in Kids(d)
    ensures SameMessage(msg, d)
  {
    hide FromRow, RowAgrees, ReadsText, ReadsStatus, ReadsUsage, NoOtherSpelling, SameText, SameStatus, SameList, NoDup, Kids;
    SameElemsSameList(Kids(msg), Kids(d));
    RowReadsAs(msg, r, m);
    RebuiltText(r, msg, d, m);
    RebuiltStatus(r, msg, d);
  }

  lemma SameElemsSameList(a: seq<Json>, b: seq<Json>)
    requires NoDup(a) && NoDup(b) && forall k :: k in a <==> k in b
    ensures SameList(a, b)
  {
    SameElemsSameLength(a, b);
    SameElemsSameLength(b, a);
  }

  lemma RebuiltText(r: Row, msg: Message, d: Message, m: Id)
    requires ReadsText(msg, r, m) && RowAgrees(r, d) && Get(d, Id) == Str(m)
    ensures SameText(msg, d)
  {
    hide Or, NoAlias;
  }

  lemma RebuiltStatus(r: Row, msg: Message, d: Message)
    requires ReadsStatus(msg, r) && RowAgrees(r, d)
    ensures SameStatus(msg, d)
  {
    hide Or, NoAlias, Get, GetOr;
  }

  /** Two doubly linked maps with the same parents list the same children. */
  lemma SameKids(a: MessageMap, b: MessageMap, p: Id)
    requires Linked(a) && Linked(b) && p in a && p in b && a.Keys == b.Keys
    requires forall m :: m in a ==> Get(a[m], ParentId) == Get(b[m], ParentId)
    ensures forall k :: k in Kids(a[p]) <==> k in Kids(b[p])
  {
    forall k ensures k in Kids(a[p]) <==> k in Kids(b[p]) {
      assert ListsRight(a, p, k, {}, None, {}) && ListsRight(b, p, k, {}, None, {});
    }
  }

  /** In a good database the map rebuilt from the rows is the blob: same ids, same
      parents, same children, same contents. */
  lemma RebuildIsBlob(db: Db, c: Id, mm: MessageMap)
    requires Good(db) && c in db.chats && IsRebuild(db.rows, c, mm)
    ensures SameStory(mm, MessagesOf(db, c))
  {
    hide Good, SameMessage, IsRebuild, ChatOk, Agree;
    GoodChat(db, c);
    var ms := MessagesOf(db, c);
    RebuiltParents(db.rows, c, ms, mm);
    forall m | m in mm ensures SameMessage(mm[m], ms[m]) {
      RebuiltOne(db, c, mm, m);
    }
  }

  lemma GoodChat(db: Db, c: Id)
    requires Good(db) && c in db.chats
    ensures ChatAgrees(db, c) && ChatOk(db.chats[c].history)
  {
    hide TableOk, ChatAgrees, ChatOk;
  }

  lemma RebuiltParents(rows: Rows, c: Id, ms: MessageMap, mm: MessageMap)
    requires Agree(rows, c, ms) && IsRebuild(rows, c, mm)
    ensures mm.Keys == ms.Keys && forall m :: m in mm ==> Get(mm[m], ParentId) == Get(ms[m], ParentId)
  {
    hide InStep, Linked;
    forall m ensures m in mm <==> m in ms {
      assert MessageAgrees(rows, c, ms, m);
    }
    forall m | m in mm ensures Get(mm[m], ParentId) == Get(ms[m], ParentId) {
      assert MessageAgrees(rows, c, ms, m) && FromRow(mm[m], rows[Composite(c, m)], m);
      assert Get(mm[m], ParentId) == Cell(rows[Composite(c, m)], m, ParentId);
    }
  }

  lemma RebuiltOne(db: Db, c: Id, mm: MessageMap, m: Id)
    requires ChatAgrees(db, c) && ChatOk(db.chats[c].history) && IsRebuild(db.rows, c, mm) && m in mm
    ensures m in MessagesOf(db, c) && SameMessage(mm[m], MessagesOf(db, c)[m])
  {
    var ms := MessagesOf(db, c);
    assert MessageAgrees(db.rows, c, ms, m) && ShapedAs(ms[m], m);
    RebuiltParents(db.rows, c, ms, mm);
    SameKids(mm, ms, m);
    hide SameMessage, FromRow, RowAgrees, Linked, Acyclic, Agree;
    RebuiltMessage(db.rows[Composite(c, m)], mm[m], ms[m], m);
  }

  /** The main agreement: after any allowed run, whatever map the fast path builds
      from the rows is the JSON history. */
  lemma RunsAgree(steps: seq<Step>, db: Db, c: Id, mm: MessageMap)
    requires Reaches(steps, db) && c in db.chats && IsRebuild(db.rows, c, mm)
    ensures SameStory(mm, MessagesOf(db, c))
  {
    hide *;
    ReachableGood(steps, db);
    RebuildIsBlob(db, c, mm);
  }

  lemma NothingBackfilled(rows: Rows, rows': Rows, c: Id, user: string, now: int)
    requires BackfilledBy(rows, rows', c, user, map[], now)
    ensures rows' == rows
  {
    var order :| Enumerates(order, map[]) && rows' == WriteRows(rows, c, user, map[], order, now);
    if order != [] { assert order[0] in order; }
  }

  /** Where rows and history hold the same messages, no gap can be filled. */
  lemma NothingToHeal(db: Db, db': Db, c: Id, mm: MessageMap, now: int)
    requires c in db.chats && db'.chats == db.chats && mm.Keys == HistoryOf(db, c).Keys
    requires BackfilledBy(db.rows, db'.rows, c, db.chats[c].userId, Restrict(HistoryOf(db, c), Unresolved(mm)), now)
    ensures db' == db && mm + Restrict(HistoryOf(db, c), Unresolved(mm)) == mm
  {
    hide BackfilledBy, HistoryOf;
    assert Restrict(HistoryOf(db, c), Unresolved(mm)) == map[];
    NothingBackfilled(db.rows, db'.rows, c, db.chats[c].userId, now);
  }

  lemma SameStoryKeys(mm: MessageMap, ms: MessageMap)
    requires SameStory(mm, ms)
    ensures mm.Keys == ms.Keys
  {
    hide SameMessage;
  }

  lemma SameStoryEmpty()
    ensures SameStory(map[], map[])
  {
  }

  lemma NoRowsNoHistory(db: Db, c: Id)
    requires ChatAgrees(db, c) && !HasRows(db.rows, c)
    ensures HistoryOf(db, c) == map[]
  {
    forall m ensures m !in HistoryOf(db, c) {
      assert MessageAgrees(db.rows, c, HistoryOf(db, c), m);
    }
  }

  lemma ReadWithRows(db: Db, db': Db, c: Id, result: Option<MessageMap>, now: int) returns (mm: MessageMap)
    requires c in db.chats && Read(db, db', c, result, now) && HasRows(db.rows, c)
    ensures db'.chats == db.chats && IsRebuild(db.rows, c, mm)
    ensures var missing := Restrict(HistoryOf(db, c), Unresolved(mm));
      result == Some(mm + missing) && BackfilledBy(db.rows, db'.rows, c, db.chats[c].userId, missing, now)
  {
    hide IsRebuild, BackfilledBy, Restrict, Unresolved, HasRow, HistoryOf;
    mm :| IsRebuild(db.rows, c, mm) && ReadFrom(db, db', c, mm, result, now);
  }

  lemma ReadWithoutRows(db: Db, db': Db, c: Id, result: Option<MessageMap>, now: int)
    requires c in db.chats && Read(db, db', c, result, now) && !HasRows(db.rows, c)
    requires HistoryOf(db, c) == map[]
    ensures db' == db && result == Some(map[])
  {
    hide IsRebuild, Unresolved, HasRow;
    NothingBackfilled(db.rows, db'.rows, c, db.chats[c].userId, now);
  }

  /** The healing read, after any allowed run: it returns the JSON history, message
      by message, and has nothing to heal, even where parents dangle. */
  lemma ReadsSeeBlob(steps: seq<Step>, db: Db, c: Id, db': Db, result: Option<MessageMap>, now: int)
    requires Reaches(steps, db) && c in db.chats && Read(db, db', c, result, now)
    ensures db' == db && result.Some? && SameStory(result.value, MessagesOf(db, c))
  {
    assert HistoryOf(db, c) == MessagesOf(db, c);
    hide *;
    ReachableGood(steps, db);
    GoodChat(db, c);
    if HasRows(db.rows, c) {
      var mm := ReadWithRows(db, db', c, result, now);
      RebuildIsBlob(db, c, mm);
      SameStoryKeys(mm, HistoryOf(db, c));
      NothingToHeal(db, db', c, mm, now);
    } else {
      NoRowsNoHistory(db, c);
      SameStoryEmpty();
      ReadWithoutRows(db, db', c, result, now);
    }
  }

  // ------------------------------------------------------------------ token usage

  /** No row is lost, and no usage key of a row. */
  ghost predicate UsageKept(rows: Rows, rows': Rows) {
    forall k :: k in rows ==> k in rows' && rows[k].usage.Keys <= rows'[k].usage.Keys
  }

  lemma UpsertKeepsUsage(db: Db, c: Id, m: Id, patch: Message, now: int)
    ensures UsageKept(db.rows, Upsert(db, c, m, patch, now).rows)
  {
    hide GetUsage;
  }

  lemma {:induction false} WritesKeepUsage(rows: Rows, c: Id, user: string, ms: MessageMap, order: seq<Id>, now: int)
    requires forall m :: m in order ==> m in ms
    ensures UsageKept(rows, WriteRows(rows, c, user, ms, order, now))
  {
    hide GetUsage;
    if order != [] {
      WritesKeepUsage(rows, c, user, ms, order[..|order| - 1], now);
    }
  }

  lemma {:induction false} AnswersKeepUsage(db: Db, c: Id, targets: seq<(string, Id)>, parent: Json, now: int)
    ensures UsageKept(db.rows, SaveAnswers(db, c, targets, parent, now).rows)
  {
    if targets != [] {
      var (model, id) := targets[|targets| - 1];
      AnswersKeepUsage(db, c, targets[..|targets| - 1], parent, now);
      UpsertKeepsUsage(SaveAnswers(db, c, targets[..|targets| - 1], parent, now), c, id, Placeholder(model, id, parent, now), now);
      hide Upsert;
    }
  }

  lemma LinksKeepUsage(db: Db, c: Id, t: Turn, now: int)
    ensures UsageKept(db.rows, SaveUser(db, c, t, now).rows)
    ensures UsageKept(db.rows, LinkGrandparent(db, c, t, now).db.rows)
    ensures UsageKept(db.rows, LinkAnswers(db, c, t, now).db.rows)
  {
    forall m, patch ensures UsageKept(db.rows, Upsert(db, c, m, patch, now).rows) {
      UpsertKeepsUsage(db, c, m, patch, now);
    }
    hide Upsert, AppendNew;
  }

  lemma TurnKeepsUsage(db: Db, c: Id, t: Turn, now: int)
    ensures UsageKept(db.rows, SaveTurn(db, c, t, now).db.rows)
  {
    var db1 := SaveUser(db, c, t, now);
    var db2 := LinkGrandparent(db1, c, t, now).db;
    var db3 := LinkAnswers(db2, c, t, now).db;
    LinksKeepUsage(db, c, t, now);
    LinksKeepUsage(db1, c, t, now);
    LinksKeepUsage(db2, c, t, now);
    AnswersKeepUsage(db3, c, Targets(t.answers), Get(t.user, Id), now);
    hide SaveUser, LinkGrandparent, LinkAnswers, SaveAnswers;
  }

  ghost predicate Continues(db: Db, steps: seq<Step>, db': Db)
    decreases |steps|
  {
    if steps == [] then db' == db
    else Possible(db, steps[0]) && Continues(Do(db, steps[0]), steps[1..], db')
  }

  /** Whatever clients send, rows stay and keep every usage key they ever had. */
  lemma {:induction false} RunsKeepUsage(db: Db, steps: seq<Step>, db': Db)
    requires Continues(db, steps, db')
    ensures UsageKept(db.rows, db'.rows)
    decreases |steps|
  {
    if steps != [] {
      match steps[0] {
        case FirstTurn(c, owner, t, order, now) => WritesKeepUsage(db.rows, c, owner, NewHistory(t, now).messages, order, now);
        case LaterTurn(c, t, now) => TurnKeepsUsage(db, c, t, now);
        case UpdateFields(c, m, patch, now) => UpsertKeepsUsage(db, c, m, patch, now);
      }
      RunsKeepUsage(Do(db, steps[0]), steps[1..], db');
      hide Possible, NewHistory, SaveTurn, Upsert, WriteRows;
    }
  }

  // ---------------------------------------------------------------- all columns

  /** If message `m` of the chat has a row, it is among `ms` and the row follows it. */
  ghost predicate RowFollows(rows: Rows, c: Id, ms: MessageMap, m: Id) {
    HasRow(rows, c, m) ==> m in ms && Follows(rows[Composite(c, m)], ms[m])
  }

  ghost predicate ColumnsOf(db: Db, c: Id)
    requires c in db.chats
  {
    |c| == UUID_LENGTH && forall m :: RowFollows(db.rows, c, MessagesOf(db, c), m)
  }

  /** A row carries the owner of its chat. */
  ghost predicate OwnersMatch(db: Db) {
    forall k :: k in db.rows && db.rows[k].chatId in db.chats ==> db.rows[k].userId == db.chats[db.rows[k].chatId].userId
  }

  ghost predicate ColumnsKept(db: Db) {
    TableOk(db.rows) && Owned(db) && OwnersMatch(db) && forall c :: c in db.chats ==> ColumnsOf(db, c)
  }

  lemma WrittenRowFollows(rows: Rows, c: Id, ms: MessageMap, m: Id, user: string, patch: Message, now: int)
    requires RowFollows(rows, c, ms, m)
    ensures var d := (if m in ms then ms[m] else map[]) + patch;
      RowFollows(UpsertRow(rows, c, m, user, d, now), c, ms[m := d], m)
  {
    hide Follows, UpsertRow, Composite, GetOr;
    WriteFollows(rows, c, m, user, if m in ms then ms[m] else map[], patch, now);
  }

  /** Rows of other messages and of other chats go on following theirs. */
  lemma UpsertRowsFollow(rows: Rows, c: Id, m: Id, user: string, d: Message, now: int, x: Id, ms: MessageMap, ms': MessageMap)
    requires TableOk(rows) && |c| == UUID_LENGTH && |x| == UUID_LENGTH
    requires forall y :: RowFollows(rows, x, ms, y)
    requires forall y :: y in ms && (x != c || y != m) ==> y in ms' && ms'[y] == ms[y]
    requires x == c ==> RowFollows(UpsertRow(rows, c, m, user, d, now), x, ms', m)
    ensures forall y :: RowFollows(UpsertRow(rows, c, m, user, d, now), x, ms', y)
  {
    UpsertRowFrame(rows, c, m, user, d, now);
    hide Follows, UpsertRow, TableOk, Composite;
    forall y ensures RowFollows(UpsertRow(rows, c, m, user, d, now), x, ms', y) {
      assert RowFollows(rows, x, ms, y);
    }
  }

  lemma UpsertKeepsColumnsOf(db: Db, c: Id, m: Id, patch: Message, now: int, x: Id)
    requires TableOk(db.rows) && c in db.chats && x in db.chats && ColumnsOf(db, c) && ColumnsOf(db, x)
    ensures ColumnsOf(Upsert(db, c, m, patch, now), x)
  {
    var d, db' := Stored(db.chats[c].history, m) + patch, Upsert(db, c, m, patch, now);
    UpsertMessages(db, c, m, patch, now);
    assert RowFollows(db.rows, c, MessagesOf(db, c), m);
    hide TableOk, RowFollows, UpsertRow;
    WrittenRowFollows(db.rows, c, MessagesOf(db, c), m, db.chats[c].userId, patch, now);
    UpsertRowsFollow(db.rows, c, m, db.chats[c].userId, d, now, x, MessagesOf(db, x), MessagesOf(db', x));
  }

  lemma UpsertKeepsMatch(db: Db, c: Id, m: Id, patch: Message, now: int)
    requires Owned(db) && OwnersMatch(db) && c in db.chats
    ensures Owned(Upsert(db, c, m, patch, now)) && OwnersMatch(Upsert(db, c, m, patch, now))
  {
    var d := Stored(db.chats[c].history, m) + patch;
    UpsertKeepsOwners(db.rows, c, m, db.chats[c].userId, d, now);
    hide UpsertRow;
  }

  lemma UpsertKeepsColumns(db: Db, c: Id, m: Id, patch: Message, now: int)
    requires ColumnsKept(db)
    ensures ColumnsKept(Upsert(db, c, m, patch, now))
  {
    if c in db.chats {
      var d, db' := Stored(db.chats[c].history, m) + patch, Upsert(db, c, m, patch, now);
      assert ColumnsOf(db, c);
      UpsertRowFrame(db.rows, c, m, db.chats[c].userId, d, now);
      UpsertKeepsMatch(db, c, m, patch, now);
      hide UpsertRow, TableOk, ColumnsOf, Owned, OwnersMatch;
      forall x | x in db.chats ensures ColumnsOf(db', x) {
        UpsertKeepsColumnsOf(db, c, m, patch, now, x);
      }
    }
  }

  /** The rows of a new chat are inserts. */
  lemma InsertedRowFollows(rows: Rows, c: Id, owner: string, ms: MessageMap, order: seq<Id>, now: int, m: Id)
    requires TableOk(rows) && |c| == UUID_LENGTH && Enumerates(order, ms) && forall x :: !HasRow(rows, c, x)
    ensures RowFollows(WriteRows(rows, c, owner, ms, order, now), c, ms, m)
  {
    WriteRowsEffect(rows, c, owner, ms, order, now);
    hide WriteRows, Follows, InsertedRow, TableOk, Composite, GetOr, Get;
    if m in ms && Truthy(Get(ms[m], Role)) {
      InsertFollows(c, owner, ms[m], now);
      TruthyRole(ms[m]);
    }
  }

  lemma TruthyRole(d: Message)
    requires Truthy(Get(d, Role))
    ensures GetOr(d, Role, Str("user")) != Null
  {
  }

  /** Writing them leaves the rows of other chats alone. */
  lemma FollowElsewhere(rows: Rows, c: Id, owner: string, ms: MessageMap, order: seq<Id>, now: int, x: Id, other: MessageMap, m: Id)
    requires TableOk(rows) && |c| == UUID_LENGTH && Enumerates(order, ms) && forall y :: !HasRow(rows, c, y)
    requires x != c && |x| == UUID_LENGTH && RowFollows(rows, x, other, m)
    ensures RowFollows(WriteRows(rows, c, owner, ms, order, now), x, other, m)
  {
    var rows' := WriteRows(rows, c, owner, ms, order, now);
    WriteRowsEffect(rows, c, owner, ms, order, now);
    hide WriteRows, Follows, InsertedRow, Composite;
    if HasRow(rows', x, m) {
      RowBelongsToChat(rows', x, m);
    }
  }

  lemma InsertKeepsColumns(db: Db, c: Id, owner: string, h: History, order: seq<Id>, now: int)
    requires ColumnsKept(db) && c !in db.chats && |c| == UUID_LENGTH && Enumerates(order, h.messages)
    ensures ColumnsKept(InsertChat(db, c, owner, h, order, now))
  {
    var db' := InsertChat(db, c, owner, h, order, now);
    NewChatHasNoRows(db, c);
    WriteRowsEffect(db.rows, c, owner, h.messages, order, now);
    hide WriteRows, RowFollows, TableOk;
    forall x | x in db'.chats ensures ColumnsOf(db', x) {
      assert x != c ==> ColumnsOf(db, x);
      forall m ensures RowFollows(db'.rows, x, MessagesOf(db', x), m) {
        if x == c {
          InsertedRowFollows(db.rows, c, owner, h.messages, order, now, m);
        } else {
          FollowElsewhere(db.rows, c, owner, h.messages, order, now, x, MessagesOf(db, x), m);
        }
      }
    }
  }

  lemma {:induction false} AnswersKeepColumns(db: Db, c: Id, targets: seq<(string, Id)>, parent: Json, now: int)
    requires ColumnsKept(db)
    ensures ColumnsKept(SaveAnswers(db, c, targets, parent, now))
  {
    hide ColumnsKept, Upsert;
    if targets != [] {
      var (model, id) := targets[|targets| - 1];
      AnswersKeepColumns(db, c, targets[..|targets| - 1], parent, now);
      UpsertKeepsColumns(SaveAnswers(db, c, targets[..|targets| - 1], parent, now), c, id, Placeholder(model, id, parent, now), now);
    }
  }

  lemma LinksKeepColumns(db: Db, c: Id, t: Turn, now: int)
    requires ColumnsKept(db)
    ensures ColumnsKept(SaveUser(db, c, t, now))
    ensures ColumnsKept(LinkGrandparent(db, c, t, now).db)
    ensures ColumnsKept(LinkAnswers(db, c, t, now).db)
  {
    hide Upsert, AppendNew, ColumnsKept;
    forall m, patch ensures ColumnsKept(Upsert(db, c, m, patch, now)) {
      UpsertKeepsColumns(db, c, m, patch, now);
    }
  }

  lemma TurnKeepsColumns(db: Db, c: Id, t: Turn, now: int)
    requires ColumnsKept(db)
    ensures ColumnsKept(SaveTurn(db, c, t, now).db)
  {
    hide ColumnsKept, SaveUser, LinkGrandparent, LinkAnswers, SaveAnswers;
    var db1 := SaveUser(db, c, t, now);
    LinksKeepColumns(db, c, t, now);
    var db2 := LinkGrandparent(db1, c, t, now).db;
    LinksKeepColumns(db1, c, t, now);
    var db3 := LinkAnswers(db2, c, t, now).db;
    LinksKeepColumns(db2, c, t, now);
    AnswersKeepColumns(db3, c, Targets(t.answers), Get(t.user, Id), now);
  }

  lemma {:induction false} ColumnsStayKept(db: Db, steps: seq<Step>, db': Db)
    requires ColumnsKept(db) && Continues(db, steps, db')
    requires forall s :: s in steps && s.FirstTurn? ==> |s.c| == UUID_LENGTH
    ensures ColumnsKept(db')
    decreases |steps|
  {
    hide ColumnsKept, NewHistory, SaveTurn, Upsert, WriteRows;
    if steps != [] {
      match steps[0] {
        case FirstTurn(c, owner, t, order, now) => InsertKeepsColumns(db, c, owner, NewHistory(t, now), order, now);
        case LaterTurn(c, t, now) => TurnKeepsColumns(db, c, t, now);
        case UpdateFields(c, m, patch, now) => UpsertKeepsColumns(db, c, m, patch, now);
      }
      ColumnsStayKept(Do(db, steps[0]), steps[1..], db');
    }
  }

  lemma EmptyColumns()
    ensures ColumnsKept(Db(map[], map[]))
  {
  }

  /** After any sequence of first turns, turns and partial upserts, whatever they send:
      each row belongs to a stored message of a chat with that owner; a column whose keys were never written has
      the insert default; and the columns say what the merged message says, except
      exactly while its role is null. */
  lemma RunsKeepColumns(steps: seq<Step>, db: Db, c: Id, m: Id)
    requires Continues(Db(map[], map[]), steps, db)
    requires forall s :: s in steps && s.FirstTurn? ==> |s.c| == UUID_LENGTH
    requires |c| == UUID_LENGTH && HasRow(db.rows, c, m)
    ensures c in db.chats && m in MessagesOf(db, c) && Follows(db.rows[Composite(c, m)], MessagesOf(db, c)[m])
    ensures db.rows[Composite(c, m)].userId == db.chats[c].userId
  {
    hide Continues, Follows;
    EmptyColumns();
    ColumnsStayKept(Db(map[], map[]), steps, db);
    RowBelongsToChat(db.rows, c, m);
    assert ColumnsOf(db, c);
    assert RowFollows(db.rows, c, MessagesOf(db, c), m);
  }

  /** A later change of `parentId` alone breaks the agreement for good: the row of a
      message stored under `old_` keeps that parent. */
  lemma ReparentingIsLost(db: Db, c: Id, m: Id, p: Json, now: int)
    requires Base(db) && c in db.chats && m in MessagesOf(db, c) && ParentIdSnake !in MessagesOf(db, c)[m]
    ensures var db' := Upsert(db, c, m, map[ParentId := p], now);
      && Get(MessagesOf(db', c)[m], ParentId) == p
      && HasRow(db'.rows, c, m)
      && db'.rows[Composite(c, m)].parentId == Get(MessagesOf(db, c)[m], ParentId)
      && (Base(db') <==> p == Get(MessagesOf(db, c)[m], ParentId))
  {
    var ms, patch := MessagesOf(db, c), map[ParentId := p];
    assert ChatAgrees(db, c) && MessageAgrees(db.rows, c, ms, m);
    assert Get(ms[m] + patch, ParentId) == p && Get(ms[m] + patch, ParentIdSnake) == Null;
    assert GetOr(ms[m] + patch, Role, Str("user")) == GetOr(ms[m], Role, Str("user"));
    UpsertAgreesExactly(db, c, m, patch, now);
    UpsertMessages(db, c, m, patch, now);
  }

  // ------------------------------------------------------------ where a turn ends

  lemma AnswersEndAtLast(db: Db, c: Id, targets: seq<(string, Id)>, parent: Json, now: int)
    requires c in db.chats && targets != []
    ensures var db' := SaveAnswers(db, c, targets, parent, now);
      c in db'.chats && db'.chats[c].history.currentId == Str(targets[|targets| - 1].1)
  {
    hide UpsertRow;
    SaveAnswersKeepsChats(db, c, targets[..|targets| - 1], parent, now);
  }

  lemma {:induction false} SaveAnswersKeepsChats(db: Db, c: Id, targets: seq<(string, Id)>, parent: Json, now: int)
    ensures SaveAnswers(db, c, targets, parent, now).chats.Keys == db.chats.Keys
  {
    if targets != [] {
      SaveAnswersKeepsChats(db, c, targets[..|targets| - 1], parent, now);
    }
  }

  /** The user message names a stored parent that does not list it yet. */
  ghost predicate ParentToExtend(ms: MessageMap, t: Turn) {
    exists g :: ParentOfSent(t, g) && Sent(ms, t, g) != map[] && Get(t.user, Id) !in Kids(Sent(ms, t, g))
  }

  ghost function CurrentWithoutAnswers(h: History, t: Turn): Json {
    if SentIds(t) == {} then h.currentId
    else if ParentToExtend(h.messages, t) then Get(t.user, ParentId)
    else Get(t.user, Id)
  }

  /** A turn with answers ends at the last of them.  Without answers it ends at the
      user message, except that linking a new message to a stored parent leaves
      `currentId` behind at that parent. */
  lemma TurnEndsAt(db: Db, c: Id, t: Turn, now: int)
    requires c in db.chats && SaveTurn(db, c, t, now).Saved?
    ensures var db' := SaveTurn(db, c, t, now).db;
      && c in db'.chats
      && var current := db'.chats[c].history.currentId;
      && (forall i :: FinalNamed(t.answers, i) ==> current == Str(t.answers[i].1.value))
      && ((forall i :: !Named(t.answers, i)) ==> current == CurrentWithoutAnswers(db.chats[c].history, t))
  {
    var db1 := SaveUser(db, c, t, now);
    var db2 := LinkGrandparent(db1, c, t, now).db;
    var db3 := LinkAnswers(db2, c, t, now).db;
    SentAndListed(db, c, t, now);
    AnnounceIs(db2, c, t, now);
    TargetsEnds(t.answers);
    UserCurrent(db, c, t, now);
    if Targets(t.answers) != [] {
      AnswersEndAtLast(db3, c, Targets(t.answers), Get(t.user, Id), now);
    } else {
      assert db3 == db2;
    }
    hide SaveUser, LinkGrandparent, LinkAnswers, SaveAnswers, Targets, CurrentWithoutAnswers;
  }

  lemma UserCurrent(db: Db, c: Id, t: Turn, now: int)
    requires c in db.chats && LinkGrandparent(SaveUser(db, c, t, now), c, t, now).Saved?
    ensures var db2 := LinkGrandparent(SaveUser(db, c, t, now), c, t, now).db;
      c in db2.chats && db2.chats[c].history.currentId == CurrentWithoutAnswers(db.chats[c].history, t)
  {
    var ms, db1 := MessagesOf(db, c), SaveUser(db, c, t, now);
    assert c in db1.chats && db1.chats[c].history.currentId == (if SentIds(t) == {} then db.chats[c].history.currentId else Get(t.user, Id)) by {
      hide UpsertRow;
    }
    forall x ensures StoredIn(db1, c, x) == Sent(ms, t, x) { SentStored(db, c, t, now, x); }
    hide SaveUser;
    LinkCurrent(db1, c, t, now);
    hide LinkGrandparent, Sent, StoredIn;
    if SentIds(t) != {} && Parent(t.user).Some? {
      assert ParentOfSent(t, Parent(t.user).value);
    }
  }

  lemma LinkCurrent(db: Db, c: Id, t: Turn, now: int)
    requires c in db.chats && LinkGrandparent(db, c, t, now).Saved?
    ensures var db', g := LinkGrandparent(db, c, t, now).db, Get(t.user, ParentId);
      && c in db'.chats
      && db'.chats[c].history.currentId ==
           if SentIds(t) != {} && g.Str? && g.s != "" && StoredIn(db, c, g.s) != map[] && Get(t.user, Id) !in Kids(StoredIn(db, c, g.s))
           then g else db.chats[c].history.currentId
  {
    hide UpsertRow;
  }

  // --------------------------------------------------------------- message lists

  /** The messages on the way from the root to `m`. */
  ghost function Branch(ms: MessageMap, m: Id): seq<Id>
    requires Acyclic(Parents(ms))
  {
    RootPath(Parents(ms), ms.Keys, m)
  }

  /** The branch holds the message and its ancestors that are present, nothing else. */
  lemma {:induction false} BranchExactly(par: map<Id, Id>, present: set<Id>, m: Id, x: Id)
    requires Acyclic(par) && par.Keys <= present
    ensures x in RootPath(par, present, m) <==> m in present && x in present && (x == m || Ancestor(par, x, m))
    decreases |Above(par, m)|
  {
    AncestorStep(par, x, m);
    if m in present && m in par {
      ParentHasFewerAbove(par, m);
      BranchExactly(par, present, par[m], x);
      AncestorStep(par, x, par[m]);
    }
  }

  function NextUp(mm: MessageMap, m: Id): Option<Id>
    requires m in mm
  {
    var parent := Parent(mm[m]);
    if parent.Some? && parent.value in mm then parent else None
  }

  /** Climbing from `start` has passed `ids` and stands at `current`. */
  ghost predicate Climbing(mm: MessageMap, start: Id, current: Option<Id>, ids: seq<Id>)
    requires Acyclic(Parents(mm))
  {
    && Branch(mm, start) == (if current.Some? then Branch(mm, current.value) else []) + Reverse(ids)
    && (current.Some? ==> forall x :: x in ids ==> Ancestor(Parents(mm), current.value, x))
  }

  lemma ClimbingStep(mm: MessageMap, start: Id, m: Id, ids: seq<Id>)
    requires Acyclic(Parents(mm)) && m in mm && Climbing(mm, start, Some(m), ids)
    ensures m !in ids && Climbing(mm, start, NextUp(mm, m), ids + [m])
  {
    BranchStep(mm, m);
    ReverseSnoc(ids, m);
    assert m !in ids by {
      assert !Ancestor(Parents(mm), m, m);
    }
    if NextUp(mm, m).Some? {
      ClimbOn(Parents(mm), ids + [m], m);
    }
  }

  /** `get_message_list`: climb from `messageId`, stop at a repeated message, reverse.
      On a forest nothing repeats and the result is exactly the branch. */
  method GetMessageList(mm: MessageMap, messageId: Id) returns (list: seq<Message>)
    requires forall m :: m in mm ==> Get(mm[m], Id) == Str(m)
    ensures Acyclic(Parents(mm)) ==>
              && |list| == |Branch(mm, messageId)|
              && (forall i :: 0 <= i < |list| ==> Branch(mm, messageId)[i] in mm && list[i] == mm[Branch(mm, messageId)[i]])
              && forall x :: x in Branch(mm, messageId) <==>
                   messageId in mm && x in mm && (x == messageId || Ancestor(Parents(mm), x, messageId))
    ensures NoDup(list)
  {
    hide Acyclic, Climbing, Branch;
    var climbed: seq<Message> := [];
    var visited: set<Id> := {};
    var current := if messageId in mm then Some(messageId) else None;
    ghost var ids: seq<Id> := [];
    ghost var forest := Acyclic(Parents(mm));
    if forest { ClimbingStart(mm, messageId); }
    while current.Some?
      invariant current.Some? ==> current.value in mm
      invariant visited <= mm.Keys && |climbed| == |ids| && NoDup(ids)
      invariant forall i :: 0 <= i < |ids| ==> ids[i] in mm && climbed[i] == mm[ids[i]]
      invariant forall x :: x in visited <==> x in ids
      invariant forest ==> Climbing(mm, messageId, current, ids)
      decreases mm.Keys - visited, current.Some?
    {
      var id := current.value;
      if forest { ClimbingStep(mm, messageId, id, ids); }
      if id in visited { break; }
      NoDupAppend(ids, id);
      visited := visited + {id};
      climbed := climbed + [mm[id]];
      ids := ids + [id];
      current := NextUp(mm, id);
    }
    list := ReverseAll(climbed);
    hide *;
    ListedMessages(mm, ids, climbed);
    if forest {
      ClimbingEnd(mm, messageId, ids);
      BranchHolds(mm, messageId);
    }
  }

  /** The messages collected, from the last to the first. */
  lemma ListedMessages(mm: MessageMap, ids: seq<Id>, climbed: seq<Message>)
    requires NoDup(ids) && |climbed| == |ids| && forall m :: m in mm ==> Get(mm[m], Id) == Str(m)
    requires forall i :: 0 <= i < |ids| ==> ids[i] in mm && climbed[i] == mm[ids[i]]
    ensures var list := ReverseAll(climbed);
      && NoDup(list) && |list| == |Reverse(ids)|
      && forall i :: 0 <= i < |list| ==> Reverse(ids)[i] in mm && list[i] == mm[Reverse(ids)[i]]
  {
    var list := ReverseAll(climbed);
    ReverseEach(ids);
    forall i, j | 0 <= i < j < |list| ensures list[i] != list[j] {
      assert Get(list[i], Id) == Str(ids[|ids| - 1 - i]) && Get(list[j], Id) == Str(ids[|ids| - 1 - j]);
    }
    hide Reverse, ReverseAll, Get;
  }

  lemma BranchHolds(mm: MessageMap, m: Id)
    requires Acyclic(Parents(mm))
    ensures forall x :: x in Branch(mm, m) <==> m in mm && x in mm && (x == m || Ancestor(Parents(mm), x, m))
  {
    forall x ensures x in Branch(mm, m) <==> m in mm && x in mm && (x == m || Ancestor(Parents(mm), x, m)) {
      BranchExactly(Parents(mm), mm.Keys, m, x);
    }
  }

  lemma ClimbingStart(mm: MessageMap, start: Id)
    requires Acyclic(Parents(mm))
    ensures Climbing(mm, start, if start in mm then Some(start) else None, [])
  {
    var none: seq<Id> := [];
    assert Reverse(none) == [];
  }

  lemma ClimbingEnd(mm: MessageMap, start: Id, ids: seq<Id>)
    requires Acyclic(Parents(mm)) && Climbing(mm, start, None, ids)
    ensures Branch(mm, start) == Reverse(ids)
  {
  }

  function Reverse<T>(s: seq<T>): (r: seq<T>)
    ensures |r| == |s|
  {
    if s == [] then [] else [s[|s| - 1]] + Reverse(s[..|s| - 1])
  }

  lemma {:induction false} ReverseEach<T>(s: seq<T>)
    ensures forall i :: 0 <= i < |s| ==> Reverse(s)[i] == s[|s| - 1 - i]
  {
    if s != [] {
      ReverseEach(s[..|s| - 1]);
    }
  }

  lemma ReverseSnoc<T>(s: seq<T>, x: T)
    ensures Reverse(s + [x]) == [x] + Reverse(s)
  {
    assert (s + [x])[..|s|] == s;
  }

  function ReverseAll<T>(s: seq<T>): (r: seq<T>)
    ensures |r| == |s| && forall i :: 0 <= i < |s| ==> r[i] == s[|s| - 1 - i]
  {
    seq(|s|, i requires 0 <= i < |s| => s[|s| - 1 - i])
  }

  lemma BranchStep(mm: MessageMap, m: Id)
    requires Acyclic(Parents(mm)) && m in mm
    ensures var p := Parent(mm[m]);
      Branch(mm, m) == (if p.Some? && p.value in mm then Branch(mm, p.value) else []) + [m]
  {
    var p := Parent(mm[m]);
    if p.Some? && p.value !in mm {
      assert RootPath(Parents(mm), mm.Keys, p.value) == [];
    }
  }

  lemma ClimbOn(par: map<Id, Id>, ids: seq<Id>, id: Id)
    requires id in par && forall x :: x in ids ==> x == id || Ancestor(par, id, x)
    ensures forall x :: x in ids ==> Ancestor(par, par[id], x)
  {
    ParentIsAncestor(par, id);
    forall x | x in ids ensures Ancestor(par, par[id], x) {
      if x != id {
        AncestorTransitive(par, par[id], id, x);
      }
    }
  }

  /** A reader walking history sees the same messages in the same order in both
      stores. */
  lemma SameBranches(db: Db, c: Id, mm: MessageMap, m: Id)
    requires Good(db) && c in db.chats && IsRebuild(db.rows, c, mm)
    ensures Acyclic(Parents(mm)) && Acyclic(Parents(MessagesOf(db, c)))
    ensures Branch(mm, m) == Branch(MessagesOf(db, c), m)
  {
    hide *;
    RebuildIsBlob(db, c, mm);
    GoodChat(db, c);
    StoredForest(db.chats[c].history);
    SameStoryParents(mm, MessagesOf(db, c));
    assert MessagesOf(db, c) == db.chats[c].history.messages by { StoredMessages(db, c); }
  }

  lemma StoredMessages(db: Db, c: Id)
    requires c in db.chats
    ensures MessagesOf(db, c) == db.chats[c].history.messages
  {
  }

  lemma StoredForest(h: History)
    requires ChatOk(h)
    ensures Acyclic(Parents(h.messages))
  {
  }

  lemma SameStoryParents(mm: MessageMap, ms: MessageMap)
    requires SameStory(mm, ms)
    ensures Parents(mm) == Parents(ms) && mm.Keys == ms.Keys
    ensures Acyclic(Parents(mm)) ==> forall m :: Branch(mm, m) == Branch(ms, m)
  {
    SameStoryKeys(mm, ms);
    forall x | x in mm ensures Parent(mm[x]) == Parent(ms[x]) {
      assert SameMessage(mm[x], ms[x]);
    }
    hide SameMessage, Acyclic;
  }
}
