/** The `chat` table: each chat embeds its message history as JSON and mirrors
    every message it writes into the `chat_message` table. */
module Chats {
  import opened Collections
  import opened Json
  import opened Forest
  import opened Messages
  import opened ChatMessages

  datatype History = History(messages: MessageMap, currentId: Json)

  datatype Chat = Chat(userId: string, history: History)

  /** Both tables. */
  datatype Db = Db(chats: map<Id, Chat>, rows: Rows)

  // ------------------------------------------------------------- operations

  /** The stored message, `{}` when there is none. */
  function Stored(h: History, m: Id): Message {
    if m in h.messages then h.messages[m] else map[]
  }

  /** Merge a partial message into the history and make it current. */
  function UpsertHistory(h: History, m: Id, patch: Message): History {
    History(h.messages[m := Stored(h, m) + patch], Str(m))
  }

  /** `upsert_message_to_chat_by_id_and_message_id` */
  function Upsert(db: Db, c: Id, m: Id, patch: Message, now: int): Db {
    if c !in db.chats then db else
    var chat := db.chats[c];
    var h := UpsertHistory(chat.history, m, patch);
    Db(db.chats[c := chat.(history := h)], UpsertRow(db.rows, c, m, chat.userId, h.messages[m], now))
  }

  /** Write the messages of `order` that have a role, one after the other. */
  function WriteRows(rows: Rows, c: Id, user: string, ms: MessageMap, order: seq<Id>, now: int): Rows
    requires forall m :: m in order ==> m in ms
  {
    if order == [] then rows else
    var front, m := order[..|order| - 1], order[|order| - 1];
    var written := WriteRows(rows, c, user, ms, front, now);
    if Truthy(Get(ms[m], Role)) then UpsertRow(written, c, m, user, ms[m], now) else written
  }

  /** Writing rows one by one, in any order, adds exactly one row for every message
      with a role and changes no other row. */
  lemma {:induction false} WriteRowsEffect(rows: Rows, c: Id, user: string, ms: MessageMap, order: seq<Id>, now: int)
    requires TableOk(rows) && |c| == UUID_LENGTH && NoDup(order)
    requires forall m :: m in order ==> m in ms && !HasRow(rows, c, m)
    ensures var rows' := WriteRows(rows, c, user, ms, order, now);
      && TableOk(rows')
      && (forall k :: k in rows ==> k in rows' && rows'[k] == rows[k])
      && (forall m :: HasRow(rows', c, m) <==> HasRow(rows, c, m) || (m in order && Truthy(Get(ms[m], Role))))
      && (forall m :: m in order && Truthy(Get(ms[m], Role)) ==>
            rows'[Composite(c, m)] == InsertedRow(c, user, ms[m], now))
      && (forall k :: k in rows' && k !in rows ==> rows'[k].chatId == c && rows'[k].userId == user)
  {
    if order != [] {
      var front, last := order[..|order| - 1], order[|order| - 1];
      assert order == front + [last];
      assert last !in front;
      WriteRowsEffect(rows, c, user, ms, front, now);
      var written := WriteRows(rows, c, user, ms, front, now);
      if Truthy(Get(ms[last], Role)) {
        UpsertNewRow(written, c, last, user, ms[last], now);
      }
      UpsertRowFrame(written, c, last, user, ms[last], now);
      assert InsertedRow(c, user, ms[last], now).chatId == c && InsertedRow(c, user, ms[last], now).userId == user;
      forall m ensures Composite(c, m) == Composite(c, last) ==> m == last {
        CompositeInjective(c, m, c, last);
      }
      hide UpsertRow, InsertedRow, Composite, TableOk;
    }
  }

  lemma UpsertNewRow(rows: Rows, c: Id, m: Id, user: string, d: Message, now: int)
    requires !HasRow(rows, c, m) && Truthy(Get(d, Role))
    ensures UpsertRow(rows, c, m, user, d, now) == rows[Composite(c, m) := InsertedRow(c, user, d, now)]
  {
  }

  // -------------------------------------------------------------- agreement

  /** The alternative spelling of the parent key, if used at all, says the same. */
  predicate NoAlias(m: Message) {
    Or(Get(m, ParentIdSnake), Get(m, ParentId)) == Get(m, ParentId)
  }

  /** The row says what the message says. */
  ghost predicate RowAgrees(r: Row, d: Message) {
    NoAlias(d) && r.parentId == Get(d, ParentId) && r.role != Null && InStep(r, d)
  }

  ghost predicate MessageAgrees(rows: Rows, c: Id, ms: MessageMap, m: Id) {
    && (m in ms <==> HasRow(rows, c, m))
    && (m in ms ==> HasRow(rows, c, m) && RowAgrees(rows[Composite(c, m)], ms[m]))
  }

  /** Rows and blob tell the same story about chat `c`. */
  ghost predicate Agree(rows: Rows, c: Id, ms: MessageMap) {
    forall m :: MessageAgrees(rows, c, ms, m)
  }

  /** The upserts after which rows and blob still agree: the role is not null,
      `parent_id` does not contradict `parentId`, and a stored message without
      `parent_id` keeps its `parentId`. */
  predicate Mirrors(ms: MessageMap, m: Id, patch: Message) {
    var merged := (if m in ms then ms[m] else map[]) + patch;
    && (Role in patch ==> patch[Role] != Null)
    && NoAlias(merged)
    && (m in ms && ParentIdSnake !in merged ==> Get(merged, ParentId) == Get(ms[m], ParentId))
  }

  /** Only chat `c`'s history changed. */
  ghost predicate OnlyChat(db: Db, db': Db, c: Id) {
    && db'.chats.Keys == db.chats.Keys
    && forall x :: x in db.chats ==>
         db'.chats[x].userId == db.chats[x].userId && (x != c ==> db'.chats[x] == db.chats[x])
  }

  lemma WrittenRowAgrees(rows: Rows, c: Id, m: Id, user: string, old_: Message, patch: Message, now: int)
    requires if HasRow(rows, c, m) then RowAgrees(rows[Composite(c, m)], old_) else old_ == map[]
    ensures var d, r := old_ + patch, WrittenRow(rows, c, m, user, old_ + patch, now);
      && (r.role == Null <==> Role in patch && patch[Role] == Null)
      && (r.role != Null ==>
            (RowAgrees(r, d) <==>
             NoAlias(d) && (HasRow(rows, c, m) && ParentIdSnake !in d ==> Get(d, ParentId) == Get(old_, ParentId))))
  {
    MergeKeepsInStep(rows, c, m, user, old_, patch, now);
    ParentColumn(rows, c, m, user, old_ + patch, now);
    assert GetOr(old_, Role, Str("user")) != Null by {
      if HasRow(rows, c, m) {
        assert InStep(rows[Composite(c, m)], old_);
      }
    }
  }

  lemma UpsertedMessageAgrees(rows: Rows, c: Id, ms: MessageMap, m: Id, user: string, patch: Message, now: int)
    requires MessageAgrees(rows, c, ms, m)
    ensures var d := (if m in ms then ms[m] else map[]) + patch;
      MessageAgrees(UpsertRow(rows, c, m, user, d, now), c, ms[m := d], m) <==> Mirrors(ms, m, patch)
  {
    var old_: Message := if m in ms then ms[m] else map[];
    var d := old_ + patch;
    WrittenRowAgrees(rows, c, m, user, old_, patch, now);
    if Role in patch && patch[Role] == Null {
      assert GetOr(d, Role, Str("user")) == Null;
      if m in ms {
        assert !InStep(rows[Composite(c, m)], d);
      }
    }
  }

  /** A row write for one message leaves the agreement about all others alone. */
  lemma UpsertElsewhere(rows: Rows, c: Id, m: Id, user: string, d: Message, now: int, x: Id, ms: MessageMap, y: Id)
    requires TableOk(rows) && |c| == UUID_LENGTH && |x| == UUID_LENGTH && (x != c || y != m)
    requires MessageAgrees(rows, x, ms, y)
    ensures MessageAgrees(UpsertRow(rows, c, m, user, d, now), x, ms, y)
    ensures MessageAgrees(UpsertRow(rows, c, m, user, d, now), x, ms[m := d], y) || (x == c && y == m) || x != c
  {
    UpsertRowFrame(rows, c, m, user, d, now);
    CompositeInjective(x, y, c, m);
  }

  lemma UpsertKeepsOwners(rows: Rows, c: Id, m: Id, user: string, data: Message, now: int)
    ensures var rows' := UpsertRow(rows, c, m, user, data, now);
      forall k :: k in rows' ==>
        if k in rows then rows'[k].chatId == rows[k].chatId && rows'[k].userId == rows[k].userId
        else rows'[k].chatId == c && rows'[k].userId == user
  {
  }

  lemma UpsertChatAgrees(rows: Rows, c: Id, ms: MessageMap, m: Id, user: string, patch: Message, now: int)
    requires TableOk(rows) && |c| == UUID_LENGTH && Agree(rows, c, ms)
    ensures var d := (if m in ms then ms[m] else map[]) + patch;
      Agree(UpsertRow(rows, c, m, user, d, now), c, ms[m := d]) <==> Mirrors(ms, m, patch)
  {
    var d := (if m in ms then ms[m] else map[]) + patch;
    assert MessageAgrees(rows, c, ms, m);
    UpsertedMessageAgrees(rows, c, ms, m, user, patch, now);
    var rows', ms' := UpsertRow(rows, c, m, user, d, now), ms[m := d];
    forall y | y != m ensures MessageAgrees(rows', c, ms', y) {
      assert MessageAgrees(rows, c, ms, y);
      UpsertElsewhere(rows, c, m, user, d, now, c, ms, y);
    }
  }

  lemma UpsertOtherChat(rows: Rows, c: Id, m: Id, user: string, d: Message, now: int, x: Id, ms: MessageMap)
    requires TableOk(rows) && |c| == UUID_LENGTH && |x| == UUID_LENGTH && x != c && Agree(rows, x, ms)
    ensures Agree(UpsertRow(rows, c, m, user, d, now), x, ms)
  {
    var rows' := UpsertRow(rows, c, m, user, d, now);
    forall y ensures MessageAgrees(rows', x, ms, y) {
      assert MessageAgrees(rows, x, ms, y);
      UpsertElsewhere(rows, c, m, user, d, now, x, ms, y);
    }
  }

  /** Every row belongs to a known chat. */
  ghost predicate Owned(db: Db) {
    forall k :: k in db.rows ==> db.rows[k].chatId in db.chats
  }

  ghost predicate ChatAgrees(db: Db, c: Id) {
    c in db.chats && |c| == UUID_LENGTH && Agree(db.rows, c, db.chats[c].history.messages)
  }

  /** Both stores agree about every chat. */
  ghost predicate Base(db: Db) {
    TableOk(db.rows) && Owned(db) && forall c :: c in db.chats ==> ChatAgrees(db, c)
  }

  lemma UpsertHere(db: Db, c: Id, m: Id, patch: Message, now: int)
    requires TableOk(db.rows) && Owned(db) && ChatAgrees(db, c)
    ensures var db' := Upsert(db, c, m, patch, now);
      && TableOk(db'.rows) && Owned(db') && OnlyChat(db, db', c)
      && (ChatAgrees(db', c) <==> Mirrors(db.chats[c].history.messages, m, patch))
  {
    var ms := db.chats[c].history.messages;
    var d := Stored(db.chats[c].history, m) + patch;
    UpsertChatAgrees(db.rows, c, ms, m, db.chats[c].userId, patch, now);
    UpsertRowFrame(db.rows, c, m, db.chats[c].userId, d, now);
    UpsertKeepsOwners(db.rows, c, m, db.chats[c].userId, d, now);
  }

  lemma UpsertThere(db: Db, c: Id, m: Id, patch: Message, now: int, x: Id)
    requires TableOk(db.rows) && ChatAgrees(db, c) && ChatAgrees(db, x) && x != c
    ensures ChatAgrees(Upsert(db, c, m, patch, now), x)
  {
    var d := Stored(db.chats[c].history, m) + patch;
    UpsertOtherChat(db.rows, c, m, db.chats[c].userId, d, now, x, db.chats[x].history.messages);
  }

  /** After an upsert, rows and blob agree exactly when the patch mirrors. */
  lemma UpsertAgreesExactly(db: Db, c: Id, m: Id, patch: Message, now: int)
    requires Base(db) && c in db.chats
    ensures OnlyChat(db, Upsert(db, c, m, patch, now), c)
    ensures Base(Upsert(db, c, m, patch, now)) <==> Mirrors(db.chats[c].history.messages, m, patch)
  {
    var db' := Upsert(db, c, m, patch, now);
    UpsertHere(db, c, m, patch, now);
    forall x | x in db.chats && x != c ensures ChatAgrees(db', x) {
      UpsertThere(db, c, m, patch, now, x);
    }
  }

  // ---------------------------------------------------------------- new chats

  /** `order` lists the keys of `ms`, in whatever order the dictionary has them. */
  ghost predicate Enumerates(order: seq<Id>, ms: MessageMap) {
    NoDup(order) && forall m :: m in order <==> m in ms
  }

  /** `insert_new_chat` */
  function InsertChat(db: Db, c: Id, owner: string, h: History, order: seq<Id>, now: int): Db
    requires Enumerates(order, h.messages)
  {
    Db(db.chats[c := Chat(owner, h)], WriteRows(db.rows, c, owner, h.messages, order, now))
  }

  /** The rows written for a new chat agree with its messages one by one. */
  lemma InsertedMessageAgrees(rows: Rows, c: Id, owner: string, ms: MessageMap, order: seq<Id>, now: int, m: Id)
    requires TableOk(rows) && |c| == UUID_LENGTH && Enumerates(order, ms) && forall x :: !HasRow(rows, c, x)
    ensures MessageAgrees(WriteRows(rows, c, owner, ms, order, now), c, ms, m) <==>
            (m in ms ==> Truthy(Get(ms[m], Role)) && NoAlias(ms[m]))
  {
    WriteRowsEffect(rows, c, owner, ms, order, now);
    hide TableOk;
    var rows' := WriteRows(rows, c, owner, ms, order, now);
    if m in ms && Truthy(Get(ms[m], Role)) {
      assert rows'[Composite(c, m)] == InsertedRow(c, owner, ms[m], now);
    }
  }

  lemma NewChatHasNoRows(db: Db, c: Id)
    requires TableOk(db.rows) && Owned(db) && c !in db.chats && |c| == UUID_LENGTH
    ensures forall m :: !HasRow(db.rows, c, m)
  {
    forall m ensures !HasRow(db.rows, c, m) {
      if HasRow(db.rows, c, m) {
        RowBelongsToChat(db.rows, c, m);
        assert false;
      }
    }
  }

  lemma InsertKeepsOwners(db: Db, c: Id, owner: string, h: History, order: seq<Id>, now: int)
    requires Base(db) && c !in db.chats && |c| == UUID_LENGTH && Enumerates(order, h.messages)
    ensures var db' := InsertChat(db, c, owner, h, order, now); TableOk(db'.rows) && Owned(db')
  {
    NewChatHasNoRows(db, c);
    WriteRowsEffect(db.rows, c, owner, h.messages, order, now);
  }

  /** A new chat starts in agreement exactly when every message has a role and no
      contradicting `parent_id`: a message without a role gets no row. */
  lemma InsertAgreesExactly(db: Db, c: Id, owner: string, h: History, order: seq<Id>, now: int)
    requires Base(db) && c !in db.chats && |c| == UUID_LENGTH && Enumerates(order, h.messages)
    ensures Base(InsertChat(db, c, owner, h, order, now)) <==>
            forall m :: m in h.messages ==> Truthy(Get(h.messages[m], Role)) && NoAlias(h.messages[m])
  {
    var db', ms := InsertChat(db, c, owner, h, order, now), h.messages;
    NewChatHasNoRows(db, c);
    InsertKeepsOwners(db, c, owner, h, order, now);
    hide TableOk, Owned, MessageAgrees, NoAlias, WriteRows;
    forall x | x in db.chats ensures ChatAgrees(db', x) {
      assert ChatAgrees(db, x);
      WrittenElsewhere(db.rows, c, owner, ms, order, now, x, db.chats[x].history.messages);
    }
    forall m ensures MessageAgrees(db'.rows, c, ms, m) <==>
                     (m in ms ==> Truthy(Get(ms[m], Role)) && NoAlias(ms[m])) {
      InsertedMessageAgrees(db.rows, c, owner, ms, order, now, m);
    }
    assert ChatAgrees(db', c) <==> forall m :: MessageAgrees(db'.rows, c, ms, m);
  }

  lemma WrittenElsewhere(rows: Rows, c: Id, owner: string, ms: MessageMap, order: seq<Id>, now: int, x: Id, other: MessageMap)
    requires TableOk(rows) && |c| == UUID_LENGTH && |x| == UUID_LENGTH && x != c && NoDup(order)
    requires forall m :: m in order ==> m in ms && !HasRow(rows, c, m)
    requires Agree(rows, x, other)
    ensures Agree(WriteRows(rows, c, owner, ms, order, now), x, other)
  {
    var rows' := WriteRows(rows, c, owner, ms, order, now);
    WriteRowsEffect(rows, c, owner, ms, order, now);
    forall m ensures MessageAgrees(rows', x, other, m) {
      assert MessageAgrees(rows, x, other, m);
      if HasRow(rows', x, m) && !HasRow(rows, x, m) {
        RowBelongsToChat(rows', x, m);
      }
    }
  }

  // ------------------------------------------------------------------- reading

  /** The parents some row of chat `c` refers to although they have no row. */
  ghost predicate Gap(rows: Rows, c: Id, p: Id) {
    !HasRow(rows, c, p) && exists m :: HasRow(rows, c, m) && Pointer(rows[Composite(c, m)].parentId) == Some(p)
  }

  function Restrict(ms: MessageMap, ids: set<Id>): (r: MessageMap)
    ensures r.Keys == ms.Keys * ids
    ensures forall m :: m in r ==> r[m] == ms[m]
  {
    map m | m in ms && m in ids :: ms[m]
  }

  function HistoryOf(db: Db, c: Id): MessageMap {
    if c in db.chats then db.chats[c].history.messages else map[]
  }

  /** Rows of the given messages are written for chat `c`, in some order. */
  ghost predicate BackfilledBy(rows: Rows, rows': Rows, c: Id, user: string, ms: MessageMap, now: int) {
    exists order :: Enumerates(order, ms) && rows' == WriteRows(rows, c, user, ms, order, now)
  }

  ghost predicate HasRows(rows: Rows, c: Id) {
    exists m :: HasRow(rows, c, m)
  }

  /** The map `mm` built from rows, patched and backfilled from the history where
      parents are missing. */
  ghost predicate ReadFrom(db: Db, db': Db, c: Id, mm: MessageMap, result: Option<MessageMap>, now: int) {
    var missing := Restrict(HistoryOf(db, c), Unresolved(mm));
    && result == Some(mm + missing)
    && if c in db.chats then BackfilledBy(db.rows, db'.rows, c, db.chats[c].userId, missing, now)
       else db'.rows == db.rows
  }

  /** One `get_messages_map_by_chat_id`: from the rows, or the history if there are
      none. */
  ghost predicate Read(db: Db, db': Db, c: Id, result: Option<MessageMap>, now: int) {
    && db'.chats == db.chats
    && if HasRows(db.rows, c) then
         exists mm :: IsRebuild(db.rows, c, mm) && ReadFrom(db, db', c, mm, result, now)
       else if c in db.chats then
         && result == Some(HistoryOf(db, c))
         && BackfilledBy(db.rows, db'.rows, c, db.chats[c].userId, HistoryOf(db, c), now)
       else
         result == None && db' == db
  }

  class ChatTable {
    var chats: map<Id, Chat>
    const messages: ChatMessageTable

    constructor (messages: ChatMessageTable)
      ensures this.messages == messages && chats == map[]
    {
      this.messages := messages;
      chats := map[];
    }

    ghost function State(): Db
      reads this, messages
    {
      Db(chats, messages.rows)
    }

    /** Merge into the JSON history, then mirror the merged message. */
    method UpsertMessage(id: Id, messageId: Id, message: Message, now: int)
      modifies this, messages
      ensures State() == Upsert(old(State()), id, messageId, message, now)
    {
      if id in chats {
        var chat := chats[id];
        var history := chat.history;
        var stored := message;
        if messageId in history.messages {
          stored := history.messages[messageId] + message;
        }
        assert map[] + message == message;
        history := History(history.messages[messageId := stored], Str(messageId));
        messages.UpsertMessage(messageId, id, chat.userId, stored, now);
        chats := chats[id := chat.(history := history)];
      }
    }

    /** Mirror the given messages, skipping those without a role. */
    method Backfill(chatId: Id, userId: string, ms: MessageMap, now: int)
      modifies messages
      ensures BackfilledBy(old(messages.rows), messages.rows, chatId, userId, ms, now)
    {
      var todo := ms.Keys;
      ghost var order: seq<Id> := [];
      while todo != {}
        invariant todo <= ms.Keys && NoDup(order)
        invariant forall m :: m in order <==> m in ms && m !in todo
        invariant messages.rows == WriteRows(old(messages.rows), chatId, userId, ms, order, now)
        decreases todo
      {
        var m :| m in todo;
        NoDupAppend(order, m);
        assert (order + [m])[..|order|] == order;
        if Truthy(Get(ms[m], Role)) {
          messages.UpsertMessage(m, chatId, userId, ms[m], now);
        }
        order := order + [m];
        todo := todo - {m};
      }
    }

    method InsertNewChat(id: Id, userId: string, history: History, now: int)
      modifies this, messages
      ensures chats == old(chats)[id := Chat(userId, history)]
      ensures BackfilledBy(old(messages.rows), messages.rows, id, userId, history.messages, now)
    {
      chats := chats[id := Chat(userId, history)];
      Backfill(id, userId, history.messages, now);
    }

    /** Read the message map, healing gaps on the way. */
    method GetMessagesMap(id: Id, now: int) returns (result: Option<MessageMap>)
      requires TableOk(messages.rows) && |id| == UUID_LENGTH
      modifies messages
      ensures Read(old(State()), State(), id, result, now)
    {
      hide ReadsAs, IsRebuild, TableOk, BackfilledBy, Unresolved;
      var fast := messages.GetMessagesMap(id);
      if fast.Some? {
        var mm := fast.value;
        var unresolved := Unresolved(mm);
        if unresolved == {} {
          assert Restrict(HistoryOf(State(), id), unresolved) == map[];
          assert mm + map[] == mm;
          NothingToBackfill(messages.rows, id, now);
          return fast;
        }
        if id in chats {
          var missing := Restrict(chats[id].history.messages, unresolved);
          Backfill(id, chats[id].userId, missing, now);
          mm := mm + missing;
        } else {
          assert mm + map[] == mm;
        }
        return Some(mm);
      }
      if id !in chats { return None; }
      Backfill(id, chats[id].userId, chats[id].history.messages, now);
      return Some(chats[id].history.messages);
    }
  }

  lemma NothingToBackfill(rows: Rows, c: Id, now: int)
    ensures forall user :: BackfilledBy(rows, rows, c, user, map[], now)
  {
    forall user ensures BackfilledBy(rows, rows, c, user, map[], now) {
      var order: seq<Id> := [];
      assert Enumerates(order, map[]);
      assert rows == WriteRows(rows, c, user, map[], order, now);
    }
  }

  // ------------------------------------------------------------------- healing

  /** History messages without a row: what repeated reads work off. */
  ghost function Missing(db: Db, c: Id): set<Id> {
    set m | m in HistoryOf(db, c) && !HasRow(db.rows, c, m)
  }

  /** No gap is left that the history could fill. */
  ghost predicate Healed(db: Db, c: Id) {
    && (forall p :: p in HistoryOf(db, c) ==> !Gap(db.rows, c, p))
    && (!HasRows(db.rows, c) ==> HistoryOf(db, c) == map[])
  }

  ghost predicate Readable(db: Db, c: Id) {
    && TableOk(db.rows) && |c| == UUID_LENGTH && c in db.chats
    && forall m :: m in HistoryOf(db, c) ==> Truthy(Get(HistoryOf(db, c)[m], Role))
  }

  lemma UnresolvedIsGap(rows: Rows, c: Id, mm: MessageMap, p: Id)
    requires IsRebuild(rows, c, mm)
    ensures p in Unresolved(mm) <==> Gap(rows, c, p)
  {
    forall m | m in mm ensures Get(mm[m], ParentId) == rows[Composite(c, m)].parentId {
      assert FromRow(mm[m], rows[Composite(c, m)], m);
    }
  }

  /** `rows'` adds to `rows` one row for each message of `fill`, and nothing else. */
  ghost predicate Fills(rows: Rows, rows': Rows, c: Id, user: string, fill: MessageMap, now: int) {
    && TableOk(rows')
    && (forall k :: k in rows ==> k in rows' && rows'[k] == rows[k])
    && (forall m :: HasRow(rows', c, m) <==> HasRow(rows, c, m) || m in fill)
    && (forall m :: m in fill ==> HasRow(rows', c, m) && rows'[Composite(c, m)] == InsertedRow(c, user, fill[m], now))
  }

  lemma BackfillFills(rows: Rows, rows': Rows, c: Id, user: string, fill: MessageMap, now: int)
    requires TableOk(rows) && |c| == UUID_LENGTH && BackfilledBy(rows, rows', c, user, fill, now)
    requires forall m :: m in fill ==> Truthy(Get(fill[m], Role)) && !HasRow(rows, c, m)
    ensures Fills(rows, rows', c, user, fill, now)
    ensures fill == map[] ==> rows' == rows
  {
    var order :| Enumerates(order, fill) && rows' == WriteRows(rows, c, user, fill, order, now);
    WriteRowsEffect(rows, c, user, fill, order, now);
    if order != [] {
      assert order[0] in fill;
    }
  }

  /** What one read backfills. */
  ghost predicate FilledWith(db: Db, fill: MessageMap, c: Id) {
    && (forall m :: m in fill ==> m in HistoryOf(db, c) && fill[m] == HistoryOf(db, c)[m])
    && (forall m :: m in fill <==>
          m in HistoryOf(db, c) && !HasRow(db.rows, c, m) && (Gap(db.rows, c, m) || !HasRows(db.rows, c)))
  }

  /** One read writes a row for each history message that closes a gap, or for all
      of them when the chat has no rows; no existing row changes. */
  lemma ReadFills(db: Db, db': Db, c: Id, result: Option<MessageMap>, now: int) returns (fill: MessageMap)
    requires Readable(db, c) && Read(db, db', c, result, now)
    ensures db'.chats == db.chats && FilledWith(db, fill, c)
    ensures Fills(db.rows, db'.rows, c, db.chats[c].userId, fill, now)
    ensures fill == map[] ==> db' == db
    ensures HasRows(db.rows, c) ==>
              exists mm :: IsRebuild(db.rows, c, mm) && result == Some(mm + fill) && forall p :: p in Unresolved(mm) <==> Gap(db.rows, c, p)
  {
    var user, h := db.chats[c].userId, HistoryOf(db, c);
    if HasRows(db.rows, c) {
      var mm :| IsRebuild(db.rows, c, mm) && ReadFrom(db, db', c, mm, result, now);
      fill := Restrict(h, Unresolved(mm));
      forall p ensures p in Unresolved(mm) <==> Gap(db.rows, c, p) {
        UnresolvedIsGap(db.rows, c, mm, p);
      }
    } else {
      fill := h;
    }
    BackfillFills(db.rows, db'.rows, c, user, fill, now);
  }

  /** Unless the chat was healed, a read leaves strictly fewer messages without a
      row; a healed chat stays as it is. */
  lemma ReadHeals(db: Db, db': Db, c: Id, result: Option<MessageMap>, now: int)
    requires Readable(db, c) && Read(db, db', c, result, now)
    ensures Readable(db', c) && HistoryOf(db', c) == HistoryOf(db, c)
    ensures Healed(db, c) ==> db' == db
    ensures !Healed(db, c) ==> Missing(db', c) < Missing(db, c)
  {
    assert c in db.chats;
    hide *;
    var fill := ReadFills(db, db', c, result, now);
    FillKeepsReadable(db, db', c, fill, now);
    if Healed(db, c) {
      HealedFillEmpty(db, c, fill);
    } else {
      var p := UnhealedFills(db, c, fill);
      FillShrinks(db, db', c, fill, p, now);
    }
  }

  lemma FillKeepsReadable(db: Db, db': Db, c: Id, fill: MessageMap, now: int)
    requires Readable(db, c) && db'.chats == db.chats
    requires Fills(db.rows, db'.rows, c, db.chats[c].userId, fill, now)
    ensures Readable(db', c) && HistoryOf(db', c) == HistoryOf(db, c)
  {
    assert TableOk(db'.rows);
    hide Fills, TableOk;
    assert HistoryOf(db', c) == HistoryOf(db, c);
  }

  lemma UnhealedFills(db: Db, c: Id, fill: MessageMap) returns (p: Id)
    requires !Healed(db, c) && FilledWith(db, fill, c)
    ensures p in fill
  {
    hide Gap;
    if q :| q in HistoryOf(db, c) && Gap(db.rows, c, q) {
      p := q;
      assert !HasRow(db.rows, c, q) by { GapHasNoRow(db.rows, c, q); }
    } else {
      assert HistoryOf(db, c) != map[];
      p :| p in HistoryOf(db, c);
    }
  }

  lemma GapHasNoRow(rows: Rows, c: Id, p: Id)
    requires Gap(rows, c, p)
    ensures !HasRow(rows, c, p)
  {
  }

  lemma FillShrinks(db: Db, db': Db, c: Id, fill: MessageMap, p: Id, now: int)
    requires c in db.chats && db'.chats == db.chats && FilledWith(db, fill, c) && p in fill
    requires Fills(db.rows, db'.rows, c, db.chats[c].userId, fill, now)
    ensures Missing(db', c) < Missing(db, c)
  {
    hide TableOk, Gap;
    assert p in Missing(db, c) && p !in Missing(db', c);
    forall m | m in Missing(db', c) ensures m in Missing(db, c) {
      assert !HasRow(db'.rows, c, m);
    }
  }

  lemma HealedFillEmpty(db: Db, c: Id, fill: MessageMap)
    requires Healed(db, c) && FilledWith(db, fill, c)
    ensures fill == map[]
  {
    assert fill.Keys == {};
  }

  /** `db'` is what `n` successive reads of chat `c` can make of `db`. */
  ghost predicate AfterReads(db: Db, c: Id, now: int, n: nat, db': Db)
    decreases n
  {
    if n == 0 then db' == db
    else exists mid, result :: Read(db, mid, c, result, now) && AfterReads(mid, c, now, n - 1, db')
  }

  lemma NothingMissing(db: Db, c: Id)
    requires Missing(db, c) == {}
    ensures Healed(db, c)
  {
    forall p | p in HistoryOf(db, c) ensures HasRow(db.rows, c, p) {
      assert p !in Missing(db, c);
    }
  }

  /** As many reads as there are history messages without a row heal the chat for
      good. */
  lemma {:induction false} RepeatedReadsHeal(db: Db, c: Id, now: int, n: nat, db': Db)
    requires Readable(db, c) && AfterReads(db, c, now, n, db')
    requires n >= |Missing(db, c)| || Healed(db, c)
    ensures Healed(db', c) && Readable(db', c) && HistoryOf(db', c) == HistoryOf(db, c)
    decreases n
  {
    hide Read;
    if n == 0 {
      if !Healed(db, c) {
        NothingMissing(db, c);
      }
    } else {
      var mid, result :| Read(db, mid, c, result, now) && AfterReads(mid, c, now, n - 1, db');
      ReadHeals(db, mid, c, result, now);
      if !Healed(db, c) {
        SubsetSize(Missing(mid, c), Missing(db, c));
      }
      RepeatedReadsHeal(mid, c, now, n - 1, db');
    }
  }

  /** The parent pointer the row of a message gets. */
  function RowParent(d: Message): Option<Id> {
    Pointer(Or(Get(d, ParentIdSnake), Get(d, ParentId)))
  }

  /** Every parent named by a history message is in the history; every parent named
      by a row is in the history or has a row. */
  ghost predicate Supplied(db: Db, c: Id) {
    && (forall m :: m in HistoryOf(db, c) && RowParent(HistoryOf(db, c)[m]).Some? ==>
          RowParent(HistoryOf(db, c)[m]).value in HistoryOf(db, c))
    && (forall p :: Gap(db.rows, c, p) ==> p in HistoryOf(db, c))
  }

  lemma ReadKeepsSupplied(db: Db, db': Db, c: Id, result: Option<MessageMap>, now: int)
    requires Readable(db, c) && Read(db, db', c, result, now) && Supplied(db, c)
    ensures Supplied(db', c)
  {
    hide Read, IsRebuild, UpsertRow, TableOk;
    var fill := ReadFills(db, db', c, result, now);
    FillKeepsSupplied(db, db', c, fill, now);
  }

  lemma FillKeepsSupplied(db: Db, db': Db, c: Id, fill: MessageMap, now: int)
    requires Supplied(db, c) && c in db.chats && db'.chats == db.chats && FilledWith(db, fill, c)
    requires Fills(db.rows, db'.rows, c, db.chats[c].userId, fill, now)
    ensures Supplied(db', c)
  {
    hide TableOk;
    forall p | Gap(db'.rows, c, p) ensures p in HistoryOf(db, c) {
      var m :| HasRow(db'.rows, c, m) && Pointer(db'.rows[Composite(c, m)].parentId) == Some(p);
      if !HasRow(db.rows, c, m) {
        assert RowParent(HistoryOf(db, c)[m]) == Some(p);
      }
    }
  }

  lemma {:induction false} ReadsKeepSupplied(db: Db, c: Id, now: int, n: nat, db': Db)
    requires Readable(db, c) && AfterReads(db, c, now, n, db') && Supplied(db, c)
    ensures Supplied(db', c)
    decreases n
  {
    hide Read;
    if n > 0 {
      var mid, result :| Read(db, mid, c, result, now) && AfterReads(mid, c, now, n - 1, db');
      ReadHeals(db, mid, c, result, now);
      ReadKeepsSupplied(db, mid, c, result, now);
      ReadsKeepSupplied(mid, c, now, n - 1, db');
    }
  }

  /** If in addition every named parent can be supplied, the next read returns the
      rows' own map with every parent present, and changes nothing. */
  lemma HealedReadsConnected(db: Db, c: Id, now: int, n: nat, db': Db, db'': Db, result: Option<MessageMap>)
    requires Readable(db, c) && AfterReads(db, c, now, n, db') && Supplied(db, c)
    requires n >= |Missing(db, c)| && Read(db', db'', c, result, now)
    ensures db'' == db'
    ensures result.Some? && Unresolved(result.value) == {}
    ensures HistoryOf(db, c) != map[] ==> IsRebuild(db'.rows, c, result.value)
  {
    hide Read;
    RepeatedReadsHeal(db, c, now, n, db');
    ReadsKeepSupplied(db, c, now, n, db');
    ReadHeals(db', db'', c, result, now);
    HealedReadReturns(db', c, result, now);
  }

  lemma HealedHasNoGaps(db: Db, c: Id, p: Id)
    requires Healed(db, c) && Supplied(db, c)
    ensures !Gap(db.rows, c, p)
  {
    hide Gap;
  }

  /** What a read of a healed chat returns. */
  lemma HealedReadReturns(db: Db, c: Id, result: Option<MessageMap>, now: int)
    requires Readable(db, c) && Healed(db, c) && Supplied(db, c) && Read(db, db, c, result, now)
    ensures result.Some? && Unresolved(result.value) == {}
    ensures HistoryOf(db, c) != map[] ==> IsRebuild(db.rows, c, result.value)
  {
    assert c in db.chats;
    hide *;
    if HasRows(db.rows, c) {
      HealedRowsReturned(db, c, result, now);
    } else {
      HealedHistoryEmpty(db, c, result, now);
    }
  }

  lemma HealedRowsReturned(db: Db, c: Id, result: Option<MessageMap>, now: int)
    requires Readable(db, c) && Healed(db, c) && Supplied(db, c) && Read(db, db, c, result, now) && HasRows(db.rows, c)
    ensures result.Some? && Unresolved(result.value) == {} && IsRebuild(db.rows, c, result.value)
  {
    hide *;
    var fill := ReadFills(db, db, c, result, now);
    HealedFillEmpty(db, c, fill);
    var mm :| IsRebuild(db.rows, c, mm) && result == Some(mm + fill) && forall p :: p in Unresolved(mm) <==> Gap(db.rows, c, p);
    assert mm + fill == mm;
    forall p ensures p !in Unresolved(mm) { HealedHasNoGaps(db, c, p); }
  }

  lemma HealedHistoryEmpty(db: Db, c: Id, result: Option<MessageMap>, now: int)
    requires c in db.chats && Healed(db, c) && !HasRows(db.rows, c) && Read(db, db, c, result, now)
    ensures HistoryOf(db, c) == map[] && result == Some(map[]) && Unresolved(map[]) == {}
  {
    hide HistoryOf, HasRows, BackfilledBy;
  }
}
