/** The code that records a turn: a first turn builds a whole history, a later one is a
    sequence of upserts. */
module TurnOperations {
  import opened Collections
  import opened Json
  import opened Messages
  import opened ChatMessages
  import opened Chats
  import opened ChatTurn
  import opened TurnRecords

  method CollectTargets(t: Turn) returns (targets: seq<(string, Id)>)
    ensures targets == Targets(t.answers)
  {
    targets := [];
    for i := 0 to |t.answers|
      invariant targets == Targets(t.answers[..i])
    {
      var (model, id) := t.answers[i];
      assert t.answers[..i + 1][..i] == t.answers[..i];
      if id.Some? && id.value != "" {
        targets := targets + [(model, id.value)];
      }
    }
    assert t.answers[..|t.answers|] == t.answers;
  }

  /** The whole history of a first turn. */
  method BuildHistory(t: Turn, now: int) returns (history: History)
    ensures history == NewHistory(t, now)
  {
    var targets := CollectTargets(t);
    var messages: MessageMap := map[];
    var userId := Get(t.user, Id);
    if userId.Str? && userId.s != "" {
      messages := map[userId.s := t.user[ChildrenIds := List(AsStrs(Ids(targets)))]];
    }
    for i := 0 to |targets|
      invariant messages == AddPlaceholders(FirstMessages(t), targets[..i], userId, now)
    {
      var (model, id) := targets[i];
      assert targets[..i + 1][..i] == targets[..i];
      messages := messages[id := Placeholder(model, id, userId, now)];
    }
    assert targets[..|targets|] == targets;
    history := History(messages, if targets != [] then Str(targets[0].1) else userId);
  }

  /** A first turn: the history is built up front and inserted at once.  The chat then
      has what the client sent: the user message and an empty answer for each model. */
  method SaveNewChat(table: ChatTable, c: Id, owner: string, t: Turn, now: int)
    modifies table, table.messages
    ensures exists order :: Enumerates(order, NewHistory(t, now).messages) &&
              table.State() == InsertChat(old(table.State()), c, owner, NewHistory(t, now), order, now)
    ensures c in table.chats && HistoryRecorded(table.chats[c].history, t, now)
  {
    hide NewHistory, WriteRows, NoDup, HistoryRecorded;
    FirstTurnRecorded(t, now);
    var history := BuildHistory(t, now);
    table.InsertNewChat(c, owner, history, now);
    ghost var order :| Enumerates(order, history.messages) &&
      table.messages.rows == WriteRows(old(table.messages.rows), c, owner, history.messages, order, now);
    assert table.State() == InsertChat(old(table.State()), c, owner, history, order, now);
  }

  /** Save the user message and list it under its parent.  The result is false when
      an exception ends the turn. */
  method SaveUserMessage(table: ChatTable, c: Id, t: Turn, now: int) returns (ok: bool)
    modifies table, table.messages
    ensures LinkGrandparent(SaveUser(old(table.State()), c, t, now), c, t, now)
         == (if ok then Saved(table.State()) else Aborted(table.State()))
  {
    hide UpsertRow;
    var userId := Get(t.user, Id);
    if userId.Str? && userId.s != "" {
      table.UpsertMessage(c, userId.s, t.user, now);
      var grandparentId := Get(t.user, ParentId);
      if grandparentId.Str? && grandparentId.s != "" && c in table.chats {
        var grandparent := Stored(table.chats[c].history, grandparentId.s);
        if grandparent != map[] {
          if NotAList(grandparent) { return false; }
          var childIds := Kids(grandparent);
          if userId !in childIds {
            table.UpsertMessage(c, grandparentId.s, map[ChildrenIds := List(childIds + [userId])], now);
          }
        }
      }
    }
    ok := true;
  }

  /** List the answers under the stored user message. */
  method AnnounceTargets(table: ChatTable, c: Id, t: Turn, targets: seq<(string, Id)>, now: int) returns (ok: bool)
    requires targets == Targets(t.answers)
    modifies table, table.messages
    ensures LinkAnswers(old(table.State()), c, t, now)
         == (if ok then Saved(table.State()) else Aborted(table.State()))
  {
    hide UpsertRow;
    var userId := Get(t.user, Id);
    if userId.Str? && userId.s != "" && targets != [] && c in table.chats {
      var user := Stored(table.chats[c].history, userId.s);
      if user != map[] {
        if NotAList(user) { return false; }
        var childIds := Kids(user);
        for i := 0 to |targets|
          invariant childIds == AppendNew(Kids(user), Ids(targets)[..i])
        {
          assert Ids(targets)[..i + 1][..i] == Ids(targets)[..i];
          if Str(targets[i].1) !in childIds {
            childIds := childIds + [Str(targets[i].1)];
          }
        }
        assert Ids(targets)[..|targets|] == Ids(targets);
        table.UpsertMessage(c, userId.s, map[ChildrenIds := List(childIds)], now);
      }
    }
    ok := true;
  }

  /** A later turn: a sequence of upserts, each reading the chat afresh.  Unless it is
      aborted, the chat gains the user message and an empty answer for each model. */
  method SaveLaterTurn(table: ChatTable, c: Id, t: Turn, now: int) returns (ok: bool)
    modifies table, table.messages
    ensures SaveTurn(old(table.State()), c, t, now) == (if ok then Saved(table.State()) else Aborted(table.State()))
    ensures ok && c in old(table.chats) ==>
              && OnlyChat(old(table.State()), table.State(), c)
              && TurnRecorded(old(table.chats[c].history.messages), table.chats[c].history.messages, t, now)
  {
    hide LinkGrandparent, LinkAnswers, UpsertRow, TurnRecorded, OnlyChat, Targets, Placeholder;
    if c in table.chats && SaveTurn(table.State(), c, t, now).Saved? {
      LaterTurnRecorded(table.State(), c, t, now);
    }
    ok := SaveUserMessage(table, c, t, now);
    if !ok { return; }
    var targets := CollectTargets(t);
    ok := AnnounceTargets(table, c, t, targets, now);
    if !ok { return; }
    ghost var announced := table.State();
    for i := 0 to |targets|
      invariant table.State() == SaveAnswers(announced, c, targets[..i], Get(t.user, Id), now)
    {
      var (model, id) := targets[i];
      assert targets[..i + 1][..i] == targets[..i];
      table.UpsertMessage(c, id, Placeholder(model, id, Get(t.user, Id), now), now);
    }
    assert targets[..|targets|] == targets;
  }
}
