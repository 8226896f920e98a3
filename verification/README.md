# Open WebUI backend: verified model

A Dafny model of the stateful core of the Open WebUI backend, with proofs of
the properties its operations promise together. Run
`dafny verify dfyconfig.toml` in this directory to check everything.

## What is modelled

- **Chats** (`Json`, `Messages`, `ChatMessages`, `Chats`, `ChatTurn`, `TurnRecords`,
  `TurnOperations`, `ChatRuns`). A chat keeps its messages twice: as a JSON history
  whose messages carry `parentId`, `childrenIds` and whose `currentId` names the
  message shown last, and as one `chat_message` row per message that stores only the
  parent pointer. `ChatMessages` is the row table and the fast path that rebuilds
  child lists; `Chats` is the dual write and the read that heals gaps; `ChatTurn` is
  how a turn is recorded, `TurnRecords` what it leaves in terms of what was sent, and
  `TurnOperations` its code; `ChatRuns` is about whole histories of both tables.
- **Running tasks** (`TaskRegistry`, `TaskSaves`, `TaskRuns`, `TaskDrain`,
  `TaskHistory`, `TaskOperations`). Two dictionaries in every process and a hash with
  item sets in Redis. `TaskRegistry` interleaves single Redis commands and pipelines
  of all processes; `TaskSaves` is what runs keep about saves; `TaskRuns` has what
  whole runs keep in Redis, exact conditions, and runs that go wrong; `TaskDrain` is
  about the local registries and about what is left at the end; `TaskHistory` tells
  every registry from the commands executed; `TaskOperations` has the operations as
  code, each run alone.
- **Automations** (`Automations`, `AutomationHistory`). A queue of due instants that workers claim in
  batches under row locks.
- **Trees edited in place** (`Forest`, `PromptHistory`, `Folders`). Parent-pointer
  graphs: splicing an entry out, recursive listing and deletion, moving.
- **Configuration** (`Config`). One nested dictionary addressed by dotted paths.
- **File search** (`Glob`), **access grants** (`AccessGrants`), **channel
  membership** (`Channels`). Translations and queries that must agree with a
  simpler meaning.

Tables are maps or sequences of records; ids, clock readings, rescheduled
instants and the order in which a dictionary or a query yields its elements are
parameters or left open. Every proof about an order covers all orders.
Methods follow the code statement by statement and are proved against a
function of the old state; the lemmas then state what that function promises.

Three things the code does are not what its comments promise, and the model
follows the code:

- `claim_due` says a row "can never be double-claimed". That holds exactly as long
  as users' writes are safe: a toggle or an update must not put an instant back
  into an active row that is not later than every instant claimed for it
  (`Automations.SafeExactly`; a run in `Automations.LateWriteClaimsTwice`).
- Counting a Redis item set and deleting it are two commands. A task saved in
  between is reported idle while it runs (`TaskRuns.SplitDeleteLosesTask`);
  exactly the deletes that find a set somebody has joined do harm
  (`TaskRuns.SplitRunExactly`).
- The read-only filter promises documents without write access but does not look
  at public write grants (`AccessGrants.WritableIsKept`,
  `AccessGrants.ReadOnlyExactly`).

## Model

| member | source | states |
|---|---|---|
| `ChatRuns.RunsAgree` | frontend-source/backend/open_webui/models/chats.py:551-589 | After any run of first turns, later turns and field updates from empty tables, every map the fast path may build from the rows tells the same story as the JSON history: exactly the same ids; for every message the same parent, role, content, output, model, files, sources, embeds, done, status history and error (column defaults where a key was never written), the same children and equally many of them, none twice |
| `ChatRuns.ReadsSeeBlob` | frontend-source/backend/open_webui/models/chats.py:491-542 | After any such run the healing read returns the JSON history message by message and changes nothing, even where a parent pointer dangles |
| `ChatRuns.ReachableGood` | frontend-source/backend/open_webui/models/chats.py:295-333 | Every reachable database is good: all rows belong to known chats, rows and history agree on every chat, and every history is a doubly linked acyclic forest whose `currentId` names a stored message |
| `ChatRuns.StepKeepsGood` | frontend-source/backend/open_webui/main.py:1807-1965 | Each step a client may take keeps the database good, and a later turn never stops half-way with an exception |
| `ChatRuns.StepRecorded` | frontend-source/backend/open_webui/main.py:1807-1965 | Every step of any run leaves in its chat what the client sent: a first or later turn its messages as in `TurnRecords`, a field update the merged patch and a new current message; other chats stay as they are, and an unknown chat gets nothing |
| `ChatRuns.RunsKeepUsage` | frontend-source/backend/open_webui/models/chat_messages.py:194-200 | Whatever clients send, links broken or not, no row disappears and no usage key of a row is ever dropped |
| `ChatRuns.RunsKeepColumns` | frontend-source/backend/open_webui/models/chat_messages.py:167-229 | After any sequence of first turns, turns and partial upserts, whatever they send, each row belongs to a stored message and carries the owner of its chat; a column whose keys were never written has the insert default, and all columns but the parent say what the merged message says, except exactly while the message holds a null role |
| `ChatRuns.RebuildIsBlob` | frontend-source/backend/open_webui/models/chat_messages.py:254-315 | In a good database the map rebuilt from rows equals the history on ids, parents, children sets and mirrored fields |
| `ChatRuns.SameBranches` | frontend-source/backend/open_webui/utils/misc.py:71-108 | The path from the root to any message is the same in the rebuilt map and in the history |
| `ChatRuns.GetMessageList` | frontend-source/backend/open_webui/utils/misc.py:71-108 | On a forest the climb returns, in order from the root, exactly the branch: the message and those of its ancestors that are in the map; on any map, cyclic ones included, it terminates and returns no message twice |
| `ChatRuns.BranchExactly` | frontend-source/backend/open_webui/utils/misc.py:71-108 | A message is on the path of another if and only if both are present and it is that message or an ancestor of it |
| `ChatRuns.ReparentingIsLost` | frontend-source/backend/open_webui/models/chat_messages.py:171-174 | A field that changes `parentId` alone reaches the history but never the row: the stores still agree exactly if the parent is what it was |
| `ChatRuns.TurnEndsAt` | frontend-source/backend/open_webui/main.py:1892-1965 | Where `currentId` ends: the answer of the last model with an id; without answers the user message, except that linking a new message under a stored parent leaves `currentId` at that parent |
| `ChatRuns.FieldsKeepGood` | frontend-source/backend/open_webui/models/chats.py:566-576 | A patch that repeats identity and links keeps forest, agreement and a stored `currentId` |
| `ChatTurn.TurnKeepsForest` | frontend-source/backend/open_webui/main.py:1892-1965 | A later turn is saved completely, keeps the chat a doubly linked forest with a stored `currentId`, adds exactly its own ids, leaves other chats alone and keeps rows and history in agreement, across the intermediate upserts. The user message is new, or sent again under the same parent with its old children, where answers of the turn may have been dropped or listed ahead of time; an answer is new, or a stored childless one that is continued |
| `ChatTurn.TurnForestExactly` | frontend-source/backend/open_webui/main.py:1892-1965 | For a turn whose ids are where they belong, the user message new or sent again: the chat is a forest afterwards if and only if the lists were right, that is, the user message lists the children it had, answers of the turn aside, and otherwise only answers, none twice, and every answer that is continued is childless |
| `ChatTurn.StaleListUnlists` | frontend-source/backend/open_webui/main.py:1894-1899 | The input at which it is not: a stored user message sent again, as from a stale tab, with a list that lacks a stored child which is no answer of the turn; the child stays stored under its parent and is listed nowhere |
| `ChatTurn.NewUserForestExactly` | frontend-source/backend/open_webui/main.py:1892-1947 | With a new user message the turn keeps the forest if and only if that message lists nothing but answers of the turn, none twice: any other listed child stays listed and is never stored |
| `ChatTurn.ClientTurnsOk` | frontend-source/src/lib/components/chat/Chat.svelte:2209-2216 | What the web client sends keeps these rules: a new message that already lists its answers, a stored one with new answers at the end of its list, a stored one whose answer is continued |
| `ChatTurn.TurnExtends` | frontend-source/backend/open_webui/main.py:1892-1965 | Whatever a turn does, completed or aborted, every message but its answers keeps its parent and the children it listed, those of the user message being the ones just sent |
| `TurnRecords.LaterTurnRecorded` | frontend-source/backend/open_webui/main.py:1892-1965 | Every later turn that is not aborted, in terms of what was sent: each model with a non-empty id has its answer stored under that id (the last model, if two share it), with the user message as parent, role assistant, empty content, not done, no children, that model and the time; the user message is stored as sent and lists what it listed and exactly the answers besides, new ones in the order of the models; its parent lists it; no other id is added, and no other message, other field or other chat changes |
| `TurnRecords.FirstTurnRecorded` | frontend-source/backend/open_webui/main.py:1807-1843 | The same for a first turn: the user message as sent with exactly the answers as children in the order of the models, each answer empty and unfinished under it, no other id, and `currentId` at the first answer, or at the user message if there is none |
| `TurnRecords.AbortedExactly` | frontend-source/backend/open_webui/main.py:1905-1947 | A later turn is aborted if and only if the user message, or its stored parent, has something else than a list under `childrenIds` where an id must be appended; what is left is what the turn without answers leaves |
| `TurnRecords.TargetsByRank` | frontend-source/backend/open_webui/main.py:1813-1813 | The list of answers has one entry per model with a non-empty id, behind those of earlier models, and no other |
| `ChatTurn.NewHistoryForest` | frontend-source/backend/open_webui/main.py:1807-1855 | The history of a new chat is a doubly linked forest of exactly the turn's messages, with a stored `currentId` |
| `ChatTurn.NewChatAgrees` | frontend-source/backend/open_webui/main.py:1807-1855 | A new chat starts with rows and history in agreement if and only if its user message, if any, has a role and no contradicting `parent_id` |
| `ChatTurn.UserSaved` | frontend-source/backend/open_webui/main.py:1892-1911 | After the user message is stored and listed under its parent, new or sent again, nothing is wrong in the forest but answers the message has dropped from its list or lists ahead of time |
| `ChatTurn.NewUserStored` | frontend-source/backend/open_webui/main.py:1894-1899 | Storing a new message leaves exactly two things open: its parent does not list it, and it may list answers that are not stored |
| `ChatTurn.ResentUserStored` | frontend-source/backend/open_webui/main.py:1894-1899 | Storing a message again leaves open only the answers it has dropped or lists ahead of time |
| `ChatTurn.NewUserUpsert` | frontend-source/backend/open_webui/main.py:1901-1911 | The parent of a new user message is extended by exactly that child, which it did not list before |
| `ChatTurn.StoredUserLinked` | frontend-source/backend/open_webui/main.py:1901-1911 | For a user message that is already stored and linked the grandparent step writes nothing |
| `ChatTurn.AnnounceAnswers` | frontend-source/backend/open_webui/main.py:1935-1947 | Listing the answers, some of them listed before, some stored already, some dropped from the list, leaves every other link right; only the user message is ahead, by exactly the answers not stored |
| `ChatTurn.AnswersSaved` | frontend-source/backend/open_webui/main.py:1931-1965 | Announcing the answers and then storing the placeholders completes the forest with exactly the new ids added |
| `ChatTurn.AppendNewEffect` | frontend-source/backend/open_webui/main.py:1939-1942 | The list stays free of duplicates and ends up with exactly the old children and the answers |
| `ChatTurn.PlaceholdersForest` | frontend-source/backend/open_webui/main.py:1949-1965 | Storing announced placeholders one by one, new or over a stored answer, keeps shapes, acyclicity and links right at every point |
| `ChatTurn.FirstMessagesLinked` | frontend-source/backend/open_webui/main.py:1815-1817 | The user message of a new chat lists exactly the answers to come and nothing else |
| `ChatTurn.TurnCurrent` | frontend-source/backend/open_webui/models/chats.py:576-578 | Whatever the turn, and even if it aborts, `currentId` names a stored message afterwards |
| `TurnOperations.CollectTargets` | frontend-source/backend/open_webui/main.py:1813-1813 | Collects the models whose message id is truthy, in order |
| `TurnOperations.BuildHistory` | frontend-source/backend/open_webui/main.py:1812-1843 | The loop builds exactly the history of `NewHistory` |
| `TurnOperations.SaveNewChat` | frontend-source/backend/open_webui/main.py:1807-1855 | The code of a first turn inserts exactly the history of `NewHistory`, with its rows written in some order of the dictionary; the chat then has the user message and an empty answer for each model with an id, as in `TurnRecords.FirstTurnRecorded` |
| `TurnOperations.SaveUserMessage` | frontend-source/backend/open_webui/main.py:1892-1911 | The code stores the user message, lists it under a stored parent, and reports an exception for a child list that is no list |
| `TurnOperations.AnnounceTargets` | frontend-source/backend/open_webui/main.py:1931-1947 | The code lists the answers under the stored user message in one upsert |
| `TurnOperations.SaveLaterTurn` | frontend-source/backend/open_webui/main.py:1892-1965 | The whole sequence of upserts of a later turn computes `SaveTurn`, aborts included; a known chat then has the user message and an empty answer for each model with an id, as in `TurnRecords.LaterTurnRecorded` |
| `Chats.UpsertAgreesExactly` | frontend-source/backend/open_webui/models/chats.py:551-589 | An upsert changes only its chat's history, and afterwards rows and histories agree if and only if the patch mirrors: no null role, no contradicting `parent_id`, no change of a stored `parentId` |
| `Chats.UpsertedMessageAgrees` | frontend-source/backend/open_webui/models/chats.py:566-589 | Row and merged message agree about every mirrored column if and only if the patch mirrors |
| `Chats.InsertAgreesExactly` | frontend-source/backend/open_webui/models/chats.py:319-331 | A new chat starts in agreement if and only if every message has a role and no contradicting `parent_id`; a message without a role gets no row |
| `Chats.WriteRowsEffect` | frontend-source/backend/open_webui/models/chats.py:474-489 | Writing rows in any order adds exactly one row, with insert defaults, per message with a role, and changes no other row |
| `Chats.UnresolvedIsGap` | frontend-source/backend/open_webui/models/chats.py:462-472 | The unresolved parents of a rebuilt map are exactly the parents named by some row that have no row themselves |
| `Chats.ReadFills` | frontend-source/backend/open_webui/models/chats.py:491-542 | One read writes a row for exactly the history messages that close a gap, or for all when the chat has no rows, and changes no existing row; the result is the rebuilt map with those messages added |
| `Chats.ReadHeals` | frontend-source/backend/open_webui/models/chats.py:491-542 | A read of a healed chat changes nothing; otherwise strictly fewer history messages are without a row afterwards |
| `Chats.RepeatedReadsHeal` | frontend-source/backend/open_webui/models/chats.py:491-542 | After as many reads as there are history messages without a row, no gap remains that the history could fill, and it stays so |
| `Chats.HealedReadsConnected` | frontend-source/backend/open_webui/models/chats.py:491-542 | If the history also holds every parent it or a row names, the read after that returns a map in which every parent is present, built from the rows, and changes nothing |
| `Chats.ReadsKeepSupplied` | frontend-source/backend/open_webui/models/chats.py:491-542 | Reads keep the property that every named parent can be supplied |
| `Chats.ChatTable.UpsertMessage` | frontend-source/backend/open_webui/models/chats.py:551-589 | The code merges into the history, moves `currentId`, and mirrors the merged message: the new state of both tables is `Upsert`, unchanged for an unknown chat |
| `Chats.ChatTable.Backfill` | frontend-source/backend/open_webui/models/chats.py:474-489 | Rows of exactly the given messages with a role are written, one after the other in some order |
| `Chats.ChatTable.InsertNewChat` | frontend-source/backend/open_webui/models/chats.py:295-333 | The chat is stored and its messages mirrored in some order |
| `Chats.ChatTable.GetMessagesMap` | frontend-source/backend/open_webui/models/chats.py:491-542 | The code performs one `Read`: rows first, gaps filled from the history and backfilled, the history if there are no rows, nothing for an unknown chat without rows |
| `ChatMessages.ChatMessageTable.GetMessagesMap` | frontend-source/backend/open_webui/models/chat_messages.py:254-315 | Nothing exactly if the chat has no row; otherwise one message per row, id prefix stripped, every column read back under its own key (usage also under `info`, creation time as timestamp, a missing content as empty), and child lists without duplicates that contain m exactly if m's parent pointer names the lister |
| `ChatMessages.ChatMessageTable.RebuildAll` | frontend-source/backend/open_webui/models/chat_messages.py:282-299 | One dictionary per row of the chat, each filed under its own id |
| `ChatMessages.ChatMessageTable.RebuildMessage` | frontend-source/backend/open_webui/models/chat_messages.py:284-297 | Every non-null column comes back under its own JSON key, told column by column; content is never missing, usage is mirrored under `info`, and nothing else is there |
| `ChatMessages.ChatMessageTable.SelectByChat` | frontend-source/backend/open_webui/models/chat_messages.py:268-269 | Every row of the chat once, in any order |
| `ChatMessages.LinkChildren` | frontend-source/backend/open_webui/models/chat_messages.py:301-310 | One walk over the messages in any order makes child lists the exact inverse of parent pointers, without duplicates and without touching other keys |
| `ChatMessages.FillChildren` | frontend-source/backend/open_webui/models/chat_messages.py:312-315 | Leaves get an empty list; links stay right |
| `ChatMessages.ListChildKeeps` | frontend-source/backend/open_webui/models/chat_messages.py:303-310 | After each step of the walk the lists name exactly the children seen so far |
| `ChatMessages.ChatMessageTable.UpsertMessage` | frontend-source/backend/open_webui/models/chat_messages.py:151-229 | The assignment of fields one by one yields `UpsertRow`: insert with defaults, update of the keys present, nothing when the role would become null; the row's usage is the old one overlaid with the usage the message carries |
| `ChatMessages.ChatMessageTable.AssignText` | frontend-source/backend/open_webui/models/chat_messages.py:171-182 | Role, parent, content, output and model change exactly if their key is present |
| `ChatMessages.ChatMessageTable.AssignStatus` | frontend-source/backend/open_webui/models/chat_messages.py:183-194 | Files, sources, embeds, done, status and error change exactly if their key is present |
| `ChatMessages.UpsertRowFrame` | frontend-source/backend/open_webui/models/chat_messages.py:164-229 | An upsert keeps the table well-formed, loses no row and leaves the row of every other message of every chat as it was |
| `ChatMessages.MergeKeepsInStep` | frontend-source/backend/open_webui/models/chat_messages.py:167-229 | One accepted write: over a row in step with the message so far, writing the merged message leaves each mirrored column equal to the merged value where the key is present and to the insert default otherwise, and keeps every usage key; sequences of writes are `ChatRuns.RunsKeepColumns` |
| `ChatMessages.WriteFollows` | frontend-source/backend/open_webui/models/chat_messages.py:151-229 | Any write, accepted or refused: a row exists afterwards if and only if one existed or the merged role is not null, and it follows the merged message: in step exactly unless the role is null, in default where no key was ever written |
| `ChatMessages.WrittenUsage` | frontend-source/backend/open_webui/models/chat_messages.py:45-48 | Usage is taken from the message or, failing that, from its `info`: the written row has every key of it, `input_tokens` from the first truthy one of four spellings, `output_tokens` likewise, `total_tokens` as given or as the sum, and otherwise the keys it had; without usage it stays as it was |
| `ChatMessages.WrittenBookkeeping` | frontend-source/backend/open_webui/models/chat_messages.py:194-224 | New usage keys win and old ones stay where there is no new one; chat, owner and creation time are set once and never change |
| `ChatMessages.NormalizeIdempotent` | frontend-source/backend/open_webui/utils/response.py:11-49 | Where the token keys hold numbers, whatever else is in the usage, normalizing is done after the first time and keeps every other key, so usage that is stored, read back and written again stays as it is |
| `ChatMessages.ParentColumn` | frontend-source/backend/open_webui/models/chat_messages.py:173-174 | Which value the parent column takes, and the exact condition under which it equals the message's `parentId` |
| `ChatMessages.StripComposite` | frontend-source/backend/open_webui/models/chat_messages.py:274-283 | Stripping the prefix recovers the message id, whatever characters it has |
| `ChatMessages.CompositeInjective` | frontend-source/backend/open_webui/models/chat_messages.py:164-165 | Composite ids of equally long chat ids never collide |
| `ChatMessages.CompositeCollision` | frontend-source/backend/open_webui/models/chat_messages.py:164-165 | With chat ids of different length they can: a concrete pair |
| `Messages.KidsCount` | frontend-source/backend/open_webui/models/chat_messages.py:301-310 | A linked, duplicate-free child list is as long as the number of messages naming that parent |
| `Messages.ChildListsTotal` | frontend-source/backend/open_webui/models/chat_messages.py:301-315 | The lengths of all child lists add up to the number of messages whose parent is present |
| `TaskRuns.SetsAlwaysInHash` | frontend-source/backend/open_webui/tasks.py:49-67 | In every interleaving of single Redis commands and pipelines in which tasks are stopped only after they were saved, every id in an item set is in the task hash under that item |
| `TaskRuns.AtomicRunsAgree` | frontend-source/backend/open_webui/tasks.py:57-67 | If `scard` and `delete` are one step, an item set is exactly the ids the hash files under the item |
| `TaskRuns.SplitDeleteLosesTask` | frontend-source/backend/open_webui/tasks.py:63-65 | As two commands they are not: a run, keeping all other rules, after which a saved and unfinished task is missing from its item's set |
| `TaskRuns.EarlyStopLeavesMember` | frontend-source/backend/open_webui/tasks.py:145-163 | A run in which a stop overtakes the save: the id stays in its item set without being in the hash |
| `TaskRegistry.DeleteKeepsEqual` | frontend-source/backend/open_webui/tasks.py:63-65 | Deleting a set keeps hash and sets equal if and only if the set is empty by then |
| `TaskRuns.SplitRunExactly` | frontend-source/backend/open_webui/tasks.py:57-67 | Over a whole run with separate count and delete: hash and sets say the same after every step if and only if every delete finds its set empty |
| `TaskHistory.HashIsLastWord` | frontend-source/backend/open_webui/tasks.py:49-67 | In any run, whatever the timing, the hash holds exactly the tasks whose last command was a save, not a clean-up, under the item of that save or an empty one |
| `TaskHistory.SetIsLastWord` | frontend-source/backend/open_webui/tasks.py:49-67 | In any run an item set holds exactly the tasks whose save under that item was followed by neither their clean-up under it nor a delete of the set |
| `TaskHistory.TasksAreLastWord` | frontend-source/backend/open_webui/tasks.py:88-179 | In any run `tasks` of a process holds exactly the tasks it created that were neither stopped there nor cleaned up since |
| `TaskHistory.ListIsHistory` | frontend-source/backend/open_webui/tasks.py:88-124 | In any run the list of an item is exactly the tasks the process created for it, in that order, less those cleaned up; without a proper item nothing is ever cleaned up |
| `TaskRuns.LateSaveLeavesEntry` | frontend-source/backend/open_webui/tasks.py:104-124 | A run in which a task finishes before it was saved: its entry stays in hash and set although nothing is pending any more |
| `TaskRuns.ForgetExact` | frontend-source/backend/open_webui/tasks.py:57-67 | The clean-up pipeline keeps every set inside the hash if and only if it names the item under which the hash files the task |
| `TaskRuns.InclusionExactly` | frontend-source/backend/open_webui/tasks.py:49-67 | Over a whole run, whatever the timing of saves, stops and ends: every set stays inside the hash after every step if and only if every clean-up names the item of each set that holds its task at that moment |
| `TaskDrain.LiveTasksListed` | frontend-source/backend/open_webui/tasks.py:104-124 | In every reachable state, whatever the timing of saves and stops, each live task of a process is listed under its item, and lists are never empty and hold no task twice |
| `TaskDrain.Drained` | frontend-source/backend/open_webui/tasks.py:88-124 | Once all tasks have finished and nothing is pending, in any run, `tasks` is empty and every `item_tasks` entry of a non-empty item is gone; the entry of a missing or empty item lists exactly all tasks ever created under it; Redis is empty too if tasks finished only after they were saved, however early they were stopped |
| `TaskSaves.SavesRun` | frontend-source/backend/open_webui/tasks.py:49-54 | In every run each pending save is the only one of its task, and whatever Redis holds about a task was saved under the item it was created for |
| `TaskDrain.StepKeepsLocal` | frontend-source/backend/open_webui/tasks.py:88-124 | Every step keeps what a local registry holds about a task tied to whether the task is alive |
| `TaskDrain.StaysOnItsWay` | frontend-source/backend/open_webui/tasks.py:88-101 | A done-callback that has started stays pending through every step but its own last one |
| `TaskRegistry.CleanKeepsLists` | frontend-source/backend/open_webui/tasks.py:95-101 | Local clean-up takes exactly one task out of one list and keeps lists non-empty and duplicate-free |
| `TaskRegistry.CleanIdempotent` | frontend-source/backend/open_webui/tasks.py:95-101 | Cleaning up twice is cleaning up once |
| `TaskRegistry.CleanCommutes` | frontend-source/backend/open_webui/tasks.py:95-101 | Two clean-ups commute, and a clean-up commutes with a stop |
| `TaskOperations.RedisServer.Save` | frontend-source/backend/open_webui/tasks.py:49-54 | Hash entry and set membership of `SaveTask`, and nothing else |
| `TaskOperations.RedisServer.Cleanup` | frontend-source/backend/open_webui/tasks.py:57-67 | Run alone, clean-up forgets the task in hash and set; the trailing count and delete change nothing more |
| `TaskOperations.Registry.CreateTask` | frontend-source/backend/open_webui/tasks.py:104-124 | The task is registered, appended to its item's list, and saved to Redis when there is one |
| `TaskOperations.Registry.CleanupTask` | frontend-source/backend/open_webui/tasks.py:88-101 | Local and Redis state become those of `CleanLocal` and `ForgetTask` |
| `TaskOperations.Registry.StopTask` | frontend-source/backend/open_webui/tasks.py:145-179 | With Redis the task is forgotten under the item the hash has for it and the local registry stays; without, it succeeds exactly for a local task |
| `TaskOperations.Registry.StopItemTasks` | frontend-source/backend/open_webui/tasks.py:182-196 | Stopping an item empties its set, takes exactly the set's members out of the hash and leaves every other item alone |
| `TaskOperations.ActiveMeansListed` | frontend-source/backend/open_webui/tasks.py:198-201 | A chat reported active has a task in the hash; the converse holds when hash and sets are equal |
| `Automations.ClaimedAtMostOnce` | frontend-source/backend/open_webui/models/automations.py:257-300 | In every run of any number of workers with separate select, plan and commit steps, interleaved with inserts, safe updates and toggles, deletes and roll-backs, batches in flight are disjoint and no (automation, due instant) is claimed twice |
| `Automations.SafeExactly` | frontend-source/backend/open_webui/models/automations.py:209-246 | A user's write is safe if and only if nothing the workers can do afterwards claims an instant twice; safe means it leaves the row inactive, without an instant, or with one later than every instant claimed for it |
| `Automations.InvExactly` | frontend-source/backend/open_webui/models/automations.py:257-300 | A step keeps the invariant if and only if it is no unsafe write |
| `Automations.UnsafeClaimsTwice` | frontend-source/backend/open_webui/models/automations.py:266-300 | After an unsafe write in any state the invariant allows, workers alone reach a state with a duplicate claim |
| `Automations.AheadIsSafe` | frontend-source/backend/open_webui/models/automations.py:231-246 | Inserting a row, and writing an instant that still lies ahead, is always safe |
| `Automations.LateWriteClaimsTwice` | frontend-source/backend/open_webui/models/automations.py:231-246 | A run from the empty table that claims the same instant twice: pause and resume with an instant that has passed |
| `Automations.RunInv` | frontend-source/backend/open_webui/models/automations.py:257-300 | What every safe run keeps: locked rows stay as they were selected, every claimed instant lies before the instant an active row now waits for |
| `AutomationHistory.RunIsHistory` | frontend-source/backend/open_webui/models/automations.py:121-300 | In any run, with safe writes or not, rows, locks and claims are what the steps tell: a row is as inserted, updated or toggled last, with the last run and next instant of the commits whose batch holds it; the claims are the instants those rows waited for, in commit order |
| `Automations.DrainsInOrder` | frontend-source/backend/open_webui/models/automations.py:266-300 | Successive claims at one instant hand out distinct rows in non-decreasing due order, exactly those due before and not after; no other row changes |
| `Automations.DrainCount` | frontend-source/backend/open_webui/models/automations.py:266-300 | After n claims the queue is empty if and only if n times the limit covers the number of due rows; otherwise exactly n times the limit are gone |
| `Automations.ClaimShrinks` | frontend-source/backend/open_webui/models/automations.py:266-300 | A claim takes out of the due rows exactly its batch, as large as the limit allows; a row that was not due is neither returned nor changed |
| `Automations.AutomationTable.ClaimDue` | frontend-source/backend/open_webui/models/automations.py:257-300 | The loop returns an earliest batch of at most `limit` active rows whose instant has come, and gives exactly those the time as last run and the planned next run, nothing else changing |
| `Automations.AutomationTable.SelectDue` | frontend-source/backend/open_webui/models/automations.py:266-280 | An earliest batch: active rows with an instant not in the future, ordered, distinct, and none left out that is earlier than something taken |
| `Automations.AutomationTable.Earliest` | frontend-source/backend/open_webui/models/automations.py:266-274 | A row of the pool no later than any other |
| `Automations.AutomationTable.Insert` | frontend-source/backend/open_webui/models/automations.py:121-144 | The row is stored and no other changes |
| `Automations.AutomationTable.UpdateById` | frontend-source/backend/open_webui/models/automations.py:209-229 | The named row gets the new fields, `is_active` only if given; others stay |
| `Automations.AutomationTable.Toggle` | frontend-source/backend/open_webui/models/automations.py:231-246 | The flag flips; an active row gets the given instant, a paused one none |
| `Automations.AutomationTable.Delete` | frontend-source/backend/open_webui/models/automations.py:248-255 | The row is gone, and reports whether it was there |
| `PromptHistory.DeleteKeepsAncestry` | frontend-source/backend/open_webui/models/prompt_history.py:205-227 | For any two survivors, on any parent graph, x is an ancestor of y after the deletion if and only if it was before |
| `PromptHistory.DeleteKeepsForest` | frontend-source/backend/open_webui/models/prompt_history.py:205-227 | Deleting from a forest leaves a forest |
| `PromptHistory.NoPointerLeft` | frontend-source/backend/open_webui/models/prompt_history.py:217-225 | No survivor points at the deleted entry, except exactly when that entry was its own parent and had other children |
| `PromptHistory.RunsKeepAncestry` | frontend-source/backend/open_webui/models/prompt_history.py:53-76 | Over any sequence of creates and deletes the history stays a forest and entries that survive are related exactly as before and keep their content |
| `PromptHistory.RunsResolvedExactly` | frontend-source/backend/open_webui/models/prompt_history.py:205-227 | Over any sequence of creates and deletes no parent pointer ever dangles if and only if every create names a stored parent or none |
| `PromptHistory.RunIsHistory` | frontend-source/backend/open_webui/models/prompt_history.py:205-227 | After any sequence of creates and deletes the entries are exactly those created and not deleted, each as created, with the parent of each parent that was deleted since |
| `PromptHistory.PromptHistoryTable.CreateHistoryEntry` | frontend-source/backend/open_webui/models/prompt_history.py:53-76 | The entry is stored and no other changes |
| `PromptHistory.PromptHistoryTable.DeleteHistoryEntry` | frontend-source/backend/open_webui/models/prompt_history.py:205-227 | The loop re-parents exactly the children of the entry to its parent and removes it; every other field of every other entry stays, and nothing happens for an unknown id |
| `Folders.FolderTable.GetChildrenFolders` | frontend-source/backend/open_webui/models/folders.py:135-156 | On a forest the recursion terminates and lists exactly the folders below, each once, all of that user; nothing for a folder the user does not have |
| `Folders.FolderTable.CollectChildren` | frontend-source/backend/open_webui/models/folders.py:142-146 | The recursion appends exactly what lies below, each once, to what was collected |
| `Folders.FolderTable.DeleteFolder` | frontend-source/backend/open_webui/models/folders.py:289-317 | Removes exactly the folder and its owner's descendants, returns each id once with the root first, and leaves all other rows unchanged |
| `Folders.FolderTable.DeleteChildren` | frontend-source/backend/open_webui/models/folders.py:303-312 | The recursive closure removes exactly what lies below although the table shrinks while it runs |
| `Folders.FolderTable.DeleteSubtree` | frontend-source/backend/open_webui/models/folders.py:305-312 | One round of the loop removes exactly the child's subtree |
| `Folders.FolderTable.SelectChildren` | frontend-source/backend/open_webui/models/folders.py:186-191 | Exactly the user's folders with that parent, each once |
| `Folders.FolderTable.UpdateParent` | frontend-source/backend/open_webui/models/folders.py:193-213 | The folder's parent changes if the user owns it; nothing else does |
| `Folders.BelowIsSubtrees` | frontend-source/backend/open_webui/models/folders.py:142-146 | What lies below a folder is the union of its children's subtrees |
| `Folders.BelowOwned` | frontend-source/backend/open_webui/models/folders.py:186-191 | What lies below a folder belongs to the user |
| `Folders.DeleteLeavesNoOrphans` | frontend-source/backend/open_webui/models/folders.py:289-317 | No folder of that user dangles afterwards that did not dangle before, and the rest is a forest |
| `Folders.MoveKeepsForest` | frontend-source/backend/open_webui/models/folders.py:193-213 | Moving a folder keeps the forest if and only if the new parent is neither the folder nor one of the folders the children listing returns |
| `Forest.SetParent` | frontend-source/backend/open_webui/models/folders.py:193-213 | On any acyclic parent graph, setting one pointer keeps it acyclic if and only if the target is neither the node nor below it |
| `Forest.RemovalKeepsSubtree` | frontend-source/backend/open_webui/models/folders.py:303-312 | Removing nodes outside a subtree leaves the subtree as it is |
| `Glob.LikeMeansGlob` | frontend-source/backend/open_webui/models/files.py:268-289 | For every pattern and string, the translated LIKE pattern is valid and matches exactly what the glob matches |
| `Glob.FivePassesAreOne` | frontend-source/backend/open_webui/models/files.py:283-289 | The five successive replacements equal one character-by-character translation |
| `Glob.TranslatedWellEscaped` | frontend-source/backend/open_webui/models/files.py:283-289 | Every escape in a translated pattern is followed by an escape, `%` or `_` (section 8.5 of ISO/IEC 9075-2) |
| `Glob.TranslationInvertible` | frontend-source/backend/open_webui/models/files.py:268-289 | The translation can be undone: different globs give different patterns |
| `Glob.GlobSplits` | frontend-source/backend/open_webui/models/files.py:268-289 | Matching distributes over concatenation of patterns: the text splits |
| `Glob.ILikeMeansGlob` | frontend-source/backend/open_webui/models/files.py:318-320 | Case-folding pattern and text matches exactly what the folded glob matches in the folded text |
| `Glob.SearchFilesExact` | frontend-source/backend/open_webui/models/files.py:312-320 | A search selects exactly the user's files the glob matches; leaving out the filter for `%` changes nothing |
| `Config.TreeIsFlatMap` | frontend-source/backend/open_webui/config.py:161-169 | After any sequence of saves to paths none of which lies on the way to another, in a tree that fits, every path reads as the last value saved there or its initial value |
| `Config.SavesApart` | frontend-source/backend/open_webui/config.py:251-262 | Saving one path changes no path apart from it and does not get in its way |
| `Config.ReadsSaved` | frontend-source/backend/open_webui/config.py:251-262 | Reading at or below a saved path reads the saved value |
| `Config.ReadOneMore` | frontend-source/backend/open_webui/config.py:161-169 | Reading one more part: a dictionary has the key or not; a string or list that contains it raises, and so does any other leaf; a missing or raising prefix stays so |
| `Config.SetIffFits` | frontend-source/backend/open_webui/config.py:251-260 | A save succeeds if and only if no leaf lies on the way |
| `Config.IndependentExactly` | frontend-source/backend/open_webui/config.py:251-262 | No save to one path ever changes what is read at another if and only if neither lies on the way to the other: every other pair has a tree and a value that show it |
| `Config.SettledReadsLast` | frontend-source/backend/open_webui/config.py:305-330 | However run-time assignments, the saves they schedule and bulk saves interleave, at every moment the tree fits and an item without a scheduled save reads from it as the item says, if and only if every bulk save covers the items; once no save is scheduled, all do |
| `Config.ItemsAreLastWord` | frontend-source/backend/open_webui/config.py:192-330 | What an item says after any such events is the value last assigned to it, or taken over by a bulk save that reached it and had a non-null value |
| `Config.BulkSettlesExactly` | frontend-source/backend/open_webui/config.py:192-206 | A bulk save keeps that if and only if its tree fits all paths and has, for each item without a scheduled save, a non-null value or the value the item already has |
| `Config.BulkSavedValues` | frontend-source/backend/open_webui/config.py:192-206 | Among run-time events too, a bulk save gives each item it reaches the non-null value of the new tree or leaves its value, and leaves all others and what is scheduled |
| `Config.CreatedOnTheWay` | frontend-source/backend/open_webui/config.py:256-260 | Creating a missing dictionary on the way does not change where the save ends |
| `Config.JoinSplit` | frontend-source/backend/open_webui/config.py:162-162 | Splitting at dots loses nothing: different dotted strings are different paths |
| `Config.SplitJoin` | frontend-source/backend/open_webui/config.py:162-162 | And joining loses nothing: parts without dots are found again |
| `Config.ConfigStore.Save` | frontend-source/backend/open_webui/config.py:251-262 | The walk creates missing dictionaries and ends in the tree with that path set; when a leaf is in the way it fails with the tree unchanged |
| `Config.ConfigStore.Assign` | frontend-source/backend/open_webui/config.py:305-318 | At startup, assigning to an item changes its value and saves it at once |
| `Config.ConfigStore.AssignLater` | frontend-source/backend/open_webui/config.py:305-316 | At run time the value changes at once and the save is only scheduled |
| `Config.ConfigStore.RunScheduled` | frontend-source/backend/open_webui/config.py:324-329 | A scheduled save writes the value the item has by then |
| `Config.ConfigStore.SaveConfig` | frontend-source/backend/open_webui/config.py:175-189 | A bulk save replaces the tree; each item whose path it can read takes a non-null value found there and otherwise keeps its own; an item whose path runs into a leaf stops the updates behind it |
| `Config.PersistentConfig.constructor` | frontend-source/backend/open_webui/config.py:215-231 | The stored non-null value wins over the environment exactly when persistence is on for the item, and the item joins the registry, which stays free of duplicates |
| `AccessGrants.DictionaryRoundTrip` | frontend-source/backend/open_webui/models/access_grants.py:80-144 | Dictionary to grants and back gives the normal form: duplicates removed, missing permissions filled with empty lists, no ids become `{}`, a wildcard reader becomes public, and a public file becomes private |
| `AccessGrants.GrantsRoundTrip` | frontend-source/backend/open_webui/models/access_grants.py:234-276 | Grants of one resource, to a dictionary and back, are the same set of valid grants when none is public-read, only the public grant otherwise; no grant is new |
| `AccessGrants.RoundTripNeverWidens` | frontend-source/backend/open_webui/models/access_grants.py:234-276 | Whoever has access after passing through the legacy form had it before, for every user, group set and permission |
| `AccessGrants.AccessControlToGrants` | frontend-source/backend/open_webui/models/access_grants.py:80-144 | The loops append exactly the grants of `ToGrants`, in order |
| `AccessGrants.GrantsToAccessControl` | frontend-source/backend/open_webui/models/access_grants.py:234-276 | The loop collects exactly the dictionary of `FromGrants` |
| `AccessGrants.BatchAgrees` | frontend-source/backend/open_webui/models/access_grants.py:559-613 | The batch query returns exactly the requested ids for which the single check holds |
| `AccessGrants.FilterAgrees` | frontend-source/backend/open_webui/models/access_grants.py:660-767 | With a user id the row filter keeps exactly owned documents and those for which the single check holds |
| `AccessGrants.FilterWithoutUser` | frontend-source/backend/open_webui/models/access_grants.py:660-767 | Without a user id it keeps exactly the documents granted to everybody or to one of the groups, and all of them if there are no groups either |
| `AccessGrants.ReadOnlyAgrees` | frontend-source/backend/open_webui/models/access_grants.py:769-879 | The read-only filter keeps only readable documents the user does not own; a kept one is writable exactly if a public write grant exists, which the filter overlooks; every readable, unwritable, non-public document of others is kept |
| `AccessGrants.ReadOnlyKeeps` | frontend-source/backend/open_webui/models/access_grants.py:769-879 | Exactly the documents of others that the user, by name or group, may read and not write and that not everybody may read |
| `AccessGrants.ReadOnlyExactly` | frontend-source/backend/open_webui/models/access_grants.py:769-879 | The read-only filter keeps only documents without write access if and only if it keeps none with a public write grant |
| `AccessGrants.WritableIsKept` | frontend-source/backend/open_webui/models/access_grants.py:769-879 | A concrete table at which it keeps a document the user can write |
| `AccessGrants.ListingAgrees` | frontend-source/backend/open_webui/models/access_grants.py:615-658 | The user listing is exactly the existing users for whom the single check holds with their groups, less pending ones when the resource is public |
| `AccessGrants.NormalizeExact` | frontend-source/backend/open_webui/models/access_grants.py:147-183 | Exactly the usable entries that no later entry with the same key replaces, one per key |
| `AccessGrants.LastEntryKept` | frontend-source/backend/open_webui/models/access_grants.py:147-183 | The entry kept for a key is the last that asks for it, with its own id if that is not empty |
| `AccessGrants.PutEffect` | frontend-source/backend/open_webui/models/access_grants.py:175-181 | Writing under a key replaces the entry of that key and keeps keys distinct |
| `AccessGrants.NormalizePayload` | frontend-source/backend/open_webui/models/access_grants.py:147-183 | The loop computes `Normalize` |
| `AccessGrants.DistinctGrants` | frontend-source/backend/open_webui/models/access_grants.py:80-144 | A dictionary yields distinct grants if and only if none of its four lists repeats an id |
| `AccessGrants.AccessGrantsTable.SetAccessGrants` | frontend-source/backend/open_webui/models/access_grants.py:402-437 | The resource's grants become exactly those some usable payload entry asks for, with its principal, id and permission; other resources keep theirs, and the unique-grant constraint holds |
| `AccessGrants.AccessGrantsTable.SetAccessControl` | frontend-source/backend/open_webui/models/access_grants.py:364-400 | The resource's grants become exactly those the dictionary lists; when the dictionary repeats an id the constraint fails and nothing changes |
| `AccessGrants.AccessGrantsTable.GrantAccess` | frontend-source/backend/open_webui/models/access_grants.py:285-321 | Adding a grant is idempotent and keeps uniqueness |
| `AccessGrants.AccessGrantsTable.DeleteResource` | frontend-source/backend/open_webui/models/access_grants.py:376-382 | Exactly the grants of the resource go |
| `AccessGrants.ReplacedAccess` | frontend-source/backend/open_webui/models/access_grants.py:402-437 | Replacing the grants of one resource decides access to that resource by the new grants and to every other as before |
| `AccessGrants.AccessFromPayload` | frontend-source/backend/open_webui/models/access_grants.py:402-437 | After that, a user has access to the resource if and only if some payload entry with that permission names the user, one of the user's groups or everybody; access to every other resource is as before |
| `Channels.CountingFindsMembers` | frontend-source/backend/open_webui/models/channels.py:430-462 | With unique membership the two-count query selects a channel if and only if it is a direct-message channel whose full member set, active or not, is the requested set; never for an empty request, whatever duplicates the list has |
| `Channels.EveryReachedStateFinds` | frontend-source/backend/open_webui/models/channels.py:341-582 | In every state reached by creating, adding, joining, leaving and removing, the same holds |
| `Channels.ReachedUnique` | frontend-source/backend/open_webui/models/channels.py:341-582 | In every such state no user is a member of a channel twice |
| `Channels.ReachedStanding` | frontend-source/backend/open_webui/models/channels.py:295-329 | In every such state each user is an active member, one who left, or outside, as the history tells: only somebody outside comes in, leaving makes an active member one who left, and joining or being added again does nothing for that one until the row is removed |
| `Channels.ReachedChannels` | frontend-source/backend/open_webui/models/channels.py:341-357 | In every such state the channels are those created, with the kind and creator given then |
| `Channels.StepKeepsUnique` | frontend-source/backend/open_webui/models/channels.py:341-582 | Each step keeps membership unique and changes member sets exactly as asked |
| `Channels.CountsAreSizes` | frontend-source/backend/open_webui/models/channels.py:437-451 | With unique membership the two aggregates are the sizes of the member set and of its intersection with the request |
| `Channels.DoubledMemberMatches` | frontend-source/backend/open_webui/models/channels.py:437-451 | With doubled membership they are not: one user stored twice passes for two |
| `Channels.GetDmChannel` | frontend-source/backend/open_webui/models/channels.py:430-464 | The lookup returns a direct-message channel with exactly the requested members, and nothing only if there is none |
| `Channels.ChannelTable.AddRows` | frontend-source/backend/open_webui/models/channels.py:295-329 | One new joined row per user; membership stays unique and other channels stay as they are |
| `Channels.ChannelTable.InsertNewChannel` | frontend-source/backend/open_webui/models/channels.py:341-375 | A group or direct-message channel starts with exactly the invited users and its creator; membership stays unique |
| `Channels.ChannelTable.AddMembers` | frontend-source/backend/open_webui/models/channels.py:466-490 | Exactly the requested users who were not members are added, once each, the inviter included |
| `Channels.ChannelTable.JoinChannel` | frontend-source/backend/open_webui/models/channels.py:526-562 | The user is a member afterwards, an existing row stays as it is |
| `Channels.ChannelTable.LeaveChannel` | frontend-source/backend/open_webui/models/channels.py:564-582 | One row is marked as left; the member set does not change |
| `Channels.ChannelTable.RemoveMembers` | frontend-source/backend/open_webui/models/channels.py:492-506 | Exactly the rows of those users in that channel go |
| `Channels.RemovedExact` | frontend-source/backend/open_webui/models/channels.py:492-506 | Removal keeps uniqueness and takes exactly the named users out of exactly that channel |

## Left out

- ChatRuns.RunsAgree: covers runs whose row writes succeed; a write is modelled to fail only for a null role, so other database errors that are logged and skipped are not covered. Chats written by import, by whole-chat updates or by the two helpers that touch only the JSON history are outside these runs.
- ChatRuns.StepKeepsGood: clients use new ids, give messages a role, send a stored message again only under the same parent, and list every stored child, answers of the turn aside, and no other message but answers; a continued answer has no children. What other lists do, for new and for stored messages, is `ChatTurn.TurnForestExactly`, a stale list is `ChatTurn.StaleListUnlists`, and what a later change of the parent does is `ChatRuns.ReparentingIsLost`. A turn with two answers of the same model, of which the request names only one, is such another list.
- ChatMessages.WrittenUsage: token counts that are not numbers count as zero, where the code raises and the row write is lost.
- ChatTurn.TurnForestExactly: ids are where they belong: answers are distinct, new or already stored under the same user message, and the user message is new or stored under the parent it names, never under itself or an answer.
- ChatTurn.TurnKeepsForest: chat files, titles, ownership checks and the sanitising of message contents are not modelled; timestamps do not change within a turn.
- TurnOperations.SaveUserMessage: a `childrenIds` that is neither a list nor absent ends the turn; the code does so too, except that a string that already contains the id passes.
- Chats.ChatTable.UpsertMessage: a history without a `messages` dictionary, which raises, is not modelled; message ids and parent ids are strings.
- ChatMessages.CompositeInjective: chat ids are taken to be uuid4 strings of 36 characters; temporary and channel chats are not stored.
- Chats.RepeatedReadsHeal: every history message has a role, since one without is skipped at every read; reads run one after the other.
- TaskRuns.SetsAlwaysInHash: pipelines are transactions, task ids are never reused, and the cancellation sent by publish/subscribe is the free step in which a task finishes.
- TaskOperations.Registry.StopItemTasks: only with Redis; without it the loop walks a list that clean-up shortens meanwhile, and whether all tasks are stopped depends on the order in which the event loop wakes them.
- Automations.ClaimedAtMostOnce: row locks as on PostgreSQL; without them (SQLite) only the claim as one atomic step is covered, by `Automations.AutomationTable.ClaimDue`. The next instant is any that is not in the past of the claim. Names and rules stand for the rest of a row.
- PromptHistory.RunsKeepAncestry: a new entry's id is new; a parent id may dangle, and exactly when one does is `PromptHistory.RunsResolvedExactly`.
- Folders.FolderTable.DeleteFolder: on a cyclic folder graph the code recurses until Python stops it, which is not modelled; searching folders by name is left out.
- Glob.SearchFilesExact: ordering and paging are left out, and case folding is character by character and leaves the five special characters alone.
- Config.ConfigStore.Save: a failing database write is not modelled, nor are values shared between an item and the tree: the tree is a value and the walk a position in it.
- Config.ConfigStore.Assign: the copy in Redis and its read-back are left out.
- Config.TreeIsFlatMap: several workers that each write their own whole tree are left out.
- AccessGrants.ReadOnlyKeeps: the read-only filter is modelled only with a user id.
- AccessGrants.DictionaryRoundTrip: keys other than `read` and `write`, and entries that are not lists, are not modelled.
- Channels.GetDmChannel: when several channels qualify the query returns any one of them, and so does the model; time stamps and mute or pin flags of members are left out.
- HTTP routes, streaming, OAuth, uploads, analytics and the frontend.
