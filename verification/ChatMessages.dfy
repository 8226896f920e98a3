/** The `chat_message` table: one row per message, parent pointer only. */
module ChatMessages {
  import opened Collections
  import opened Json
  import opened Messages

  datatype Row = Row(
    chatId: Id, userId: string, role: Json, parentId: Json,
    content: Json, output: Json, modelId: Json,
    files: Json, sources: Json, embeds: Json,
    done: Json, statusHistory: Json, error: Json,
    usage: map<string, Json>,
    createdAt: Json, updatedAt: int)

  type Rows = map<string, Row>

  // ----------------------------------------------------------- composite ids

  /** Chat ids are uuid4 strings. */
  const UUID_LENGTH := 36

  function Composite(chatId: Id, messageId: Id): string {
    chatId + "-" + messageId
  }

  function StripPrefix(chatId: Id, rowId: string): Id {
    var prefix := chatId + "-";
    if prefix <= rowId then rowId[|prefix|..] else rowId
  }

  lemma StripComposite(c: Id, m: Id)
    ensures StripPrefix(c, Composite(c, m)) == m
  {
    assert Composite(c, m)[|c + "-"|..] == m;
  }

  /** Composite ids of equally long chat ids never collide. */
  lemma CompositeInjective(c: Id, m: Id, c': Id, m': Id)
    requires |c| == |c'|
    ensures Composite(c, m) == Composite(c', m') ==> c == c' && m == m'
  {
    if Composite(c, m) == Composite(c', m') {
      assert c == Composite(c, m)[..|c|] && c' == Composite(c', m')[..|c|];
      StripComposite(c, m);
      StripComposite(c', m');
    }
  }

  /** With chat ids of different length they do: the row of one chat's message is
      found under the other chat's id. */
  lemma CompositeCollision()
    ensures Composite("a", "b-m") == Composite("a-b", "m") && "a" != "a-b"
  {
    assert Composite("a", "b-m") == "a-b-m";
    assert Composite("a-b", "m") == "a-b-m";
  }

  /** Every row is filed under the composite id of its own chat. */
  ghost predicate TableOk(rows: Rows) {
    forall k :: k in rows ==>
      |rows[k].chatId| == UUID_LENGTH && k == Composite(rows[k].chatId, StripPrefix(rows[k].chatId, k))
  }

  ghost predicate HasRow(rows: Rows, c: Id, m: Id) {
    Composite(c, m) in rows
  }

  lemma RowBelongsToChat(rows: Rows, c: Id, m: Id)
    requires TableOk(rows) && |c| == UUID_LENGTH && HasRow(rows, c, m)
    ensures rows[Composite(c, m)].chatId == c
  {
    var k := Composite(c, m);
    CompositeInjective(c, m, rows[k].chatId, StripPrefix(rows[k].chatId, k));
  }

  // ------------------------------------------------------------------- usage

  const INPUT := "input_tokens"
  const OUTPUT := "output_tokens"
  const TOTAL := "total_tokens"
  const INPUT_KEYS := [INPUT, "prompt_tokens", "prompt_eval_count", "prompt_n"]
  const OUTPUT_KEYS := [OUTPUT, "completion_tokens", "eval_count", "predicted_n"]

  /** The first truthy value among the given keys. */
  function FirstOf(u: map<string, Json>, keys: seq<string>): Json {
    if keys == [] then Num(0)
    else if keys[0] in u && Truthy(u[keys[0]]) then u[keys[0]]
    else FirstOf(u, keys[1..])
  }

  function Count(j: Json): int {
    if j.Num? then j.n else 0
  }

  function NormalizeUsage(u: map<string, Json>): map<string, Json> {
    if u == map[] then map[] else
    var input := Count(FirstOf(u, INPUT_KEYS));
    var output := Count(FirstOf(u, OUTPUT_KEYS));
    SetTokens(u, input, output, TotalOf(u, input, output))
  }

  function TotalOf(u: map<string, Json>, input: int, output: int): int {
    if TOTAL in u && Truthy(u[TOTAL]) then Count(u[TOTAL]) else input + output
  }

  function SetTokens(u: map<string, Json>, input: int, output: int, total: int): map<string, Json> {
    u[INPUT := Num(input)][OUTPUT := Num(output)][TOTAL := Num(total)]
  }

  lemma SetTokensEffect(u: map<string, Json>, input: int, output: int, total: int)
    ensures var u' := SetTokens(u, input, output, total);
      && INPUT in u' && u'[INPUT] == Num(input) && OUTPUT in u' && u'[OUTPUT] == Num(output) && TOTAL in u' && u'[TOTAL] == Num(total)
      && (forall k :: k !in {INPUT, OUTPUT, TOTAL} ==> (k in u' <==> k in u) && (k in u ==> u'[k] == u[k]))
      && SetTokens(u', input, output, total) == u'
  {
  }

  lemma {:induction false} FirstOfAgain(u: map<string, Json>, u': map<string, Json>, keys: seq<string>)
    requires forall k :: k in keys ==> (k in u <==> k in u') && (k in u ==> u'[k] == u[k])
    ensures FirstOf(u', keys) == FirstOf(u, keys)
  {
    if keys != [] {
      FirstOfAgain(u, u', keys[1..]);
    }
  }

  /** Once the first key has taken the value found, the same value is found again. */
  lemma FirstOfKept(u: map<string, Json>, u': map<string, Json>, keys: seq<string>)
    requires keys != [] && keys[0] !in keys[1..] && Numeric(u, keys)
    requires keys[0] in u' && u'[keys[0]] == Num(Count(FirstOf(u, keys)))
    requires forall k :: k in keys[1..] ==> (k in u <==> k in u') && (k in u ==> u'[k] == u[k])
    ensures Count(FirstOf(u', keys)) == Count(FirstOf(u, keys))
  {
    FirstOfAgain(u, u', keys[1..]);
    FirstOfNum(u, keys[1..]);
  }

  /** Where these keys are present, they hold numbers. */
  predicate Numeric(u: map<string, Json>, keys: seq<string>) {
    forall k :: k in keys && k in u ==> u[k].Num?
  }

  lemma {:induction false} FirstOfNum(u: map<string, Json>, keys: seq<string>)
    requires Numeric(u, keys)
    ensures FirstOf(u, keys).Num? && (FirstOf(u, keys) == Num(0) || Truthy(FirstOf(u, keys)))
  {
    if keys != [] {
      FirstOfNum(u, keys[1..]);
    }
  }

  lemma TokenKeys()
    ensures INPUT != OUTPUT && INPUT != TOTAL && OUTPUT != TOTAL
    ensures INPUT_KEYS != [] && INPUT_KEYS[0] == INPUT && OUTPUT_KEYS != [] && OUTPUT_KEYS[0] == OUTPUT
    ensures forall k :: k in {INPUT, OUTPUT, TOTAL} ==> k !in INPUT_KEYS[1..] && k !in OUTPUT_KEYS[1..]
  {
  }

  /** Normalizing keeps every other key and is done after the first time: a usage
      that was stored and read back stays as it is. */
  lemma NormalizeIdempotent(u: map<string, Json>)
    requires Numeric(u, INPUT_KEYS) && Numeric(u, OUTPUT_KEYS) && Numeric(u, [TOTAL])
    ensures NormalizeUsage(NormalizeUsage(u)) == NormalizeUsage(u)
    ensures forall k :: k in u && k !in {INPUT, OUTPUT, TOTAL} ==> k in NormalizeUsage(u) && NormalizeUsage(u)[k] == u[k]
  {
    TokenKeys();
    assert u == map[] ==> NormalizeUsage(u) == map[];
    hide *;
    if u != map[] {
      var input, output := Count(FirstOf(u, INPUT_KEYS)), Count(FirstOf(u, OUTPUT_KEYS));
      var total := TotalOf(u, input, output);
      var u' := SetTokens(u, input, output, total);
      SetTokensEffect(u, input, output, total);
      NormalizeIs(u);
      NormalizeIs(u');
      FirstOfKept(u, u', INPUT_KEYS);
      FirstOfKept(u, u', OUTPUT_KEYS);
      TotalKept(u, u', input, output);
    }
  }

  lemma NormalizeIs(u: map<string, Json>)
    requires u != map[]
    ensures var input, output := Count(FirstOf(u, INPUT_KEYS)), Count(FirstOf(u, OUTPUT_KEYS));
      NormalizeUsage(u) == SetTokens(u, input, output, TotalOf(u, input, output))
  {
  }

  lemma TotalKept(u: map<string, Json>, u': map<string, Json>, input: int, output: int)
    requires Numeric(u, [TOTAL]) && TOTAL in u' && u'[TOTAL] == Num(TotalOf(u, input, output))
    ensures TotalOf(u', input, output) == TotalOf(u, input, output)
  {
    assert TOTAL in [TOTAL];
  }

  function AsObj(j: Json): map<string, Json> {
    if j.Obj? then j.m else map[]
  }

  function GetUsage(data: Message): map<string, Json> {
    var inner := AsObj(Get(data, Info));
    NormalizeUsage(AsObj(Or(Get(data, Usage), if "usage" in inner then inner["usage"] else Null)))
  }

  // ------------------------------------------------------------------ upsert

  function InsertedRow(c: Id, user: string, data: Message, now: int): Row {
    Row(c, user,
        GetOr(data, Role, Str("user")),
        Or(Get(data, ParentIdSnake), Get(data, ParentId)),
        Get(data, Content), Get(data, Output),
        Or(Get(data, ModelId), Get(data, Model)),
        Get(data, Files), Get(data, Sources), Get(data, Embeds),
        GetOr(data, Done, Bool(true)),
        Or(Get(data, StatusHistorySnake), Get(data, StatusHistory)),
        Get(data, Error), GetUsage(data), GetOr(data, Timestamp, Num(now)), now)
  }

  function UpdatedRow(r: Row, data: Message, now: int): Row {
    Row(r.chatId, r.userId,
        GetOr(data, Role, r.role),
        if ParentIdSnake in data then Or(Get(data, ParentIdSnake), Get(data, ParentId)) else r.parentId,
        GetOr(data, Content, r.content), GetOr(data, Output, r.output),
        if ModelId in data || Model in data then Or(Get(data, ModelId), Get(data, Model)) else r.modelId,
        GetOr(data, Files, r.files), GetOr(data, Sources, r.sources), GetOr(data, Embeds, r.embeds),
        GetOr(data, Done, r.done),
        if StatusHistorySnake in data || StatusHistory in data
        then Or(Get(data, StatusHistorySnake), Get(data, StatusHistory)) else r.statusHistory,
        GetOr(data, Error, r.error), r.usage + GetUsage(data), r.createdAt, now)
  }

  function WrittenRow(rows: Rows, c: Id, m: Id, user: string, data: Message, now: int): Row {
    if Composite(c, m) in rows then UpdatedRow(rows[Composite(c, m)], data, now)
    else InsertedRow(c, user, data, now)
  }

  /** The role column is not nullable: writing a null role fails, callers log the
      failure and go on. */
  function UpsertRow(rows: Rows, c: Id, m: Id, user: string, data: Message, now: int): Rows {
    var row := WrittenRow(rows, c, m, user, data, now);
    if row.role.Null? then rows else rows[Composite(c, m) := row]
  }

  lemma UpsertRowFrame(rows: Rows, c: Id, m: Id, user: string, data: Message, now: int)
    requires TableOk(rows) && |c| == UUID_LENGTH
    ensures var rows' := UpsertRow(rows, c, m, user, data, now);
      && TableOk(rows')
      && rows.Keys <= rows'.Keys <= rows.Keys + {Composite(c, m)}
      && (forall c', m' :: |c'| == UUID_LENGTH && (c' != c || m' != m) && HasRow(rows', c', m') ==>
            HasRow(rows, c', m') && rows'[Composite(c', m')] == rows[Composite(c', m')])
  {
    StripComposite(c, m);
    if HasRow(rows, c, m) {
      RowBelongsToChat(rows, c, m);
    }
    forall c', m' | |c'| == UUID_LENGTH && (c' != c || m' != m)
      ensures Composite(c', m') != Composite(c, m)
    {
      CompositeInjective(c', m', c, m);
    }
  }

  /** A row is in step with a message: each column is the value of its key where
      the key is present, and the column default otherwise.  The parent column is
      not covered: see `ParentColumn`. */
  ghost predicate InStep(r: Row, d: Message) {
    && r.role == GetOr(d, Role, Str("user"))
    && r.content == Get(d, Content)
    && r.output == Get(d, Output)
    && r.modelId == Or(Get(d, ModelId), Get(d, Model))
    && r.files == Get(d, Files)
    && r.sources == Get(d, Sources)
    && r.embeds == Get(d, Embeds)
    && r.done == GetOr(d, Done, Bool(true))
    && r.statusHistory == Or(Get(d, StatusHistorySnake), Get(d, StatusHistory))
    && r.error == Get(d, Error)
  }

  /** Merging a partial message and writing the merged message keeps the row in
      step; a column whose key was never written keeps its default. */
  lemma MergeKeepsInStep(rows: Rows, c: Id, m: Id, user: string, old_: Message, patch: Message, now: int)
    requires HasRow(rows, c, m) ==> InStep(rows[Composite(c, m)], old_)
    ensures InStep(WrittenRow(rows, c, m, user, old_ + patch, now), old_ + patch)
    ensures HasRow(rows, c, m) ==>
              rows[Composite(c, m)].usage.Keys <= WrittenRow(rows, c, m, user, old_ + patch, now).usage.Keys
  {
  }

  /** A column whose keys the message does not have holds the default of an insert. */
  ghost predicate Defaults(r: Row, d: Message) {
    && (Role !in d ==> r.role == Str("user"))
    && (Content !in d ==> r.content == Null)
    && (Output !in d ==> r.output == Null)
    && (ModelId !in d && Model !in d ==> r.modelId == Null)
    && (Files !in d ==> r.files == Null)
    && (Sources !in d ==> r.sources == Null)
    && (Embeds !in d ==> r.embeds == Null)
    && (Done !in d ==> r.done == Bool(true))
    && (StatusHistorySnake !in d && StatusHistory !in d ==> r.statusHistory == Null)
    && (Error !in d ==> r.error == Null)
  }

  /** The row follows the message: a key never written leaves its column at the
      default, and the columns say what the message says unless its role is null. */
  ghost predicate Follows(r: Row, d: Message) {
    r.role != Null && Defaults(r, d) && (InStep(r, d) <==> GetOr(d, Role, Str("user")) != Null)
  }

  /** Writing a merged message, whatever the patch: the row follows it, also where the
      write is refused, and a row exists as soon as one write was accepted. */
  lemma WriteFollows(rows: Rows, c: Id, m: Id, user: string, old_: Message, patch: Message, now: int)
    requires HasRow(rows, c, m) ==> Follows(rows[Composite(c, m)], old_)
    ensures var d, rows' := old_ + patch, UpsertRow(rows, c, m, user, old_ + patch, now);
      && (HasRow(rows', c, m) <==> HasRow(rows, c, m) || GetOr(d, Role, Str("user")) != Null)
      && (HasRow(rows', c, m) ==> Follows(rows'[Composite(c, m)], d))
  {
    var d := old_ + patch;
    if HasRow(rows, c, m) {
      UpdateFollows(rows[Composite(c, m)], old_, d, now);
    } else {
      InsertFollows(c, user, d, now);
    }
    hide InStep, Defaults, InsertedRow, UpdatedRow;
  }

  lemma InsertFollows(c: Id, user: string, d: Message, now: int)
    ensures var r := InsertedRow(c, user, d, now);
      r.role == GetOr(d, Role, Str("user")) && (r.role != Null ==> Follows(r, d))
  {
    hide GetUsage;
  }

  /** An update from a message with fewer keys. */
  lemma UpdateFollows(r: Row, old_: Message, d: Message, now: int)
    requires Follows(r, old_) && old_.Keys <= d.Keys
    ensures var r' := UpdatedRow(r, d, now);
      (r'.role == Null <==> GetOr(d, Role, Str("user")) == Null) && Follows(if r'.role == Null then r else r', d)
  {
    hide InStep, Defaults, UpdatedRow, GetOr;
    DefaultsWiden(r, old_, d);
    UpdateInStep(r, d, now);
    InStepDefaults(UpdatedRow(r, d, now), d);
    InStepRole(UpdatedRow(r, d, now), d);
    if InStep(r, d) {
      InStepRole(r, d);
    }
  }

  lemma DefaultsWiden(r: Row, old_: Message, d: Message)
    requires Defaults(r, old_) && old_.Keys <= d.Keys
    ensures Defaults(r, d)
  {
  }

  lemma UpdateInStep(r: Row, d: Message, now: int)
    requires Defaults(r, d)
    ensures InStep(UpdatedRow(r, d, now), d)
  {
    hide GetUsage;
  }

  lemma InStepDefaults(r: Row, d: Message)
    requires InStep(r, d)
    ensures Defaults(r, d)
  {
  }

  lemma InStepRole(r: Row, d: Message)
    requires InStep(r, d)
    ensures r.role == GetOr(d, Role, Str("user"))
  {
  }

  /** New usage values win, old ones stay where there is no new one; owner, chat and
      creation time of an existing row never change. */
  lemma WrittenBookkeeping(rows: Rows, c: Id, m: Id, user: string, d: Message, now: int, k: string)
    ensures var row, exists_, u := WrittenRow(rows, c, m, user, d, now), HasRow(rows, c, m), GetUsage(d);
      && row.updatedAt == now
      && (k in u ==> k in row.usage && row.usage[k] == u[k])
      && (k !in u ==> (k in row.usage <==> exists_ && k in rows[Composite(c, m)].usage))
      && (k in row.usage && k !in u ==> row.usage[k] == rows[Composite(c, m)].usage[k])
      && (if exists_ then
            var old_ := rows[Composite(c, m)];
            row.chatId == old_.chatId && row.userId == old_.userId && row.createdAt == old_.createdAt
          else row.chatId == c && row.userId == user && row.createdAt == GetOr(d, Timestamp, Num(now)))
  {
  }

  // ------------------------------------------------------------ usage, once written

  const TOKENS: set<string> := {"input_tokens", "output_tokens", "total_tokens"}

  /** The first truthy one among four spellings of a count, or zero. */
  function FirstTruthy(u: map<string, Json>, a: string, b: string, c: string, d: string): Json {
    if a in u && Truthy(u[a]) then u[a]
    else if b in u && Truthy(u[b]) then u[b]
    else if c in u && Truthy(u[c]) then u[c]
    else if d in u && Truthy(u[d]) then u[d]
    else Num(0)
  }

  /** `r` holds the token counts of `u`, so far as they are numbers: as OpenAI, Ollama
      or llama.cpp name them, the total as given or as the sum. */
  ghost predicate CountsOf(u: map<string, Json>, r: map<string, Json>) {
    var input := FirstTruthy(u, "input_tokens", "prompt_tokens", "prompt_eval_count", "prompt_n");
    var output := FirstTruthy(u, "output_tokens", "completion_tokens", "eval_count", "predicted_n");
    && TOKENS <= r.Keys
    && (input.Num? ==> r["input_tokens"] == input)
    && (output.Num? ==> r["output_tokens"] == output)
    && if "total_tokens" in u && Truthy(u["total_tokens"])
       then u["total_tokens"].Num? ==> r["total_tokens"] == u["total_tokens"]
       else input.Num? && output.Num? ==> r["total_tokens"] == Num(input.n + output.n)
  }

  /** `r` is `was` overlaid with `u` and its token counts. */
  ghost predicate UsageMerged(was: map<string, Json>, u: map<string, Json>, r: map<string, Json>) {
    && CountsOf(u, r)
    && forall k :: k !in TOKENS ==>
         && (k in r <==> k in u || k in was)
         && (k in u ==> r[k] == u[k])
         && (k in was && k !in u ==> r[k] == was[k])
  }

  /** The message carries the usage `u`: itself or, failing that, under `info`. */
  ghost predicate Carries(d: Message, u: map<string, Json>) {
    var info := Get(d, Info);
    && u != map[]
    && (|| Get(d, Usage) == Obj(u)
        || (!Truthy(Get(d, Usage)) && info.Obj? && "usage" in info.m && info.m["usage"] == Obj(u)))
  }

  ghost predicate CarriesNone(d: Message) {
    var info := Get(d, Info);
    !Truthy(Get(d, Usage)) && !(info.Obj? && "usage" in info.m && Truthy(info.m["usage"]))
  }

  /** The usage after a write is the old one overlaid with what the message carries. */
  ghost predicate UsageRecorded(was: map<string, Json>, d: Message, r: map<string, Json>) {
    && (forall u :: Carries(d, u) ==> UsageMerged(was, u, r))
    && (CarriesNone(d) ==> r == was)
  }

  function UsageOf(rows: Rows, c: Id, m: Id): map<string, Json> {
    if Composite(c, m) in rows then rows[Composite(c, m)].usage else map[]
  }

  lemma CountsNormalized(u: map<string, Json>)
    requires u != map[]
    ensures CountsOf(u, NormalizeUsage(u))
    ensures forall k :: k !in TOKENS ==> (k in NormalizeUsage(u) <==> k in u) && (k in u ==> NormalizeUsage(u)[k] == u[k])
  {
    NormalizeIs(u);
    var input, output := Count(FirstOf(u, INPUT_KEYS)), Count(FirstOf(u, OUTPUT_KEYS));
    SetTokensEffect(u, input, output, TotalOf(u, input, output));
    FirstOfFour(u, "input_tokens", "prompt_tokens", "prompt_eval_count", "prompt_n");
    FirstOfFour(u, "output_tokens", "completion_tokens", "eval_count", "predicted_n");
    hide NormalizeUsage, SetTokens, FirstOf, FirstTruthy;
  }

  lemma FirstOfNext(u: map<string, Json>, k: string, keys: seq<string>)
    ensures FirstOf(u, [k] + keys) == if k in u && Truthy(u[k]) then u[k] else FirstOf(u, keys)
  {
    assert ([k] + keys)[1..] == keys;
  }

  lemma FirstOfFour(u: map<string, Json>, a: string, b: string, c: string, d: string)
    ensures FirstOf(u, [a, b, c, d]) == FirstTruthy(u, a, b, c, d)
  {
    hide FirstOf;
    FirstOfNext(u, a, [b, c, d]);
    FirstOfNext(u, b, [c, d]);
    FirstOfNext(u, c, [d]);
    FirstOfNext(u, d, []);
    assert [a, b, c, d] == [a] + [b, c, d] && [b, c, d] == [b] + [c, d] && [c, d] == [c] + [d] && [d] + [] == [d];
    assert FirstOf(u, []) == Num(0) by { FirstOfNone(u); }
  }

  lemma FirstOfNone(u: map<string, Json>)
    ensures FirstOf(u, []) == Num(0)
  {
  }

  lemma OverlayMerged(was: map<string, Json>, u: map<string, Json>)
    requires u != map[]
    ensures UsageMerged(was, u, was + NormalizeUsage(u))
  {
    CountsNormalized(u);
    var n := NormalizeUsage(u);
    assert forall k :: k in TOKENS ==> (was + n)[k] == n[k];
    hide NormalizeUsage, FirstTruthy;
  }

  /** The usage of a written row, whether the message carries it itself, under `info`,
      or not at all. */
  lemma WrittenUsage(rows: Rows, c: Id, m: Id, user: string, d: Message, now: int)
    ensures UsageRecorded(UsageOf(rows, c, m), d, WrittenRow(rows, c, m, user, d, now).usage)
  {
    var was, r := UsageOf(rows, c, m), WrittenRow(rows, c, m, user, d, now);
    assert r.usage == was + GetUsage(d);
    forall u | Carries(d, u) ensures UsageMerged(was, u, r.usage) {
      assert GetUsage(d) == NormalizeUsage(u);
      OverlayMerged(was, u);
    }
    assert CarriesNone(d) ==> GetUsage(d) == map[];
  }

  /** The parent column takes a truthy `parent_id`; failing that, `parentId`, but only
      when the row is inserted or the message has a `parent_id` key: a later change of
      `parentId` alone never reaches the row. */
  lemma ParentColumn(rows: Rows, c: Id, m: Id, user: string, d: Message, now: int)
    ensures var row := WrittenRow(rows, c, m, user, d, now);
      && row.parentId == (if ParentIdSnake in d && Truthy(d[ParentIdSnake]) then d[ParentIdSnake]
                          else if ParentIdSnake in d || !HasRow(rows, c, m) then Get(d, ParentId)
                          else rows[Composite(c, m)].parentId)
      && (row.parentId == Get(d, ParentId) <==>
            if ParentIdSnake in d && Truthy(d[ParentIdSnake]) then d[ParentIdSnake] == Get(d, ParentId)
            else ParentIdSnake in d || !HasRow(rows, c, m) || rows[Composite(c, m)].parentId == Get(d, ParentId))
  {
  }

  // ----------------------------------------------------------------- rebuild

  /** The value a column contributes under its JSON key. */
  function Column(r: Row, k: Key): Json {
    match k
    case Role => r.role
    case ParentId => r.parentId
    case Content => r.content
    case Output => r.output
    case Model => r.modelId
    case Files => r.files
    case Sources => r.sources
    case Embeds => r.embeds
    case Done => r.done
    case StatusHistory => r.statusHistory
    case Error => r.error
    case Usage => if r.usage == map[] then Null else Obj(r.usage)
    case Timestamp => r.createdAt
    case _ => Null
  }

  const COLUMN_KEYS: set<Key> :=
    {Role, ParentId, Content, Output, Model, Files, Sources, Embeds, Done, StatusHistory, Error, Usage, Timestamp}

  /** The entries of the dictionary rebuilt from one row, before child lists are
      added: non-null columns, a content that is never missing, and the usage
      mirrored under `info`. */
  function Cell(r: Row, m: Id, k: Key): Json {
    match k
    case Id => Str(m)
    case Content => if r.content.Null? then Str("") else r.content
    case Info => if r.usage == map[] then Null else Obj(map["usage" := Obj(r.usage)])
    case _ => Column(r, k)
  }

  /** `msg` is the dictionary rebuilt from row `r`, child list aside. */
  ghost predicate FromRow(msg: Message, r: Row, m: Id) {
    forall k :: k != ChildrenIds ==> Get(msg, k) == Cell(r, m, k) && (k in msg ==> msg[k] != Null)
  }

  /** The same told column by column, without the child list: a dictionary with the
      row's values, an empty content where the row has none, and the usage twice. */
  ghost predicate ReadsAs(msg: Message, r: Row, m: Id) {
    ReadsText(msg, r, m) && ReadsStatus(msg, r) && ReadsUsage(msg, r) && NoOtherSpelling(msg)
  }

  ghost predicate ReadsText(msg: Message, r: Row, m: Id) {
    && Get(msg, Id) == Str(m)
    && Get(msg, ParentId) == r.parentId
    && Get(msg, Role) == r.role
    && Get(msg, Content) == (if r.content == Null then Str("") else r.content)
    && Get(msg, Output) == r.output
    && Get(msg, Model) == r.modelId
    && Get(msg, Timestamp) == r.createdAt
  }

  ghost predicate ReadsStatus(msg: Message, r: Row) {
    && Get(msg, Files) == r.files
    && Get(msg, Sources) == r.sources
    && Get(msg, Embeds) == r.embeds
    && Get(msg, Done) == r.done
    && Get(msg, StatusHistory) == r.statusHistory
    && Get(msg, Error) == r.error
  }

  ghost predicate ReadsUsage(msg: Message, r: Row) {
    if r.usage == map[] then Usage !in msg && Info !in msg
    else Get(msg, Usage) == Obj(r.usage) && Get(msg, Info) == Obj(map["usage" := Obj(r.usage)])
  }

  ghost predicate NoOtherSpelling(msg: Message) {
    ParentIdSnake !in msg && ModelId !in msg && StatusHistorySnake !in msg && forall n :: Other(n) !in msg
  }

  lemma RowReadsAs(msg: Message, r: Row, m: Id)
    requires FromRow(msg, r, m)
    ensures ReadsAs(msg, r, m)
  {
    assert forall k :: k != ChildrenIds ==> Get(msg, k) == Cell(r, m, k);
    assert forall k :: k in msg && k != ChildrenIds ==> msg[k] != Null;
    hide *;
    TextReads(msg, r, m);
    StatusReads(msg, r, m);
    UsageReads(msg, r, m);
    NoOtherReads(msg, r, m);
    assert ReadsAs(msg, r, m) by { AllReads(msg, r, m); }
  }

  lemma AllReads(msg: Message, r: Row, m: Id)
    requires ReadsText(msg, r, m) && ReadsStatus(msg, r) && ReadsUsage(msg, r) && NoOtherSpelling(msg)
    ensures ReadsAs(msg, r, m)
  {
  }

  lemma TextReads(msg: Message, r: Row, m: Id)
    requires forall k :: k != ChildrenIds ==> Get(msg, k) == Cell(r, m, k)
    ensures ReadsText(msg, r, m)
  {
    hide Get;
  }

  lemma StatusReads(msg: Message, r: Row, m: Id)
    requires forall k :: k != ChildrenIds ==> Get(msg, k) == Cell(r, m, k)
    ensures ReadsStatus(msg, r)
  {
    hide Get;
  }

  lemma UsageReads(msg: Message, r: Row, m: Id)
    requires forall k :: k != ChildrenIds ==> Get(msg, k) == Cell(r, m, k)
    requires forall k :: k in msg && k != ChildrenIds ==> msg[k] != Null
    ensures ReadsUsage(msg, r)
  {
    assert Get(msg, Usage) == Cell(r, m, Usage) && Get(msg, Info) == Cell(r, m, Info);
  }

  lemma NoOtherReads(msg: Message, r: Row, m: Id)
    requires forall k :: k != ChildrenIds ==> Get(msg, k) == Cell(r, m, k)
    requires forall k :: k in msg && k != ChildrenIds ==> msg[k] != Null
    ensures NoOtherSpelling(msg)
  {
    forall k | k in {ParentIdSnake, ModelId, StatusHistorySnake} || k.Other? ensures k !in msg {
      assert Get(msg, k) == Cell(r, m, k) && Cell(r, m, k) == Null;
    }
  }

  /** The columns outside `todo` are restored under key `k`. */
  ghost predicate Restored(msg: Message, r: Row, m: Id, todo: set<Key>, k: Key) {
    && Get(msg, k) == (if k == Id then Str(m) else if k in todo then Null else Column(r, k))
    && (k in msg ==> k !in todo && msg[k] != Null)
  }

  lemma NoOtherColumns(r: Row)
    ensures Id !in COLUMN_KEYS && forall k :: k !in COLUMN_KEYS ==> Column(r, k) == Null
  {
  }

  lemma RestoredAll(msg: Message, r: Row, m: Id)
    requires forall k :: Restored(msg, r, m, {}, k)
    ensures Get(msg, Id) == Str(m) && forall k :: k != Id ==> Get(msg, k) == Column(r, k)
    ensures forall k :: k in msg ==> msg[k] != Null
  {
    forall k ensures k != Id ==> Get(msg, k) == Column(r, k) {
      assert Restored(msg, r, m, {}, k);
    }
    forall k | k in msg ensures msg[k] != Null {
      assert Restored(msg, r, m, {}, k);
    }
    assert Restored(msg, r, m, {}, Id);
  }

  lemma FinishedFromRow(msg: Message, r: Row, m: Id)
    requires Get(msg, Id) == Str(m) && forall k :: k != Id ==> Get(msg, k) == Column(r, k)
    requires forall k :: k in msg ==> msg[k] != Null
    ensures var filled := if Content in msg then msg else msg[Content := Str("")];
      var full := if Usage in filled then filled[Info := Obj(map["usage" := filled[Usage]])] else filled;
      FromRow(full, r, m) && ChildrenIds !in full
  {
    assert Get(msg, ChildrenIds) == Column(r, ChildrenIds) && Get(msg, Info) == Column(r, Info);
    assert Get(msg, Usage) == Column(r, Usage) && Get(msg, Content) == Column(r, Content);
  }

  /** What the fast path promises: the messages are the chat's rows with the id
      prefix stripped, columns restored, and child lists inverting the parents. */
  ghost predicate IsRebuild(rows: Rows, c: Id, mm: MessageMap) {
    && (forall m :: m in mm <==> HasRow(rows, c, m))
    && (forall m :: m in mm ==>
          && ChildrenIds in mm[m] && mm[m][ChildrenIds].List?
          && FromRow(mm[m], rows[Composite(c, m)], m))
    && (forall p :: p in mm ==> NoDup(Kids(mm[p])))
    && Linked(mm)
  }

  lemma RebuildReadsAs(rows: Rows, c: Id, mm: MessageMap)
    requires IsRebuild(rows, c, mm)
    ensures forall m :: m in mm ==> HasRow(rows, c, m) && ReadsAs(mm[m], rows[Composite(c, m)], m)
  {
    forall m | m in mm ensures ReadsAs(mm[m], rows[Composite(c, m)], m) {
      RowReadsAs(mm[m], rows[Composite(c, m)], m);
    }
    hide FromRow, ReadsAs, Linked;
  }

  class ChatMessageTable {
    var rows: Rows

    constructor ()
      ensures rows == map[]
    {
      rows := map[];
    }

    method UpsertMessage(messageId: Id, chatId: Id, userId: string, data: Message, now: int)
      modifies this
      ensures rows == UpsertRow(old(rows), chatId, messageId, userId, data, now)
      ensures GetOr(data, Role, if HasRow(old(rows), chatId, messageId) then old(rows)[Composite(chatId, messageId)].role else Str("user")) != Null ==>
                HasRow(rows, chatId, messageId) &&
                UsageRecorded(UsageOf(old(rows), chatId, messageId), data, rows[Composite(chatId, messageId)].usage)
    {
      WrittenUsage(rows, chatId, messageId, userId, data, now);
      hide UsageRecorded;
      var compositeId := Composite(chatId, messageId);
      if compositeId in rows {
        var existing := AssignText(rows[compositeId], data);
        existing := AssignStatus(existing, data);
        var usage := GetUsage(data);
        if usage != map[] { existing := existing.(usage := existing.usage + usage); }
        assert existing.usage == rows[compositeId].usage + usage;
        existing := existing.(updatedAt := now);
        if !existing.role.Null? { rows := rows[compositeId := existing]; }
      } else {
        var message := InsertedRow(chatId, userId, data, now);
        if !message.role.Null? { rows := rows[compositeId := message]; }
      }
    }

    static method AssignText(row: Row, data: Message) returns (existing: Row)
      ensures var u := UpdatedRow(row, data, 0);
        existing == row.(role := u.role, parentId := u.parentId, content := u.content, output := u.output, modelId := u.modelId)
    {
      existing := row;
      if Role in data { existing := existing.(role := data[Role]); }
      if ParentIdSnake in data {
        existing := existing.(parentId := Or(Get(data, ParentIdSnake), Get(data, ParentId)));
      }
      if Content in data { existing := existing.(content := data[Content]); }
      if Output in data { existing := existing.(output := data[Output]); }
      if ModelId in data || Model in data {
        existing := existing.(modelId := Or(Get(data, ModelId), Get(data, Model)));
      }
    }

    static method AssignStatus(row: Row, data: Message) returns (existing: Row)
      ensures var u := UpdatedRow(row, data, 0);
        existing == row.(files := u.files, sources := u.sources, embeds := u.embeds, done := u.done,
                         statusHistory := u.statusHistory, error := u.error)
    {
      existing := row;
      if Files in data { existing := existing.(files := data[Files]); }
      if Sources in data { existing := existing.(sources := data[Sources]); }
      if Embeds in data { existing := existing.(embeds := data[Embeds]); }
      if Done in data { existing := existing.(done := data[Done]); }
      if StatusHistorySnake in data || StatusHistory in data {
        existing := existing.(statusHistory := Or(Get(data, StatusHistorySnake), Get(data, StatusHistory)));
      }
      if Error in data { existing := existing.(error := data[Error]); }
    }

    /** `SELECT ... WHERE chat_id = c`, in whatever order the database returns. */
    method SelectByChat(chatId: Id) returns (ids: seq<string>)
      ensures NoDup(ids)
      ensures forall k :: k in ids <==> k in rows && rows[k].chatId == chatId
    {
      ids := [];
      var todo := rows.Keys;
      while todo != {}
        invariant todo <= rows.Keys && NoDup(ids)
        invariant forall k :: k in ids <==> k in rows && k !in todo && rows[k].chatId == chatId
        decreases todo
      {
        var k :| k in todo;
        if rows[k].chatId == chatId {
          NoDupAppend(ids, k);
          ids := ids + [k];
        }
        todo := todo - {k};
      }
    }

    /** Rebuilds the dictionary of one row, column by column, in any order. */
    static method RebuildMessage(r: Row, m: Id) returns (msg: Message)
      ensures FromRow(msg, r, m) && ReadsAs(msg, r, m) && ChildrenIds !in msg
    {
      msg := map[Id := Str(m)];
      var todo := COLUMN_KEYS;
      NoOtherColumns(r);
      while todo != {}
        invariant todo <= COLUMN_KEYS && forall k :: Restored(msg, r, m, todo, k)
        decreases todo
      {
        hide Column, COLUMN_KEYS;
        var key :| key in todo;
        assert Restored(msg, r, m, todo, key);
        var val := Column(r, key);
        ghost var before, left := msg, todo;
        if !val.Null? { msg := msg[key := val]; }
        todo := todo - {key};
        forall k ensures Restored(msg, r, m, todo, k) {
          assert Restored(before, r, m, left, k);
        }
      }
      RestoredAll(msg, r, m);
      FinishedFromRow(msg, r, m);
      hide *;
      if Content !in msg { msg := msg[Content := Str("")]; }
      if Usage in msg { msg := msg[Info := Obj(map["usage" := msg[Usage]])]; }
      RowReadsAs(msg, r, m);
    }

    /** The fast path: rows to messages, then children from parents. */
    method GetMessagesMap(chatId: Id) returns (result: Option<MessageMap>)
      requires TableOk(rows) && |chatId| == UUID_LENGTH
      ensures result.None? <==> forall m :: !HasRow(rows, chatId, m)
      ensures result.Some? ==> IsRebuild(rows, chatId, result.value)
      ensures result.Some? ==> forall m :: m in result.value ==>
                HasRow(rows, chatId, m) && ReadsAs(result.value[m], rows[Composite(chatId, m)], m)
    {
      var ids := SelectByChat(chatId);
      if ids == [] {
        forall m | HasRow(rows, chatId, m) ensures Composite(chatId, m) in ids {
          RowBelongsToChat(rows, chatId, m);
        }
        return None;
      }
      assert ids[0] in ids;
      assert HasRow(rows, chatId, StripPrefix(chatId, ids[0]));
      var order, plain := RebuildAll(chatId, ids);
      var linked := LinkChildren(order, plain);
      var mm := FillChildren(order, linked);
      SameButKidsTransitive(plain, linked, mm);
      RebuiltFromRows(rows, chatId, plain, mm);
      result := Some(mm);
      RebuildReadsAs(rows, chatId, mm);
    }

    method RebuildAll(chatId: Id, ids: seq<string>) returns (order: seq<Id>, mm: MessageMap)
      requires TableOk(rows) && |chatId| == UUID_LENGTH
      requires NoDup(ids) && forall k :: k in ids <==> k in rows && rows[k].chatId == chatId
      ensures NoDup(order) && forall m :: m in order <==> m in mm
      ensures forall m :: m in mm <==> HasRow(rows, chatId, m)
      ensures forall m :: m in mm ==>
                HasRow(rows, chatId, m) && FromRow(mm[m], rows[Composite(chatId, m)], m) && ChildrenIds !in mm[m]
    {
      order, mm := [], map[];
      for i := 0 to |ids|
        invariant NoDup(order) && forall m :: m in order <==> m in mm
        invariant forall m :: m in mm <==> HasRow(rows, chatId, m) && Composite(chatId, m) in ids[..i]
        invariant forall m :: m in mm ==>
                    HasRow(rows, chatId, m) && FromRow(mm[m], rows[Composite(chatId, m)], m) && ChildrenIds !in mm[m]
      {
        var m := StripPrefix(chatId, ids[i]);
        assert ids[i] in ids;
        assert ids[i] == Composite(chatId, m);
        var msg := RebuildMessage(rows[ids[i]], m);
        assert m !in mm by {
          assert ids[i] !in ids[..i];
        }
        NoDupAppend(order, m);
        forall m' ensures Composite(chatId, m') == Composite(chatId, m) ==> m' == m {
          CompositeInjective(chatId, m', chatId, m);
        }
        order, mm := order + [m], mm[m := msg];
      }
      forall m | HasRow(rows, chatId, m) ensures m in mm {
        RowBelongsToChat(rows, chatId, m);
      }
    }
  }

  /** Listed so far: the children among the first messages of the iteration. */
  ghost predicate ListedFrom(mm: MessageMap, done_: seq<Id>) {
    forall p, k :: p in mm ==> (k in Kids(mm[p]) <==> k.Str? && k.s in done_ && IsChild(mm, k.s, p))
  }

  /** Only child lists differ. */
  ghost predicate SameButKids(mm: MessageMap, mm': MessageMap) {
    && mm.Keys == mm'.Keys
    && forall m, k :: m in mm && k != ChildrenIds ==> (k in mm[m] <==> k in mm'[m]) && Get(mm[m], k) == Get(mm'[m], k)
  }

  /** Lists are lists and hold no duplicates. */
  ghost predicate ListsOk(mm: MessageMap) {
    forall m :: m in mm ==> (ChildrenIds in mm[m] ==> mm[m][ChildrenIds].List?) && NoDup(Kids(mm[m]))
  }

  lemma SameChildren(mm: MessageMap, mm': MessageMap)
    requires SameButKids(mm, mm')
    ensures forall c, p :: IsChild(mm, c, p) <==> IsChild(mm', c, p)
  {
    forall c, p ensures IsChild(mm, c, p) <==> IsChild(mm', c, p) {
      if c in mm {
        assert Get(mm[c], ParentId) == Get(mm'[c], ParentId);
      }
    }
  }

  /** `parent['childrenIds']` becomes `kids`. */
  function SetKids(mm: MessageMap, p: Id, kids: seq<Json>): (mm': MessageMap)
    requires p in mm
  {
    mm[p := mm[p][ChildrenIds := List(kids)]]
  }

  lemma SetKidsEffect(mm: MessageMap, p: Id, kids: seq<Json>)
    requires p in mm
    ensures SameButKids(mm, SetKids(mm, p, kids))
    ensures Kids(SetKids(mm, p, kids)[p]) == kids
  {
  }

  /** One step of the walk: the child is listed unless it already is. */
  function ListChild(mm: MessageMap, m: Id): MessageMap
    requires m in mm
  {
    var p := Parent(mm[m]);
    if p.Some? && p.value in mm && Str(m) !in Kids(mm[p.value])
    then SetKids(mm, p.value, Kids(mm[p.value]) + [Str(m)])
    else mm
  }

  lemma ListChildKeeps(mm: MessageMap, m: Id, before: seq<Id>)
    requires m in mm && ListsOk(mm) && ListedFrom(mm, before)
    ensures SameButKids(mm, ListChild(mm, m)) && ListsOk(ListChild(mm, m))
    ensures ListedFrom(ListChild(mm, m), before + [m])
  {
    var p := Parent(mm[m]);
    if p.Some? && p.value in mm && Str(m) !in Kids(mm[p.value]) {
      ListedUnder(mm, m, p.value, before);
    } else {
      assert ListChild(mm, m) == mm;
      ListedAlready(mm, m, before);
    }
  }

  lemma ListedAlready(mm: MessageMap, m: Id, before: seq<Id>)
    requires m in mm && ListedFrom(mm, before)
    requires var p := Parent(mm[m]); p.Some? && p.value in mm ==> Str(m) in Kids(mm[p.value])
    ensures ListedFrom(mm, before + [m]) && SameButKids(mm, mm)
  {
  }

  lemma ListedUnder(mm: MessageMap, m: Id, p: Id, before: seq<Id>)
    requires m in mm && p in mm && Parent(mm[m]) == Some(p) && Str(m) !in Kids(mm[p])
    requires ListsOk(mm) && ListedFrom(mm, before)
    ensures var mm' := SetKids(mm, p, Kids(mm[p]) + [Str(m)]);
      SameButKids(mm, mm') && ListsOk(mm') && ListedFrom(mm', before + [m])
  {
    var kids := Kids(mm[p]) + [Str(m)];
    var mm' := SetKids(mm, p, kids);
    NoDupAppend(Kids(mm[p]), Str(m));
    SetKidsEffect(mm, p, kids);
    SameChildren(mm, mm');
    forall q, k | q in mm' ensures k in Kids(mm'[q]) <==> k.Str? && k.s in before + [m] && IsChild(mm', k.s, q) {
      assert k in Kids(mm[q]) <==> k.Str? && k.s in before && IsChild(mm, k.s, q);
      assert q != p ==> mm'[q] == mm[q];
    }
    hide SameButKids, IsChild;
  }

  /** The walk so far. */
  ghost predicate WalkedTo(plain: MessageMap, mm: MessageMap, before: seq<Id>) {
    SameButKids(plain, mm) && ListsOk(mm) && ListedFrom(mm, before)
  }

  lemma PlainStart(plain: MessageMap)
    requires forall m :: m in plain ==> ChildrenIds !in plain[m]
    ensures WalkedTo(plain, plain, [])
  {
  }

  lemma WalkStep(plain: MessageMap, mm: MessageMap, before: seq<Id>, m: Id)
    requires WalkedTo(plain, mm, before) && m in mm
    ensures WalkedTo(plain, ListChild(mm, m), before + [m])
  {
    ListChildKeeps(mm, m, before);
    hide ListsOk, ListedFrom, ListChild;
    SameButKidsTransitive(plain, mm, ListChild(mm, m));
  }

  /** The loop body: `parent['childrenIds']` is created or extended in place. */
  method ListUnderParent(mm: MessageMap, msgId: Id) returns (mm': MessageMap)
    requires msgId in mm
    ensures mm' == ListChild(mm, msgId) && mm'.Keys == mm.Keys
  {
    mm' := mm;
    var parentId := Parent(mm[msgId]);
    if parentId.Some? && parentId.value in mm {
      var parent := mm[parentId.value];
      var children := Kids(parent);
      if Str(msgId) !in children {
        mm' := mm[parentId.value := parent[ChildrenIds := List(children + [Str(msgId)])]];
      }
    }
  }

  /** The child lists are filled by walking the messages once, in any order. */
  method LinkChildren(order: seq<Id>, plain: MessageMap) returns (mm: MessageMap)
    requires forall m :: m in order <==> m in plain
    requires forall m :: m in plain ==> ChildrenIds !in plain[m]
    ensures SameButKids(plain, mm) && ListsOk(mm) && Linked(mm)
  {
    hide *;
    mm := plain;
    PlainStart(plain);
    assert order[..0] == [];
    for i := 0 to |order|
      invariant mm.Keys == plain.Keys && WalkedTo(plain, mm, order[..i])
    {
      assert order[i] in order;
      WalkStep(plain, mm, order[..i], order[i]);
      assert order[..i + 1] == order[..i] + [order[i]];
      mm := ListUnderParent(mm, order[i]);
    }
    assert order[..|order|] == order;
    ListedAll(plain, mm, order);
  }

  lemma ListedAll(plain: MessageMap, mm: MessageMap, order: seq<Id>)
    requires WalkedTo(plain, mm, order) && forall m :: m in order <==> m in mm
    ensures SameButKids(plain, mm) && ListsOk(mm) && Linked(mm)
  {
  }

  lemma SameButKidsTransitive(a: MessageMap, b: MessageMap, c: MessageMap)
    requires SameButKids(a, b) && SameButKids(b, c)
    ensures SameButKids(a, c)
  {
    forall m, k | m in a && k != ChildrenIds
      ensures (k in a[m] <==> k in c[m]) && Get(a[m], k) == Get(c[m], k)
    {
      assert Get(a[m], k) == Get(b[m], k);
    }
  }

  lemma SameKidsLinked(mm: MessageMap, mm': MessageMap)
    requires SameButKids(mm, mm') && Linked(mm)
    requires forall m :: m in mm ==> Kids(mm'[m]) == Kids(mm[m])
    ensures Linked(mm')
  {
    SameChildren(mm, mm');
    forall p, k | p in mm' ensures ListsRight(mm', p, k, {}, None, {}) {
      assert ListsRight(mm, p, k, {}, None, {});
    }
  }

  lemma FillStep(mm: MessageMap, m: Id)
    requires m in mm && ChildrenIds !in mm[m] && ListsOk(mm)
    ensures var mm' := SetKids(mm, m, []);
      SameButKids(mm, mm') && ListsOk(mm') && forall x :: x in mm ==> Kids(mm'[x]) == Kids(mm[x])
  {
    SetKidsEffect(mm, m, []);
  }

  /** Leaves get an empty child list. */
  method FillChildren(order: seq<Id>, linked: MessageMap) returns (mm: MessageMap)
    requires forall m :: m in order <==> m in linked
    requires ListsOk(linked) && Linked(linked)
    ensures SameButKids(linked, mm) && ListsOk(mm) && Linked(mm)
    ensures forall m :: m in mm ==> ChildrenIds in mm[m]
  {
    mm := linked;
    for i := 0 to |order|
      invariant SameButKids(linked, mm) && ListsOk(mm) && Linked(mm)
      invariant forall m :: m in order[..i] ==> ChildrenIds in mm[m]
    {
      var m := order[i];
      assert m in order;
      if ChildrenIds !in mm[m] {
        FillStep(mm, m);
        SameButKidsTransitive(linked, mm, SetKids(mm, m, []));
        SameKidsLinked(mm, SetKids(mm, m, []));
        mm := mm[m := mm[m][ChildrenIds := List([])]];
      }
    }
    assert order[..|order|] == order;
  }

  lemma RebuiltFromRows(rows: Rows, c: Id, plain: MessageMap, mm: MessageMap)
    requires forall m :: m in plain <==> HasRow(rows, c, m)
    requires forall m :: m in plain ==> HasRow(rows, c, m) && FromRow(plain[m], rows[Composite(c, m)], m)
    requires SameButKids(plain, mm) && ListsOk(mm) && Linked(mm)
    requires forall m :: m in mm ==> ChildrenIds in mm[m]
    ensures IsRebuild(rows, c, mm)
  {
    forall m | m in mm ensures FromRow(mm[m], rows[Composite(c, m)], m) {
      assert SameButKids(plain, mm) && FromRow(plain[m], rows[Composite(c, m)], m);
      forall k | k != ChildrenIds ensures Get(mm[m], k) == Cell(rows[Composite(c, m)], m, k) && (k in mm[m] ==> mm[m][k] != Null) {
        assert Get(plain[m], k) == Get(mm[m], k);
      }
    }
  }
}
