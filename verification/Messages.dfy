/** Message dictionaries of the chat JSON, and the forest they form. */
module Messages {
  import opened Json
  import opened Forest
  import opened Collections

  /** The dictionary keys the backend looks at; `ParentIdSnake`, `ModelId` and
      `StatusHistorySnake` are the alternative spellings `parent_id`, `model_id`
      and `status_history`. */
  datatype Key =
    | Id | ParentId | ParentIdSnake | ChildrenIds
    | Role | Content | Output | Model | ModelId
    | Files | Sources | Embeds | Done
    | StatusHistory | StatusHistorySnake | Error | Usage | Info | Timestamp
    | Other(name: string)

  type Message = map<Key, Json>

  /** `data.get(k)` */
  function Get(m: Message, k: Key): Json {
    if k in m then m[k] else Null
  }

  /** `data.get(k, d)` */
  function GetOr(m: Message, k: Key, d: Json): Json {
    if k in m then m[k] else d
  }

  /** A pointer that is followed: a non-empty string. */
  function Pointer(j: Json): Option<Id> {
    if j.Str? && j.s != "" then Some(j.s) else None
  }

  function Parent(m: Message): Option<Id> {
    Pointer(Get(m, ParentId))
  }

  function Kids(m: Message): seq<Json> {
    if ChildrenIds in m && m[ChildrenIds].List? then m[ChildrenIds].xs else []
  }

  type MessageMap = map<Id, Message>

  /** The parent pointers of a message map, dangling ones included. */
  function Parents(ms: MessageMap): (par: map<Id, Id>)
    ensures forall c :: c in par <==> c in ms && Parent(ms[c]).Some?
  {
    map c | c in ms && Parent(ms[c]).Some? :: Parent(ms[c]).value
  }

  /** The message carries the id it is filed under; its child list, if it has one,
      is a list without duplicates. */
  ghost predicate ShapedAs(msg: Message, m: Id) {
    && m != ""
    && Get(msg, Id) == Str(m)
    && (ChildrenIds in msg ==> msg[ChildrenIds].List?)
    && NoDup(Kids(msg))
  }

  ghost predicate Shaped(ms: MessageMap) {
    forall m :: m in ms ==> ShapedAs(ms[m], m)
  }

  ghost predicate IsChild(ms: MessageMap, c: Id, p: Id) {
    c in ms && Parent(ms[c]) == Some(p)
  }

  /** `p` lists `k` exactly when `k` names a child of `p`; except that the messages
      in `unlisted` are not yet listed, and `host` already lists the messages of
      `announced` that are not stored yet. */
  ghost predicate ListsRight(ms: MessageMap, p: Id, k: Json, unlisted: set<Id>, host: Option<Id>, announced: set<Id>)
    requires p in ms
  {
    k in Kids(ms[p]) <==>
      k.Str? && ((IsChild(ms, k.s, p) && k.s !in unlisted)
                 || (host == Some(p) && k.s in announced && k.s !in ms))
  }

  /** The two link directions agree, up to the exceptions of `ListsRight`. */
  ghost predicate LinkedBut(ms: MessageMap, unlisted: set<Id>, host: Option<Id>, announced: set<Id>) {
    forall p, k :: p in ms ==> ListsRight(ms, p, k, unlisted, host, announced)
  }

  /** `c` is in `p.childrenIds` exactly when `c.parentId` is `p`. */
  ghost predicate Linked(ms: MessageMap) {
    LinkedBut(ms, {}, None, {})
  }

  /** A doubly linked forest. */
  ghost predicate IsForest(ms: MessageMap) {
    Shaped(ms) && Linked(ms) && Acyclic(Parents(ms))
  }

  /** Parent references that lead out of the map. */
  function Unresolved(ms: MessageMap): set<Id> {
    set m | m in ms && Parent(ms[m]).Some? && Parent(ms[m]).value !in ms :: Parent(ms[m]).value
  }

  // ------------------------------------------------------- counting child lists

  ghost function ChildrenOf(ms: MessageMap, ps: set<Id>): set<Id> {
    set c | c in ms && Parent(ms[c]).Some? && Parent(ms[c]).value in ps
  }

  lemma KidsCount(ms: MessageMap, p: Id)
    requires Linked(ms) && p in ms && NoDup(Kids(ms[p]))
    ensures |Kids(ms[p])| == |ChildrenOf(ms, {p})|
  {
    var kids := Kids(ms[p]);
    forall k | k in kids ensures k.Str? && IsChild(ms, k.s, p) {
      assert ListsRight(ms, p, k, {}, None, {});
    }
    var ids := seq(|kids|, i requires 0 <= i < |kids| => assert kids[i] in kids; kids[i].s);
    forall i, j | 0 <= i < j < |ids| ensures ids[i] != ids[j] {
      assert kids[i] != kids[j] && kids[i] in kids && kids[j] in kids;
    }
    NoDupCardinality(ids);
    forall c ensures c in Elems(ids) <==> c in ChildrenOf(ms, {p}) {
      assert ListsRight(ms, p, Str(c), {}, None, {});
      if c in ids {
        var i :| 0 <= i < |ids| && ids[i] == c;
        assert kids[i] in kids;
      }
      if Str(c) in kids {
        var i :| 0 <= i < |kids| && kids[i] == Str(c);
        assert ids[i] == c;
      }
    }
    assert Elems(ids) == ChildrenOf(ms, {p});
  }

  /** Sum of the lengths of the child lists of `ps`. */
  ghost function TotalKids(ms: MessageMap, ps: seq<Id>): nat
    requires forall p :: p in ps ==> p in ms
  {
    if ps == [] then 0 else TotalKids(ms, ps[..|ps| - 1]) + |Kids(ms[ps[|ps| - 1]])|
  }

  /** The child lists together name exactly the messages whose parent is present,
      each once. */
  lemma {:induction false} ChildListsTotal(ms: MessageMap, ps: seq<Id>)
    requires Linked(ms) && (forall p :: p in ms ==> NoDup(Kids(ms[p])))
    requires NoDup(ps) && forall p :: p in ps ==> p in ms
    ensures TotalKids(ms, ps) == |ChildrenOf(ms, Elems(ps))|
  {
    if ps == [] {
      assert ChildrenOf(ms, Elems(ps)) == {};
    } else {
      var front, p := ps[..|ps| - 1], ps[|ps| - 1];
      assert ps == front + [p];
      NoDupFront(front, p);
      ChildListsTotal(ms, front);
      KidsCount(ms, p);
      assert ChildrenOf(ms, Elems(ps)) == ChildrenOf(ms, Elems(front)) + ChildrenOf(ms, {p});
      assert ChildrenOf(ms, Elems(front)) !! ChildrenOf(ms, {p});
    }
  }
}
