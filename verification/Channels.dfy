/** Channel membership, and the lookup of a direct-message channel by counting. */
module Channels {
  import opened Collections
  import opened Forest

  datatype Member = Member(channelId: Id, userId: string, isActive: bool, status: string)

  datatype Channel = Channel(kind: string, userId: string)

  // ------------------------------------------------------------ the member table

  function UsersOf(rows: seq<Member>, c: Id): set<string> {
    set m | m in rows && m.channelId == c :: m.userId
  }

  /** No user is a member of the same channel twice. */
  ghost predicate UniqueMembers(rows: seq<Member>) {
    forall i, j :: 0 <= i < j < |rows| ==> rows[i].channelId != rows[j].channelId || rows[i].userId != rows[j].userId
  }

  function Joined(c: Id, u: string): Member {
    Member(c, u, true, "joined")
  }

  function Left(m: Member): Member {
    m.(status := "left", isActive := false)
  }

  /** New rows for the given users, in order. */
  function JoinAll(rows: seq<Member>, c: Id, order: seq<string>): seq<Member> {
    if order == [] then rows else JoinAll(rows, c, order[..|order| - 1]) + [Joined(c, order[|order| - 1])]
  }

  /** `order` lists the users, each once, in whatever order the set yields them. */
  ghost predicate Orders(order: seq<string>, users: set<string>) {
    NoDup(order) && Elems(order) == users
  }

  /** The first row of a user in a channel is marked as left; it stays in the table. */
  function MarkLeft(rows: seq<Member>, c: Id, u: string): seq<Member> {
    if rows == [] then []
    else if rows[0].channelId == c && rows[0].userId == u then [Left(rows[0])] + rows[1..]
    else [rows[0]] + MarkLeft(rows[1..], c, u)
  }

  function Removed(rows: seq<Member>, c: Id, us: set<string>): seq<Member> {
    if rows == [] then [] else
    Removed(rows[..|rows| - 1], c, us)
      + (if rows[|rows| - 1].channelId == c && rows[|rows| - 1].userId in us then [] else [rows[|rows| - 1]])
  }

  lemma AppendUnique(rows: seq<Member>, m: Member)
    requires UniqueMembers(rows) && m.userId !in UsersOf(rows, m.channelId)
    ensures UniqueMembers(rows + [m])
    ensures forall c :: UsersOf(rows + [m], c) == UsersOf(rows, c) + (if c == m.channelId then {m.userId} else {})
  {
    forall i | 0 <= i < |rows| ensures rows[i].channelId != m.channelId || rows[i].userId != m.userId {
      assert rows[i] in rows;
    }
    forall c ensures UsersOf(rows + [m], c) == UsersOf(rows, c) + (if c == m.channelId then {m.userId} else {}) {
      forall x ensures x in rows + [m] <==> x in rows || x == m {}
    }
  }

  lemma {:induction false} JoinAllUnique(rows: seq<Member>, c: Id, order: seq<string>)
    requires UniqueMembers(rows) && NoDup(order) && Elems(order) !! UsersOf(rows, c)
    ensures UniqueMembers(JoinAll(rows, c, order))
    ensures forall x :: UsersOf(JoinAll(rows, c, order), x) == UsersOf(rows, x) + (if x == c then Elems(order) else {})
  {
    if order != [] {
      var front, last := order[..|order| - 1], order[|order| - 1];
      assert order == front + [last];
      NoDupFront(front, last);
      assert Elems(order) == Elems(front) + {last};
      JoinAllUnique(rows, c, front);
      AppendUnique(JoinAll(rows, c, front), Joined(c, last));
    }
  }

  lemma {:induction false} RemovedExact(rows: seq<Member>, c: Id, us: set<string>)
    requires UniqueMembers(rows)
    ensures UniqueMembers(Removed(rows, c, us))
    ensures forall m :: m in Removed(rows, c, us) <==> m in rows && !(m.channelId == c && m.userId in us)
    ensures forall x :: UsersOf(Removed(rows, c, us), x) == UsersOf(rows, x) - (if x == c then us else {})
  {
    if rows != [] {
      var front, last := rows[..|rows| - 1], rows[|rows| - 1];
      assert rows == front + [last];
      RemovedExact(front, c, us);
      var kept := Removed(front, c, us);
      forall i | 0 <= i < |kept| ensures kept[i].channelId != last.channelId || kept[i].userId != last.userId {
        assert kept[i] in front;
        var j :| 0 <= j < |front| && front[j] == kept[i];
        assert rows[j] == front[j];
      }
    }
  }

  lemma {:induction false} MarkLeftKeeps(rows: seq<Member>, c: Id, u: string)
    ensures |MarkLeft(rows, c, u)| == |rows|
    ensures forall i :: 0 <= i < |rows| ==>
              MarkLeft(rows, c, u)[i].channelId == rows[i].channelId && MarkLeft(rows, c, u)[i].userId == rows[i].userId
  {
    if rows != [] {
      MarkLeftKeeps(rows[1..], c, u);
    }
  }

  lemma {:induction false} MarkLeftAt(rows: seq<Member>, c: Id, u: string, i: nat)
    requires i <= |rows| && forall j :: 0 <= j < i ==> !(rows[j].channelId == c && rows[j].userId == u)
    requires i < |rows| ==> rows[i].channelId == c && rows[i].userId == u
    ensures MarkLeft(rows, c, u) == if i < |rows| then rows[i := Left(rows[i])] else rows
  {
    if i > 0 {
      MarkLeftAt(rows[1..], c, u, i - 1);
    }
  }

  lemma SameUsers(rows: seq<Member>, rows': seq<Member>)
    requires |rows| == |rows'|
    requires forall i :: 0 <= i < |rows| ==> rows'[i].channelId == rows[i].channelId && rows'[i].userId == rows[i].userId
    ensures UniqueMembers(rows) ==> UniqueMembers(rows')
    ensures forall c :: UsersOf(rows', c) == UsersOf(rows, c)
  {
    forall c, x ensures x in UsersOf(rows', c) <==> x in UsersOf(rows, c) {
      if x in UsersOf(rows, c) {
        var i :| 0 <= i < |rows| && rows[i].channelId == c && rows[i].userId == x;
        assert rows'[i] in rows';
      }
      if x in UsersOf(rows', c) {
        var i :| 0 <= i < |rows| && rows'[i].channelId == c && rows'[i].userId == x;
        assert rows[i] in rows;
      }
    }
  }

  class ChannelTable {
    var channels: map<Id, Channel>
    var members: seq<Member>

    constructor ()
      ensures Valid() && channels == map[] && members == []
    {
      channels, members := map[], [];
    }

    ghost predicate Valid()
      reads this
    {
      UniqueMembers(members)
    }

    /** Add rows for users that have none in the channel yet. */
    method AddRows(c: Id, users: set<string>)
      requires Valid() && users !! UsersOf(members, c)
      modifies this`members
      ensures Valid() && exists order :: Orders(order, users) && members == JoinAll(old(members), c, order)
      ensures forall x :: UsersOf(members, x) == UsersOf(old(members), x) + (if x == c then users else {})
    {
      var todo := users;
      ghost var order: seq<string> := [];
      while todo != {}
        invariant todo <= users && Orders(order, users - todo) && members == JoinAll(old(members), c, order)
        decreases todo
      {
        var u :| u in todo;
        assert u !in Elems(order);
        NoDupAppend(order, u);
        assert (order + [u])[..|order|] == order;
        members := members + [Joined(c, u)];
        order := order + [u];
        todo := todo - {u};
      }
      assert users - todo == users;
      JoinAllUnique(old(members), c, order);
    }

    /** A new group or direct-message channel starts with the invited users and the
        inviter. */
    method InsertNewChannel(id: Id, kind: string, userId: string, invited: set<string>)
      requires Valid() && id !in channels && UsersOf(members, id) == {}
      modifies this
      ensures Valid() && channels == old(channels)[id := Channel(kind, userId)]
      ensures if kind == "group" || kind == "dm"
              then exists order :: Orders(order, invited + {userId}) && members == JoinAll(old(members), id, order)
              else members == old(members)
      ensures forall x :: UsersOf(members, x) ==
                if x == id && (kind == "group" || kind == "dm") then invited + {userId} else UsersOf(old(members), x)
    {
      if kind == "group" || kind == "dm" {
        AddRows(id, invited + {userId});
      }
      channels := channels[id := Channel(kind, userId)];
    }

    method AddMembers(c: Id, invitedBy: string, users: set<string>) returns (added: set<string>)
      requires Valid()
      modifies this`members
      ensures Valid() && added == users + {invitedBy} - UsersOf(old(members), c)
      ensures exists order :: Orders(order, added) && members == JoinAll(old(members), c, order)
      ensures forall x :: UsersOf(members, x) == UsersOf(old(members), x) + (if x == c then users + {invitedBy} else {})
    {
      var existing := UsersOf(members, c);
      added := users + {invitedBy} - existing;
      AddRows(c, added);
    }

    method JoinChannel(c: Id, u: string)
      requires Valid()
      modifies this`members
      ensures Valid() && members == if u in UsersOf(old(members), c) then old(members) else old(members) + [Joined(c, u)]
      ensures forall x :: UsersOf(members, x) == UsersOf(old(members), x) + (if x == c then {u} else {})
    {
      if u !in UsersOf(members, c) {
        AppendUnique(members, Joined(c, u));
        members := members + [Joined(c, u)];
      }
    }

    method LeaveChannel(c: Id, u: string) returns (found: bool)
      requires Valid()
      modifies this`members
      ensures Valid() && found == (u in UsersOf(old(members), c)) && members == MarkLeft(old(members), c, u)
      ensures forall x :: UsersOf(members, x) == UsersOf(old(members), x)
    {
      found := u in UsersOf(members, c);
      MarkLeftKeeps(members, c, u);
      SameUsers(members, MarkLeft(members, c, u));
      var i := 0;
      while i < |members| && !(members[i].channelId == c && members[i].userId == u)
        invariant i <= |members| && members == old(members)
        invariant forall j :: 0 <= j < i ==> !(members[j].channelId == c && members[j].userId == u)
      {
        i := i + 1;
      }
      MarkLeftAt(members, c, u, i);
      if i < |members| {
        members := members[i := Left(members[i])];
      }
    }

    method RemoveMembers(c: Id, users: set<string>)
      requires Valid()
      modifies this`members
      ensures Valid() && members == Removed(old(members), c, users)
      ensures forall x :: UsersOf(members, x) == UsersOf(old(members), x) - (if x == c then users else {})
    {
      RemovedExact(members, c, users);
      members := Removed(members, c, users);
    }
  }

  // ----------------------------------------------------------- finding a DM channel

  /** `count(user_id)` of one group of rows. */
  function CountRows(rows: seq<Member>, c: Id): nat {
    if rows == [] then 0 else CountRows(rows[..|rows| - 1], c) + (if rows[|rows| - 1].channelId == c then 1 else 0)
  }

  /** `sum(case when user_id in us then 1 else 0)` of one group of rows. */
  function CountMatching(rows: seq<Member>, c: Id, us: set<string>): nat {
    if rows == [] then 0 else
    CountMatching(rows[..|rows| - 1], c, us)
      + (if rows[|rows| - 1].channelId == c && rows[|rows| - 1].userId in us then 1 else 0)
  }

  /** The channels `get_dm_channel_by_user_ids` may return.  Grouping yields a group
      only where there are rows. */
  function Candidates(channels: map<Id, Channel>, rows: seq<Member>, userIds: seq<string>): set<Id> {
    var us := Elems(userIds);
    set c | c in channels && channels[c].kind == "dm" && CountRows(rows, c) > 0
      && CountRows(rows, c) == |us| && CountMatching(rows, c, us) == |us|
  }

  lemma UniqueFront(front: seq<Member>, last: Member)
    requires UniqueMembers(front + [last])
    ensures UniqueMembers(front) && last.userId !in UsersOf(front, last.channelId)
  {
    var rows := front + [last];
    forall i | 0 <= i < |front| ensures front[i].channelId != last.channelId || front[i].userId != last.userId {
      assert rows[i] == front[i] && rows[|front|] == last;
    }
    forall i, j | 0 <= i < j < |front|
      ensures front[i].channelId != front[j].channelId || front[i].userId != front[j].userId
    {
      assert rows[i] == front[i] && rows[j] == front[j];
    }
  }

  lemma {:induction false} CountsAreSizes(rows: seq<Member>, c: Id, us: set<string>)
    requires UniqueMembers(rows)
    ensures CountRows(rows, c) == |UsersOf(rows, c)|
    ensures CountMatching(rows, c, us) == |UsersOf(rows, c) * us|
  {
    if rows == [] {
      assert UsersOf(rows, c) == {};
    } else {
      var front, last := rows[..|rows| - 1], rows[|rows| - 1];
      assert rows == front + [last];
      UniqueFront(front, last);
      CountsAreSizes(front, c, us);
      LastCounts(front, last, c, us);
    }
  }

  lemma LastCounts(front: seq<Member>, last: Member, c: Id, us: set<string>)
    requires UniqueMembers(front) && last.userId !in UsersOf(front, last.channelId)
    ensures var users, one := UsersOf(front, c), if last.channelId == c then 1 else 0;
      && |UsersOf(front + [last], c)| == |users| + one
      && |UsersOf(front + [last], c) * us| == |users * us| + (if last.userId in us then one else 0)
  {
    AppendUnique(front, last);
    hide UsersOf, UniqueMembers;
    if last.channelId == c {
      OneMore(UsersOf(front, c), last.userId, us);
    }
  }

  lemma OneMore(a: set<string>, x: string, us: set<string>)
    requires x !in a
    ensures |a + {x}| == |a| + 1
    ensures |(a + {x}) * us| == |a * us| + (if x in us then 1 else 0)
  {
    assert (a + {x}) * us == a * us + (if x in us then {x} else {});
  }

  /** With unique membership, counting finds exactly the direct-message channels whose
      full member set, active or not, is the requested one; nothing is ever found for
      an empty request. */
  lemma CountingFindsMembers(channels: map<Id, Channel>, rows: seq<Member>, userIds: seq<string>, c: Id)
    requires UniqueMembers(rows)
    ensures c in Candidates(channels, rows, userIds) <==>
            c in channels && channels[c].kind == "dm" && userIds != [] && UsersOf(rows, c) == Elems(userIds)
  {
    var us, members := Elems(userIds), UsersOf(rows, c);
    CountsAreSizes(rows, c, us);
    if userIds == [] { assert us == {}; } else { assert userIds[0] in us; }
    if members == us { assert members * us == us; }
    if |members| == |us| && |members * us| == |us| {
      SubsetSize(members * us, us);
      SubsetSize(members * us, members);
      assert members == us;
    }
  }

  /** The lookup finds a direct-message channel with exactly the requested members
      whenever there is one. */
  method GetDmChannel(table: ChannelTable, userIds: seq<string>) returns (found: Option<Id>)
    requires table.Valid()
    ensures found.Some? ==>
              && found.value in table.channels && table.channels[found.value].kind == "dm"
              && userIds != [] && UsersOf(table.members, found.value) == Elems(userIds)
    ensures found.None? ==>
              forall c :: c in table.channels && table.channels[c].kind == "dm" && userIds != [] ==>
                UsersOf(table.members, c) != Elems(userIds)
  {
    var candidates := Candidates(table.channels, table.members, userIds);
    if candidates == {} {
      forall c ensures c !in Candidates(table.channels, table.members, userIds) {}
      forall c | c in table.channels && table.channels[c].kind == "dm" && userIds != []
        ensures UsersOf(table.members, c) != Elems(userIds)
      {
        CountingFindsMembers(table.channels, table.members, userIds, c);
      }
      return None;
    }
    var c :| c in candidates;
    CountingFindsMembers(table.channels, table.members, userIds, c);
    found := Some(c);
  }

  // ------------------------------------------------------------------- all runs

  datatype Step =
    | Create(id: Id, kind: string, userId: string, invited: set<string>, order: seq<string>)
    | Add(c: Id, invitedBy: string, users: set<string>, order: seq<string>)
    | Join(c: Id, u: string)
    | Leave(c: Id, u: string)
    | Remove(c: Id, users: set<string>)

  datatype State = State(channels: map<Id, Channel>, members: seq<Member>)

  /** A channel gets a new id; sets are walked in some order. */
  ghost predicate Enabled(st: State, s: Step) {
    match s
    case Create(id, _, userId, invited, order) =>
      id !in st.channels && UsersOf(st.members, id) == {} && Orders(order, invited + {userId})
    case Add(c, invitedBy, users, order) => Orders(order, users + {invitedBy} - UsersOf(st.members, c))
    case _ => true
  }

  function Do(st: State, s: Step): State {
    match s
    case Create(id, kind, userId, _, order) =>
      State(st.channels[id := Channel(kind, userId)],
            if kind == "group" || kind == "dm" then JoinAll(st.members, id, order) else st.members)
    case Add(c, _, _, order) => st.(members := JoinAll(st.members, c, order))
    case Join(c, u) => if u in UsersOf(st.members, c) then st else st.(members := st.members + [Joined(c, u)])
    case Leave(c, u) => st.(members := MarkLeft(st.members, c, u))
    case Remove(c, users) => st.(members := Removed(st.members, c, users))
  }

  /** What a step does to the member set of channel `x`. */
  function UsersAfter(st: State, s: Step, x: Id): set<string> {
    match s
    case Create(id, kind, userId, invited, _) =>
      if x == id && (kind == "group" || kind == "dm") then invited + {userId} else UsersOf(st.members, x)
    case Add(c, invitedBy, users, _) => UsersOf(st.members, x) + (if x == c then users + {invitedBy} else {})
    case Join(c, u) => UsersOf(st.members, x) + (if x == c then {u} else {})
    case Leave(_, _) => UsersOf(st.members, x)
    case Remove(c, users) => UsersOf(st.members, x) - (if x == c then users else {})
  }

  lemma StepKeepsUnique(st: State, s: Step)
    requires UniqueMembers(st.members) && Enabled(st, s)
    ensures UniqueMembers(Do(st, s).members)
    ensures forall x :: UsersOf(Do(st, s).members, x) == UsersAfter(st, s, x)
  {
    match s {
      case Create(id, _, _, _, order) =>
        JoinAllUnique(st.members, id, order);
      case Add(c, _, _, order) =>
        JoinAllUnique(st.members, c, order);
      case Join(c, u) =>
        if u !in UsersOf(st.members, c) { AppendUnique(st.members, Joined(c, u)); }
      case Leave(c, u) =>
        MarkLeftKeeps(st.members, c, u);
        SameUsers(st.members, MarkLeft(st.members, c, u));
      case Remove(c, users) =>
        RemovedExact(st.members, c, users);
    }
  }

  ghost predicate Reaches(steps: seq<Step>, st: State)
    decreases |steps|
  {
    if steps == [] then st == State(map[], [])
    else exists before :: Last(steps, before, st)
  }

  ghost predicate Last(steps: seq<Step>, before: State, st: State)
    requires steps != []
    decreases |steps|, 0
  {
    var last := steps[|steps| - 1];
    Reaches(steps[..|steps| - 1], before) && Enabled(before, last) && st == Do(before, last)
  }

  lemma {:induction false} ReachedUnique(steps: seq<Step>, st: State)
    requires Reaches(steps, st)
    ensures UniqueMembers(st.members)
    decreases |steps|
  {
    hide Enabled, Do, UniqueMembers;
    if steps == [] {
      NoMembers();
    } else {
      var before :| Last(steps, before, st);
      ReachedUnique(steps[..|steps| - 1], before);
      StepKeepsUnique(before, steps[|steps| - 1]);
    }
  }

  lemma NoMembers()
    ensures UniqueMembers([])
  {
  }

  /** In every state reached by creating, adding, joining, leaving and removing, the
      counting query finds exactly the direct-message channels with the requested
      member set. */
  lemma EveryReachedStateFinds(steps: seq<Step>, st: State, userIds: seq<string>, c: Id)
    requires Reaches(steps, st)
    ensures c in Candidates(st.channels, st.members, userIds) <==>
            c in st.channels && st.channels[c].kind == "dm" && userIds != [] && UsersOf(st.members, c) == Elems(userIds)
  {
    ReachedUnique(steps, st);
    CountingFindsMembers(st.channels, st.members, userIds, c);
  }

  // ------------------------------------------------------------- who is in, and how

  datatype Standing = Outside | Active | Gone

  /** The table has the user in the channel as an active member, as one who left, or
      not at all. */
  ghost predicate StandsAs(rows: seq<Member>, c: Id, u: string, standing: Standing) {
    match standing
    case Outside => forall m :: m in rows ==> !(m.channelId == c && m.userId == u)
    case Active => exists m :: m in rows && m.channelId == c && m.userId == u && m.isActive && m.status == "joined"
    case Gone => exists m :: m in rows && m.channelId == c && m.userId == u && !m.isActive && m.status == "left"
  }

  /** Only somebody outside comes in, and only a removal lets him come in again:
      joining or being added does nothing for one who left. */
  function StandingAfter(was: Standing, s: Step, c: Id, u: string): Standing {
    match s
    case Create(id, kind, creator, invited, _) =>
      if id == c && (kind == "group" || kind == "dm") && (u == creator || u in invited) then Active else was
    case Add(id, inviter, users, _) => if id == c && (u == inviter || u in users) && was == Outside then Active else was
    case Join(id, user) => if id == c && user == u && was == Outside then Active else was
    case Leave(id, user) => if id == c && user == u && was != Outside then Gone else was
    case Remove(id, users) => if id == c && u in users then Outside else was
  }

  function StandingOver(steps: seq<Step>, c: Id, u: string): Standing {
    if steps == [] then Outside
    else StandingAfter(StandingOver(steps[..|steps| - 1], c, u), steps[|steps| - 1], c, u)
  }

  lemma OutsideUsers(rows: seq<Member>, c: Id, u: string)
    ensures StandsAs(rows, c, u, Outside) <==> u !in UsersOf(rows, c)
  {
  }

  /** With unique membership a user has one standing. */
  lemma OneStanding(rows: seq<Member>, c: Id, u: string, standing: Standing)
    requires UniqueMembers(rows) && StandsAs(rows, c, u, standing)
    ensures StandsAs(rows, c, u, Outside) ==> standing == Outside
    ensures forall m :: m in rows && m.channelId == c && m.userId == u ==>
              if standing == Active then m.isActive && m.status == "joined" else !m.isActive && m.status == "left"
  {
    if m :| m in rows && m.channelId == c && m.userId == u {
      forall m' | m' in rows && m'.channelId == c && m'.userId == u ensures m' == m {
        var i :| 0 <= i < |rows| && rows[i] == m;
        var j :| 0 <= j < |rows| && rows[j] == m';
      }
    }
  }

  /** The first rows stay as they are; those added are active. */
  lemma {:induction false} JoinAllRows(rows: seq<Member>, c: Id, order: seq<string>, m: Member)
    ensures m in JoinAll(rows, c, order) <==>
            m in rows || (m.channelId == c && m.userId in order && m.isActive && m.status == "joined")
  {
    if order != [] {
      var front, last := order[..|order| - 1], order[|order| - 1];
      assert order == front + [last];
      JoinAllRows(rows, c, front, m);
    }
  }

  lemma JoinedStanding(rows: seq<Member>, c: Id, order: seq<string>, c': Id, u: string, was: Standing)
    requires StandsAs(rows, c', u, was) && (was != Outside && c' == c ==> u !in order)
    ensures StandsAs(JoinAll(rows, c, order), c', u, if c' == c && u in order then Active else was)
  {
    var rows' := JoinAll(rows, c, order);
    forall m ensures m in rows' <==> m in rows || (m.channelId == c && m.userId in order && m.isActive && m.status == "joined") {
      JoinAllRows(rows, c, order, m);
    }
    if c' == c && u in order {
      assert Member(c, u, true, "joined") in rows';
    }
    hide JoinAll;
  }

  lemma {:induction false} LeftRows(rows: seq<Member>, c: Id, u: string, m: Member)
    requires UniqueMembers(rows)
    ensures m in MarkLeft(rows, c, u) <==>
            if m.channelId == c && m.userId == u then u in UsersOf(rows, c) && !m.isActive && m.status == "left"
            else m in rows
  {
    if rows != [] {
      var rest := rows[1..];
      assert rows == [rows[0]] + rest;
      forall i, j | 0 <= i < j < |rest| ensures rest[i].channelId != rest[j].channelId || rest[i].userId != rest[j].userId {
        assert rest[i] == rows[i + 1] && rest[j] == rows[j + 1];
      }
      LeftRows(rest, c, u, m);
      if rows[0].channelId == c && rows[0].userId == u {
        forall x | x in rest ensures !(x.channelId == c && x.userId == u) {
          var j :| 0 <= j < |rest| && rest[j] == x;
          assert rows[j + 1] == x;
        }
      }
    }
  }

  /** Each step changes a standing as told. */
  lemma StepStanding(st: State, s: Step, c: Id, u: string, was: Standing)
    requires UniqueMembers(st.members) && Enabled(st, s) && StandsAs(st.members, c, u, was)
    ensures StandsAs(Do(st, s).members, c, u, StandingAfter(was, s, c, u))
  {
    OneStanding(st.members, c, u, was);
    OutsideUsers(st.members, c, u);
    match s {
      case Create(id, kind, creator, invited, order) =>
        if kind == "group" || kind == "dm" { JoinedStanding(st.members, id, order, c, u, was); }
      case Add(id, _, _, order) =>
        JoinedStanding(st.members, id, order, c, u, was);
      case Join(id, user) =>
        if user !in UsersOf(st.members, id) { JoinedStanding(st.members, id, [user], c, u, was); }
      case Leave(id, user) =>
        LeaveStanding(st.members, id, user, c, u, was);
      case Remove(id, users) =>
        RemovedExact(st.members, id, users);
    }
  }

  lemma LeaveStanding(rows: seq<Member>, id: Id, user: string, c: Id, u: string, was: Standing)
    requires UniqueMembers(rows) && StandsAs(rows, c, u, was)
    ensures StandsAs(MarkLeft(rows, id, user), c, u, if id == c && user == u && was != Outside then Gone else was)
  {
    OutsideUsers(rows, c, u);
    forall m ensures m in MarkLeft(rows, id, user) <==>
            if m.channelId == id && m.userId == user then user in UsersOf(rows, id) && !m.isActive && m.status == "left"
            else m in rows
    {
      LeftRows(rows, id, user, m);
    }
    hide MarkLeft, UniqueMembers;
    if id == c && user == u && was != Outside {
      assert Member(c, u, false, "left") in MarkLeft(rows, id, user);
    }
  }

  /** In every reached state each user stands to each channel as the history tells: in,
      if the last thing that counted was coming in, gone after leaving, whatever
      invitations followed, and outside before the first and after a removal. */
  lemma {:induction false} ReachedStanding(steps: seq<Step>, st: State, c: Id, u: string)
    requires Reaches(steps, st)
    ensures StandsAs(st.members, c, u, StandingOver(steps, c, u))
    decreases |steps|
  {
    hide Enabled, Do, UniqueMembers, StandingAfter;
    if steps != [] {
      var before :| Last(steps, before, st);
      ReachedStanding(steps[..|steps| - 1], before, c, u);
      ReachedUnique(steps[..|steps| - 1], before);
      StepStanding(before, steps[|steps| - 1], c, u, StandingOver(steps[..|steps| - 1], c, u));
    }
  }

  /** A channel is what it was created as, by whom it was. */
  function CreatedAs(steps: seq<Step>, id: Id): Option<Channel> {
    if steps == [] then None else
    match steps[|steps| - 1]
    case Create(c, kind, creator, _, _) => if c == id then Some(Channel(kind, creator)) else CreatedAs(steps[..|steps| - 1], id)
    case _ => CreatedAs(steps[..|steps| - 1], id)
  }

  /** In every reached state the channels are those created, and none ever changes. */
  lemma {:induction false} ReachedChannels(steps: seq<Step>, st: State, id: Id)
    requires Reaches(steps, st)
    ensures CreatedAs(steps, id) == if id in st.channels then Some(st.channels[id]) else None
    decreases |steps|
  {
    hide Enabled;
    if steps != [] {
      var before :| Last(steps, before, st);
      ReachedChannels(steps[..|steps| - 1], before, id);
    }
  }

  /** Doubled membership defeats counting: one user stored twice passes for two. */
  lemma DoubledMemberMatches(u: string, v: string)
    requires u != v
    ensures var rows := [Joined("c", u), Joined("c", u)];
      && CountRows(rows, "c") == |{u, v}| && CountMatching(rows, "c", {u, v}) == |{u, v}|
      && UsersOf(rows, "c") != {u, v}
  {
    var rows := [Joined("c", u), Joined("c", u)];
    assert rows[..1] == [Joined("c", u)] && rows[..1][..0] == [];
    assert CountRows(rows[..1], "c") == 1 && CountMatching(rows[..1], "c", {u, v}) == 1;
    assert v in {u, v} && v !in UsersOf(rows, "c");
  }
}
