/** Access grants: the legacy dictionary form, the grant table, and the queries that
    all have to answer the same question. */
module AccessGrants {
  import opened Collections

  datatype Principal = User | Group | OtherPrincipal(name: string)

  datatype Permission = Read | Write | OtherPermission(name: string)

  const EVERYBODY := "*"

  datatype Grant = Grant(resourceType: string, resourceId: Id, principal: Principal, principalId: string, permission: Permission)

  predicate Valid(g: Grant) {
    !g.principal.OtherPrincipal? && !g.permission.OtherPermission?
  }

  predicate PublicRead(g: Grant) {
    g.principal == User && g.principalId == EVERYBODY && g.permission == Read
  }

  predicate About(g: Grant, rt: string, rid: Id) {
    g.resourceType == rt && g.resourceId == rid
  }

  // ------------------------------------------------------- the legacy dictionary

  datatype Holders = Holders(groupIds: Option<seq<string>>, userIds: Option<seq<string>>)

  /** `Null` is public, `Dict(None, None)` is `{}`. */
  datatype AccessControl = Null | Dict(read: Option<Holders>, write: Option<Holders>)

  function GroupIds(h: Option<Holders>): seq<string> {
    if h.Some? && h.value.groupIds.Some? then h.value.groupIds.value else []
  }

  function UserIds(h: Option<Holders>): seq<string> {
    if h.Some? && h.value.userIds.Some? then h.value.userIds.value else []
  }

  function GrantsFor(rt: string, rid: Id, p: Principal, ids: seq<string>, perm: Permission): (gs: seq<Grant>)
    ensures |gs| == |ids|
  {
    seq(|ids|, i requires 0 <= i < |ids| => Grant(rt, rid, p, ids[i], perm))
  }

  function PermissionGrants(rt: string, rid: Id, h: Option<Holders>, perm: Permission): seq<Grant> {
    GrantsFor(rt, rid, Group, GroupIds(h), perm) + GrantsFor(rt, rid, User, UserIds(h), perm)
  }

  /** `access_control_to_grants` */
  function ToGrants(rt: string, rid: Id, ac: AccessControl): seq<Grant> {
    match ac
    case Null => if rt != "file" then [Grant(rt, rid, User, EVERYBODY, Read)] else []
    case Dict(read, write) => PermissionGrants(rt, rid, read, Read) + PermissionGrants(rt, rid, write, Write)
  }

  /** The ids `grants_to_access_control` lists under one permission. */
  function Listed(gs: seq<Grant>, p: Principal, perm: Permission): seq<string> {
    if gs == [] then [] else
    var before, g := Listed(gs[..|gs| - 1], p, perm), gs[|gs| - 1];
    if g.principal == p && g.permission == perm && !PublicRead(g) && g.principalId !in before then before + [g.principalId] else before
  }

  function ListedBoth(gs: seq<Grant>, perm: Permission): Option<Holders> {
    Some(Holders(Some(Listed(gs, Group, perm)), Some(Listed(gs, User, perm))))
  }

  /** `grants_to_access_control` */
  function FromGrants(gs: seq<Grant>): AccessControl {
    if gs == [] then Dict(None, None)
    else if exists g :: g in gs && PublicRead(g) then Null
    else Dict(ListedBoth(gs, Read), ListedBoth(gs, Write))
  }

  method AccessControlToGrants(rt: string, rid: Id, ac: AccessControl) returns (grants: seq<Grant>)
    ensures grants == ToGrants(rt, rid, ac)
  {
    grants := [];
    match ac {
      case Null =>
        if rt != "file" { grants := [Grant(rt, rid, User, EVERYBODY, Read)]; }
      case Dict(read, write) =>
        grants := AppendGrants(grants, rt, rid, Group, GroupIds(read), Read);
        grants := AppendGrants(grants, rt, rid, User, UserIds(read), Read);
        grants := AppendGrants(grants, rt, rid, Group, GroupIds(write), Write);
        grants := AppendGrants(grants, rt, rid, User, UserIds(write), Write);
    }
  }

  method AppendGrants(before: seq<Grant>, rt: string, rid: Id, p: Principal, ids: seq<string>, perm: Permission)
    returns (grants: seq<Grant>)
    ensures grants == before + GrantsFor(rt, rid, p, ids, perm)
  {
    grants := before;
    for i := 0 to |ids|
      invariant grants == before + GrantsFor(rt, rid, p, ids[..i], perm)
    {
      grants := grants + [Grant(rt, rid, p, ids[i], perm)];
      assert GrantsFor(rt, rid, p, ids[..i + 1], perm) == GrantsFor(rt, rid, p, ids[..i], perm) + [Grant(rt, rid, p, ids[i], perm)];
    }
    assert ids[..|ids|] == ids;
  }

  method GrantsToAccessControl(gs: seq<Grant>) returns (ac: AccessControl)
    ensures ac == FromGrants(gs)
  {
    if gs == [] { return Dict(None, None); }
    var readGroups, readUsers, writeGroups, writeUsers: seq<string> := [], [], [], [];
    var isPublic := false;
    for i := 0 to |gs|
      invariant isPublic <==> exists g :: g in gs[..i] && PublicRead(g)
      invariant readGroups == Listed(gs[..i], Group, Read) && readUsers == Listed(gs[..i], User, Read)
      invariant writeGroups == Listed(gs[..i], Group, Write) && writeUsers == Listed(gs[..i], User, Write)
    {
      var g := gs[i];
      assert gs[..i + 1][..i] == gs[..i] && gs[..i + 1] == gs[..i] + [g];
      if PublicRead(g) {
        isPublic := true;
      } else if g.permission == Read || g.permission == Write {
        if g.principal == Group {
          if g.permission == Read {
            if g.principalId !in readGroups { readGroups := readGroups + [g.principalId]; }
          } else if g.principalId !in writeGroups { writeGroups := writeGroups + [g.principalId]; }
        } else if g.principal == User {
          if g.permission == Read {
            if g.principalId !in readUsers { readUsers := readUsers + [g.principalId]; }
          } else if g.principalId !in writeUsers { writeUsers := writeUsers + [g.principalId]; }
        }
      }
    }
    assert gs[..|gs|] == gs;
    if isPublic { return Null; }
    ac := Dict(Some(Holders(Some(readGroups), Some(readUsers))), Some(Holders(Some(writeGroups), Some(writeUsers))));
  }

  // -------------------------------------------------------------- round trips

  /** First occurrences only. */
  function Dedup(s: seq<string>): seq<string> {
    if s == [] then [] else
    var before := Dedup(s[..|s| - 1]);
    if s[|s| - 1] in before then before else before + [s[|s| - 1]]
  }

  /** The normal form of a legacy dictionary. */
  function Normal(rt: string, ac: AccessControl): AccessControl {
    match ac
    case Null => if rt == "file" then Dict(None, None) else Null
    case Dict(r, w) =>
      if EVERYBODY in UserIds(r) then Null
      else if GroupIds(r) == [] && UserIds(r) == [] && GroupIds(w) == [] && UserIds(w) == [] then Dict(None, None)
      else Dict(Some(Holders(Some(Dedup(GroupIds(r))), Some(Dedup(UserIds(r))))),
                Some(Holders(Some(Dedup(GroupIds(w))), Some(Dedup(UserIds(w))))))
  }

  /** Adding grants of another kind lists nothing new. */
  lemma {:induction false} ListedOther(gs: seq<Grant>, rt: string, rid: Id, q: Principal, ids: seq<string>, perm: Permission, p: Principal, want: Permission)
    requires q != p || perm != want
    ensures Listed(gs + GrantsFor(rt, rid, q, ids, perm), p, want) == Listed(gs, p, want)
  {
    var more := GrantsFor(rt, rid, q, ids, perm);
    if ids == [] {
      assert gs + more == gs;
    } else {
      var front := ids[..|ids| - 1];
      assert (gs + more)[..|gs + more| - 1] == gs + GrantsFor(rt, rid, q, front, perm);
      ListedOther(gs, rt, rid, q, front, perm, p, want);
    }
  }

  /** Adding grants of the wanted kind lists their ids once each. */
  lemma {:induction false} ListedOwn(gs: seq<Grant>, rt: string, rid: Id, p: Principal, ids: seq<string>, perm: Permission)
    requires Listed(gs, p, perm) == [] && (p == User && perm == Read ==> EVERYBODY !in ids)
    ensures Listed(gs + GrantsFor(rt, rid, p, ids, perm), p, perm) == Dedup(ids)
  {
    var more := GrantsFor(rt, rid, p, ids, perm);
    if ids == [] {
      assert gs + more == gs;
    } else {
      var front := ids[..|ids| - 1];
      assert (gs + more)[..|gs + more| - 1] == gs + GrantsFor(rt, rid, p, front, perm);
      ListedOwn(gs, rt, rid, p, front, perm);
      assert ids[|ids| - 1] in ids;
    }
  }

  lemma ListedRead(rt: string, rid: Id, r: Option<Holders>, w: Option<Holders>)
    requires EVERYBODY !in UserIds(r)
    ensures var gs := ToGrants(rt, rid, Dict(r, w));
      Listed(gs, Group, Read) == Dedup(GroupIds(r)) && Listed(gs, User, Read) == Dedup(UserIds(r))
  {
    var none: seq<Grant> := [];
    var a := none + GrantsFor(rt, rid, Group, GroupIds(r), Read);
    var b := a + GrantsFor(rt, rid, User, UserIds(r), Read);
    var c := b + GrantsFor(rt, rid, Group, GroupIds(w), Write);
    var d := c + GrantsFor(rt, rid, User, UserIds(w), Write);
    assert d == ToGrants(rt, rid, Dict(r, w));
    ListedOwn(none, rt, rid, Group, GroupIds(r), Read);
    ListedOther(none, rt, rid, Group, GroupIds(r), Read, User, Read);
    ListedOther(a, rt, rid, User, UserIds(r), Read, Group, Read);
    ListedOwn(a, rt, rid, User, UserIds(r), Read);
    ListedOther(b, rt, rid, Group, GroupIds(w), Write, Group, Read);
    ListedOther(b, rt, rid, Group, GroupIds(w), Write, User, Read);
    ListedOther(c, rt, rid, User, UserIds(w), Write, Group, Read);
    ListedOther(c, rt, rid, User, UserIds(w), Write, User, Read);
  }

  lemma ListedWrite(rt: string, rid: Id, r: Option<Holders>, w: Option<Holders>)
    ensures var gs := ToGrants(rt, rid, Dict(r, w));
      Listed(gs, Group, Write) == Dedup(GroupIds(w)) && Listed(gs, User, Write) == Dedup(UserIds(w))
  {
    var none: seq<Grant> := [];
    var a := none + GrantsFor(rt, rid, Group, GroupIds(r), Read);
    var b := a + GrantsFor(rt, rid, User, UserIds(r), Read);
    var c := b + GrantsFor(rt, rid, Group, GroupIds(w), Write);
    var d := c + GrantsFor(rt, rid, User, UserIds(w), Write);
    assert d == ToGrants(rt, rid, Dict(r, w));
    ListedOther(none, rt, rid, Group, GroupIds(r), Read, Group, Write);
    ListedOther(none, rt, rid, Group, GroupIds(r), Read, User, Write);
    ListedOther(a, rt, rid, User, UserIds(r), Read, Group, Write);
    ListedOther(a, rt, rid, User, UserIds(r), Read, User, Write);
    ListedOwn(b, rt, rid, Group, GroupIds(w), Write);
    ListedOther(b, rt, rid, Group, GroupIds(w), Write, User, Write);
    ListedOther(c, rt, rid, User, UserIds(w), Write, Group, Write);
    ListedOwn(c, rt, rid, User, UserIds(w), Write);
  }

  lemma GrantsForElems(rt: string, rid: Id, p: Principal, ids: seq<string>, perm: Permission, g: Grant)
    ensures g in GrantsFor(rt, rid, p, ids, perm) <==> g == Grant(rt, rid, p, g.principalId, perm) && g.principalId in ids
  {
    var gs := GrantsFor(rt, rid, p, ids, perm);
    if g == Grant(rt, rid, p, g.principalId, perm) && g.principalId in ids {
      var i :| 0 <= i < |ids| && ids[i] == g.principalId;
      assert gs[i] == g;
    }
  }

  /** A grant comes out of a dictionary exactly if the dictionary lists it. */
  lemma ToGrantsElems(rt: string, rid: Id, r: Option<Holders>, w: Option<Holders>, g: Grant)
    ensures g in ToGrants(rt, rid, Dict(r, w)) <==>
            && About(g, rt, rid) && Valid(g)
            && var h := if g.permission == Read then r else w;
            g.principalId in (if g.principal == Group then GroupIds(h) else UserIds(h))
  {
    GrantsForElems(rt, rid, Group, GroupIds(r), Read, g);
    GrantsForElems(rt, rid, User, UserIds(r), Read, g);
    GrantsForElems(rt, rid, Group, GroupIds(w), Write, g);
    GrantsForElems(rt, rid, User, UserIds(w), Write, g);
  }

  /** Converting to grants and back gives the normal form. */
  lemma DictionaryRoundTrip(rt: string, rid: Id, ac: AccessControl)
    ensures FromGrants(ToGrants(rt, rid, ac)) == Normal(rt, ac)
  {
    match ac {
      case Null =>
        var gs := ToGrants(rt, rid, ac);
        if rt != "file" { assert gs[0] in gs && PublicRead(gs[0]); }
      case Dict(r, w) =>
        var gs := ToGrants(rt, rid, ac);
        var public := Grant(rt, rid, User, EVERYBODY, Read);
        ToGrantsElems(rt, rid, r, w, public);
        forall g | g in gs && PublicRead(g) ensures EVERYBODY in UserIds(r) {
          ToGrantsElems(rt, rid, r, w, g);
        }
        if EVERYBODY in UserIds(r) {
          assert public in gs && PublicRead(public);
        } else {
          ListedRead(rt, rid, r, w);
          ListedWrite(rt, rid, r, w);
        }
    }
  }

  lemma {:induction false} ListedElems(gs: seq<Grant>, p: Principal, perm: Permission, id: string)
    ensures id in Listed(gs, p, perm) <==>
            exists g :: g in gs && g.principal == p && g.permission == perm && g.principalId == id && !PublicRead(g)
  {
    if gs != [] {
      var front, last := gs[..|gs| - 1], gs[|gs| - 1];
      assert gs == front + [last];
      ListedElems(front, p, perm, id);
      ListedElems(front, p, perm, last.principalId);
    }
  }

  /** Grants of one resource, turned into a dictionary and back: without a public read
      grant the same set (of valid grants); with one, nothing else is left.  Either
      way no grant is new. */
  lemma GrantsRoundTrip(rt: string, rid: Id, gs: seq<Grant>, g: Grant)
    requires forall x :: x in gs ==> About(x, rt, rid)
    ensures (exists x :: x in gs && PublicRead(x)) ==>
              (g in ToGrants(rt, rid, FromGrants(gs)) <==> rt != "file" && PublicRead(g) && About(g, rt, rid))
    ensures !(exists x :: x in gs && PublicRead(x)) ==>
              (g in ToGrants(rt, rid, FromGrants(gs)) <==> g in gs && Valid(g))
    ensures g in ToGrants(rt, rid, FromGrants(gs)) ==> g in gs
  {
    if x :| x in gs && PublicRead(x) {
      assert x == Grant(rt, rid, User, EVERYBODY, Read);
    } else if gs == [] {
    } else {
      ToGrantsElems(rt, rid, ListedBoth(gs, Read), ListedBoth(gs, Write), g);
      ListedElems(gs, g.principal, g.permission, g.principalId);
      if x :| x in gs && x.principal == g.principal && x.permission == g.permission && x.principalId == g.principalId {
        assert About(g, rt, rid) ==> x == g;
      }
    }
  }

  // ------------------------------------------------------------------ has_access

  /** The grant speaks for everybody, for the user, or for one of the groups. */
  predicate SpeaksFor(g: Grant, user: string, groups: set<string>) {
    || (g.principal == User && g.principalId == EVERYBODY)
    || (g.principal == User && g.principalId == user)
    || (g.principal == Group && g.principalId in groups)
  }

  predicate HasAccess(rows: seq<Grant>, user: string, groups: set<string>, rt: string, rid: Id, perm: Permission) {
    exists g :: g in rows && About(g, rt, rid) && g.permission == perm && SpeaksFor(g, user, groups)
  }

  /** Passing through the legacy form never lets anybody in. */
  lemma RoundTripNeverWidens(rt: string, rid: Id, gs: seq<Grant>, user: string, groups: set<string>, perm: Permission)
    requires forall x :: x in gs ==> About(x, rt, rid)
    requires HasAccess(ToGrants(rt, rid, FromGrants(gs)), user, groups, rt, rid, perm)
    ensures HasAccess(gs, user, groups, rt, rid, perm)
  {
    var back := ToGrants(rt, rid, FromGrants(gs));
    var g :| g in back && About(g, rt, rid) && g.permission == perm && SpeaksFor(g, user, groups);
    GrantsRoundTrip(rt, rid, gs, g);
  }

  /** `get_accessible_resource_ids`: one query over all requested ids; its group
      condition is added only if there are groups. */
  function AccessibleIds(rows: seq<Grant>, user: string, groups: set<string>, rt: string, ids: seq<Id>, perm: Permission): set<Id> {
    if ids == [] then {} else
    set g | g in rows && g.resourceType == rt && g.resourceId in ids && g.permission == perm
      && (|| (g.principal == User && g.principalId == EVERYBODY)
          || (g.principal == User && g.principalId == user)
          || (groups != {} && g.principal == Group && g.principalId in groups)) :: g.resourceId
  }

  /** The batch query returns exactly the requested ids for which the single check
      holds. */
  lemma BatchAgrees(rows: seq<Grant>, user: string, groups: set<string>, rt: string, ids: seq<Id>, perm: Permission, rid: Id)
    ensures rid in AccessibleIds(rows, user, groups, rt, ids, perm) <==>
            rid in ids && HasAccess(rows, user, groups, rt, rid, perm)
  {
    if rid in ids && HasAccess(rows, user, groups, rt, rid, perm) {
      var g :| g in rows && About(g, rt, rid) && g.permission == perm && SpeaksFor(g, user, groups);
      assert g.resourceId in AccessibleIds(rows, user, groups, rt, ids, perm);
    }
    if rid in AccessibleIds(rows, user, groups, rt, ids, perm) {
      var g :| g in rows && g.resourceType == rt && g.resourceId == rid && g.permission == perm
        && (|| (g.principal == User && g.principalId == EVERYBODY)
            || (g.principal == User && g.principalId == user)
            || (groups != {} && g.principal == Group && g.principalId in groups));
      assert SpeaksFor(g, user, groups);
    }
  }

  datatype Document = Document(id: Id, owner: string)

  /** The grant condition of the row filters; the caller decides whether the public
      grant counts. */
  predicate GrantExists(rows: seq<Grant>, doc: Document, user: Option<string>, groups: set<string>, rt: string, perm: Permission, public: bool) {
    exists g :: g in rows && About(g, rt, doc.id) && g.permission == perm &&
      (|| (public && g.principal == User && g.principalId == EVERYBODY)
       || (user.Some? && user.value != "" && g.principal == User && g.principalId == user.value)
       || (g.principal == Group && g.principalId in groups))
  }

  /** `has_permission_filter` */
  predicate Kept(rows: seq<Grant>, doc: Document, user: Option<string>, groups: set<string>, rt: string, perm: Permission) {
    var named := user.Some? && user.value != "";
    if groups == {} && !named then true
    else GrantExists(rows, doc, user, groups, rt, perm, true) || (named && doc.owner == user.value)
  }

  /** With a user, the filter keeps exactly the owned documents and those the user has
      access to. */
  lemma FilterAgrees(rows: seq<Grant>, doc: Document, user: string, groups: set<string>, rt: string, perm: Permission)
    requires user != ""
    ensures Kept(rows, doc, Some(user), groups, rt, perm) <==> doc.owner == user || HasAccess(rows, user, groups, rt, doc.id, perm)
  {
    if HasAccess(rows, user, groups, rt, doc.id, perm) {
      var g :| g in rows && About(g, rt, doc.id) && g.permission == perm && SpeaksFor(g, user, groups);
      assert GrantExists(rows, doc, Some(user), groups, rt, perm, true);
    }
    if GrantExists(rows, doc, Some(user), groups, rt, perm, true) {
      var g :| g in rows && About(g, rt, doc.id) && g.permission == perm &&
        ((g.principal == User && g.principalId == EVERYBODY) || (g.principal == User && g.principalId == user)
         || (g.principal == Group && g.principalId in groups));
      assert SpeaksFor(g, user, groups);
    }
  }

  /** The grant is for everybody or for one of the groups. */
  predicate ForGroups(g: Grant, groups: set<string>) {
    (g.principal == User && g.principalId == "*") || (g.principal == Group && g.principalId in groups)
  }

  /** Without a user the filter keeps what everybody or one of the groups may access, and
      everything if there are no groups either. */
  lemma FilterWithoutUser(rows: seq<Grant>, doc: Document, user: Option<string>, groups: set<string>, rt: string, perm: Permission)
    requires user == None || user == Some("")
    ensures Kept(rows, doc, user, groups, rt, perm) <==>
            || groups == {}
            || exists g :: g in rows && g.resourceType == rt && g.resourceId == doc.id && g.permission == perm && ForGroups(g, groups)
  {
    if GrantExists(rows, doc, user, groups, rt, perm, true) {
      var g :| g in rows && About(g, rt, doc.id) && g.permission == perm && ForGroups(g, groups);
      assert g.resourceType == rt;
    }
    if g :| g in rows && g.resourceType == rt && g.resourceId == doc.id && g.permission == perm && ForGroups(g, groups) {
      assert About(g, rt, doc.id);
    }
  }

  predicate PublicGrant(rows: seq<Grant>, rt: string, rid: Id, perm: Permission) {
    exists g :: g in rows && About(g, rt, rid) && g.permission == perm && g.principal == User && g.principalId == EVERYBODY
  }

  /** `_has_read_only_permission_filter` */
  predicate KeptReadOnly(rows: seq<Grant>, doc: Document, user: string, groups: set<string>, rt: string) {
    && GrantExists(rows, doc, Some(user), groups, rt, Read, false)
    && !GrantExists(rows, doc, Some(user), groups, rt, Write, false)
    && !PublicGrant(rows, rt, doc.id, Read)
    && doc.owner != user
  }

  lemma AccessIsGrantOrPublic(rows: seq<Grant>, doc: Document, user: string, groups: set<string>, rt: string, perm: Permission)
    requires user != ""
    ensures HasAccess(rows, user, groups, rt, doc.id, perm) <==>
            GrantExists(rows, doc, Some(user), groups, rt, perm, false) || PublicGrant(rows, rt, doc.id, perm)
  {
    if HasAccess(rows, user, groups, rt, doc.id, perm) {
      var g :| g in rows && About(g, rt, doc.id) && g.permission == perm && SpeaksFor(g, user, groups);
      if !(g.principal == User && g.principalId == EVERYBODY) {
        assert GrantExists(rows, doc, Some(user), groups, rt, perm, false);
      }
    }
    if GrantExists(rows, doc, Some(user), groups, rt, perm, false) {
      var g :| g in rows && About(g, rt, doc.id) && g.permission == perm &&
        ((g.principal == User && g.principalId == user) || (g.principal == Group && g.principalId in groups));
      assert SpeaksFor(g, user, groups);
    }
    if g :| g in rows && About(g, rt, doc.id) && g.permission == perm && g.principal == User && g.principalId == EVERYBODY {
      assert SpeaksFor(g, user, groups);
    }
  }

  /** Some grant of the document gives the permission to everybody, or else to the user
      or one of the groups by name. */
  ghost predicate Granted(rows: seq<Grant>, rt: string, rid: Id, perm: Permission, user: string, groups: set<string>, toAll: bool) {
    exists g :: g in rows && g.resourceType == rt && g.resourceId == rid && g.permission == perm &&
      if toAll then g.principal == User && g.principalId == "*"
      else (g.principal == User && g.principalId == user) || (g.principal == Group && g.principalId in groups)
  }

  /** What the read-only filter keeps: documents of others that the user, by name or
      group, can read and not write, and that are not readable by everybody. */
  lemma ReadOnlyKeeps(rows: seq<Grant>, doc: Document, user: string, groups: set<string>, rt: string)
    requires user != ""
    ensures KeptReadOnly(rows, doc, user, groups, rt) <==>
            && doc.owner != user
            && Granted(rows, rt, doc.id, Read, user, groups, false) && !Granted(rows, rt, doc.id, Write, user, groups, false)
            && !Granted(rows, rt, doc.id, Read, user, groups, true)
  {
    NamedGranted(rows, doc, user, groups, rt, Read);
    NamedGranted(rows, doc, user, groups, rt, Write);
    if g :| g in rows && About(g, rt, doc.id) && g.permission == Read && g.principal == User && g.principalId == EVERYBODY {
      assert Granted(rows, rt, doc.id, Read, user, groups, true);
    }
    if Granted(rows, rt, doc.id, Read, user, groups, true) {
      var g :| g in rows && g.resourceType == rt && g.resourceId == doc.id && g.permission == Read && g.principal == User && g.principalId == "*";
      assert About(g, rt, doc.id);
    }
    hide Granted, GrantExists;
  }

  lemma NamedGranted(rows: seq<Grant>, doc: Document, user: string, groups: set<string>, rt: string, perm: Permission)
    requires user != ""
    ensures GrantExists(rows, doc, Some(user), groups, rt, perm, false) <==> Granted(rows, rt, doc.id, perm, user, groups, false)
  {
    if GrantExists(rows, doc, Some(user), groups, rt, perm, false) {
      var g :| g in rows && About(g, rt, doc.id) && g.permission == perm &&
        ((g.principal == User && g.principalId == user) || (g.principal == Group && g.principalId in groups));
      assert g.resourceType == rt;
    }
    if Granted(rows, rt, doc.id, perm, user, groups, false) {
      var g :| g in rows && g.resourceType == rt && g.resourceId == doc.id && g.permission == perm &&
        ((g.principal == User && g.principalId == user) || (g.principal == Group && g.principalId in groups));
      assert About(g, rt, doc.id);
    }
  }

  /** The read-only filter keeps documents the user can read and neither owns nor
      shares with everybody.  Such a document may still be writable for the user:
      exactly when a public write grant exists, which the filter overlooks. */
  lemma ReadOnlyAgrees(rows: seq<Grant>, doc: Document, user: string, groups: set<string>, rt: string)
    requires user != "" && user != EVERYBODY
    ensures KeptReadOnly(rows, doc, user, groups, rt) ==>
              && HasAccess(rows, user, groups, rt, doc.id, Read) && doc.owner != user
              && (HasAccess(rows, user, groups, rt, doc.id, Write) <==> PublicGrant(rows, rt, doc.id, Write))
    ensures HasAccess(rows, user, groups, rt, doc.id, Read) && !HasAccess(rows, user, groups, rt, doc.id, Write)
              && !PublicGrant(rows, rt, doc.id, Read) && doc.owner != user
            ==> KeptReadOnly(rows, doc, user, groups, rt)
  {
    AccessIsGrantOrPublic(rows, doc, user, groups, rt, Read);
    AccessIsGrantOrPublic(rows, doc, user, groups, rt, Write);
  }

  /** The filter keeps only documents without write access exactly if it keeps none
      with a public write grant. */
  lemma ReadOnlyExactly(rows: seq<Grant>, docs: set<Document>, user: string, groups: set<string>, rt: string)
    requires user != "" && user != EVERYBODY
    ensures (forall doc :: doc in docs && KeptReadOnly(rows, doc, user, groups, rt) ==> !HasAccess(rows, user, groups, rt, doc.id, Write))
       <==> (forall doc :: doc in docs && KeptReadOnly(rows, doc, user, groups, rt) ==> !PublicGrant(rows, rt, doc.id, Write))
  {
    forall doc | doc in docs && KeptReadOnly(rows, doc, user, groups, rt)
      ensures HasAccess(rows, user, groups, rt, doc.id, Write) <==> PublicGrant(rows, rt, doc.id, Write)
    {
      ReadOnlyAgrees(rows, doc, user, groups, rt);
    }
  }

  /** A document somebody shared for reading with one user, and for writing with
      everybody, is kept as read-only although that user can write it. */
  lemma WritableIsKept(doc: Document, user: string, rt: string)
    requires user != "" && user != EVERYBODY && doc.owner != user
    ensures var rows := [Grant(rt, doc.id, User, user, Read), Grant(rt, doc.id, User, EVERYBODY, Write)];
      KeptReadOnly(rows, doc, user, {}, rt) && HasAccess(rows, user, {}, rt, doc.id, Write)
  {
    var rows := [Grant(rt, doc.id, User, user, Read), Grant(rt, doc.id, User, EVERYBODY, Write)];
    assert rows[0] in rows && rows[1] in rows && SpeaksFor(rows[1], user, {});
    assert GrantExists(rows, doc, Some(user), {}, rt, Read, false);
  }

  /** Existing users with their role, and the members of each group. */
  datatype Directory = Directory(roles: map<string, string>, members: map<string, set<string>>)

  function GroupsOf(d: Directory, user: string): set<string> {
    set g | g in d.members && user in d.members[g]
  }

  /** `get_users_with_access` */
  function UsersWithAccess(rows: seq<Grant>, d: Directory, rt: string, rid: Id, perm: Permission): set<string> {
    if PublicGrant(rows, rt, rid, perm) then
      set u | u in d.roles && d.roles[u] != "pending"
    else
      set u | u in d.roles && exists g :: g in rows && About(g, rt, rid) && g.permission == perm && Names(d, g, u)
  }

  /** The grant names the user or a group the user is a member of. */
  predicate Names(d: Directory, g: Grant, u: string) {
    (g.principal == User && g.principalId == u) || (g.principal == Group && g.principalId in d.members && u in d.members[g.principalId])
  }

  /** The listing is exactly the existing users who have access, less the pending ones
      when the resource is public. */
  lemma ListingAgrees(rows: seq<Grant>, d: Directory, rt: string, rid: Id, perm: Permission, u: string)
    ensures u in UsersWithAccess(rows, d, rt, rid, perm) <==>
            && u in d.roles && HasAccess(rows, u, GroupsOf(d, u), rt, rid, perm)
            && (PublicGrant(rows, rt, rid, perm) ==> d.roles[u] != "pending")
  {
    if PublicGrant(rows, rt, rid, perm) {
      var g :| g in rows && About(g, rt, rid) && g.permission == perm && g.principal == User && g.principalId == EVERYBODY;
      assert SpeaksFor(g, u, GroupsOf(d, u));
    } else if u in d.roles {
      forall g | g in rows && About(g, rt, rid) && g.permission == perm
        ensures SpeaksFor(g, u, GroupsOf(d, u)) <==> Names(d, g, u)
      {
        assert !(g.principal == User && g.principalId == EVERYBODY);
      }
      if HasAccess(rows, u, GroupsOf(d, u), rt, rid, perm) {
        var g :| g in rows && About(g, rt, rid) && g.permission == perm && SpeaksFor(g, u, GroupsOf(d, u));
        assert Names(d, g, u);
      }
      if u in UsersWithAccess(rows, d, rt, rid, perm) {
        var g :| g in rows && About(g, rt, rid) && g.permission == perm && Names(d, g, u);
        assert SpeaksFor(g, u, GroupsOf(d, u));
      }
    }
  }

  // -------------------------------------------------------------- writing grants

  /** One entry of an API payload. */
  datatype RawGrant = NotAGrant | RawGrant(id: Option<string>, principal: Principal, principalId: Option<string>, permission: Permission)

  datatype Entry = Entry(id: Option<string>, principal: Principal, principalId: string, permission: Permission)

  predicate Usable(r: RawGrant) {
    && r.RawGrant? && !r.principal.OtherPrincipal? && !r.permission.OtherPermission?
    && r.principalId.Some? && r.principalId.value != ""
  }

  function ToEntry(r: RawGrant): Entry
    requires Usable(r)
  {
    Entry(if r.id.Some? && r.id.value != "" then r.id else None, r.principal, r.principalId.value, r.permission)
  }

  predicate SameKey(a: Entry, b: Entry) {
    a.principal == b.principal && a.principalId == b.principalId && a.permission == b.permission
  }

  /** `deduped[key] = entry`: an existing key keeps its place and gets the new value. */
  function Put(entries: seq<Entry>, e: Entry): seq<Entry> {
    if entries == [] then [e]
    else if SameKey(entries[0], e) then [e] + entries[1..]
    else [entries[0]] + Put(entries[1..], e)
  }

  function Normalize(payload: seq<RawGrant>): seq<Entry> {
    if payload == [] then [] else
    var before, r := Normalize(payload[..|payload| - 1]), payload[|payload| - 1];
    if Usable(r) then Put(before, ToEntry(r)) else before
  }

  ghost predicate DistinctKeys(entries: seq<Entry>) {
    forall i, j :: 0 <= i < j < |entries| ==> !SameKey(entries[i], entries[j])
  }

  lemma {:induction false} PutEffect(entries: seq<Entry>, e: Entry)
    requires DistinctKeys(entries)
    ensures DistinctKeys(Put(entries, e))
    ensures forall x :: x in Put(entries, e) <==> x == e || (x in entries && !SameKey(x, e))
  {
    if entries == [] {
    } else if SameKey(entries[0], e) {
      forall x ensures x in Put(entries, e) <==> x == e || (x in entries && !SameKey(x, e)) {
        assert entries == [entries[0]] + entries[1..];
        if x in entries[1..] {
          var i :| 0 <= i < |entries[1..]| && entries[1..][i] == x;
          assert entries[i + 1] == x && !SameKey(entries[0], entries[i + 1]);
        }
      }
    } else {
      PutEffect(entries[1..], e);
      var rest := Put(entries[1..], e);
      assert entries == [entries[0]] + entries[1..];
      forall j | 0 <= j < |rest| ensures !SameKey(entries[0], rest[j]) {
        assert rest[j] in rest;
        if rest[j] in entries[1..] {
          var i :| 0 <= i < |entries[1..]| && entries[1..][i] == rest[j];
          assert entries[i + 1] == rest[j];
        }
      }
    }
  }

  /** Normalizing keeps one entry for every usable key, the one written last. */
  lemma {:induction false} NormalizeExact(payload: seq<RawGrant>)
    ensures DistinctKeys(Normalize(payload))
    ensures forall e :: e in Normalize(payload) <==>
              exists i :: 0 <= i < |payload| && Usable(payload[i]) && ToEntry(payload[i]) == e && LastOfKey(payload, i)
  {
    if payload != [] {
      var front, last := payload[..|payload| - 1], payload[|payload| - 1];
      NormalizeExact(front);
      if Usable(last) { PutEffect(Normalize(front), ToEntry(last)); }
      forall e ensures e in Normalize(payload) <==>
              exists i :: 0 <= i < |payload| && Usable(payload[i]) && ToEntry(payload[i]) == e && LastOfKey(payload, i) {
        if e in Normalize(payload) {
          if Usable(last) && e == ToEntry(last) {
            assert LastOfKey(payload, |payload| - 1);
          } else {
            var i :| 0 <= i < |front| && Usable(front[i]) && ToEntry(front[i]) == e && LastOfKey(front, i);
            assert payload[i] == front[i] && LastOfKey(payload, i);
          }
        }
        if i :| 0 <= i < |payload| && Usable(payload[i]) && ToEntry(payload[i]) == e && LastOfKey(payload, i) {
          if i < |front| { assert front[i] == payload[i] && LastOfKey(front, i); }
        }
      }
    }
  }

  /** The entry kept for a key is the last one that asks for it, with its id. */
  lemma LastEntryKept(payload: seq<RawGrant>, e: Entry)
    requires e in Normalize(payload)
    ensures exists i :: 0 <= i < |payload| && Asks(payload[i], e.principal, e.principalId, e.permission)
              && e.id == (if payload[i].id == Some("") then None else payload[i].id)
              && forall j :: i < j < |payload| ==> !Asks(payload[j], e.principal, e.principalId, e.permission)
  {
    NormalizeExact(payload);
    var i :| 0 <= i < |payload| && Usable(payload[i]) && ToEntry(payload[i]) == e && LastOfKey(payload, i);
    hide Normalize;
    assert Asks(payload[i], e.principal, e.principalId, e.permission);
  }

  /** No later entry of the payload has the same key. */
  ghost predicate LastOfKey(payload: seq<RawGrant>, i: nat)
    requires i < |payload| && Usable(payload[i])
  {
    forall j :: i < j < |payload| && Usable(payload[j]) ==> !SameKey(ToEntry(payload[i]), ToEntry(payload[j]))
  }

  function EntryGrants(rt: string, rid: Id, entries: seq<Entry>): (gs: seq<Grant>)
    ensures |gs| == |entries|
  {
    seq(|entries|, i requires 0 <= i < |entries| => Grant(rt, rid, entries[i].principal, entries[i].principalId, entries[i].permission))
  }

  function Others(rows: seq<Grant>, rt: string, rid: Id): seq<Grant> {
    if rows == [] then [] else
    Others(rows[..|rows| - 1], rt, rid) + (if About(rows[|rows| - 1], rt, rid) then [] else [rows[|rows| - 1]])
  }

  /** The payload entry asks for a grant to this principal with this permission. */
  predicate Asks(r: RawGrant, p: Principal, principalId: string, perm: Permission) {
    && r.RawGrant? && r.principal == p && r.principalId == Some(principalId) && r.permission == perm
    && principalId != "" && (p == User || p == Group) && (perm == Read || perm == Write)
  }

  /** The table after the grants of one resource were replaced by those of a payload:
      about that resource exactly what some entry asks for, else as before. */
  ghost predicate Replaced(rows: seq<Grant>, rows': seq<Grant>, rt: string, rid: Id, payload: seq<RawGrant>) {
    forall g :: g in rows' <==>
      if g.resourceType == rt && g.resourceId == rid
      then exists i :: 0 <= i < |payload| && Asks(payload[i], g.principal, g.principalId, g.permission)
      else g in rows
  }

  /** Who asks for what is in the normalized payload, once. */
  lemma {:induction false} NormalizedKeys(payload: seq<RawGrant>, p: Principal, id: string, perm: Permission)
    ensures (exists e :: e in Normalize(payload) && e.principal == p && e.principalId == id && e.permission == perm) <==>
            exists i :: 0 <= i < |payload| && Asks(payload[i], p, id, perm)
  {
    if payload != [] {
      var front, last := payload[..|payload| - 1], payload[|payload| - 1];
      assert payload == front + [last];
      NormalizedKeys(front, p, id, perm);
      NormalizeExact(front);
      if Usable(last) { PutEffect(Normalize(front), ToEntry(last)); }
      assert Asks(last, p, id, perm) <==>
        Usable(last) && ToEntry(last).principal == p && ToEntry(last).principalId == id && ToEntry(last).permission == perm;
      forall e ensures e in Normalize(payload) <==>
        if Usable(last) then e == ToEntry(last) || (e in Normalize(front) && !SameKey(e, ToEntry(last))) else e in Normalize(front) {}
      hide Normalize, Asks, Usable, Put, LastOfKey;
    }
  }

  lemma EntryGrantsExact(rt: string, rid: Id, entries: seq<Entry>, g: Grant)
    ensures g in EntryGrants(rt, rid, entries) <==>
            && g.resourceType == rt && g.resourceId == rid
            && exists e :: e in entries && e.principal == g.principal && e.principalId == g.principalId && e.permission == g.permission
  {
    var gs := EntryGrants(rt, rid, entries);
    if e :| e in entries && e.principal == g.principal && e.principalId == g.principalId && e.permission == g.permission {
      var i :| 0 <= i < |entries| && entries[i] == e;
      assert gs[i] == Grant(rt, rid, e.principal, e.principalId, e.permission);
    }
  }

  lemma PayloadStored(rows: seq<Grant>, rt: string, rid: Id, payload: seq<RawGrant>)
    ensures Replaced(rows, Others(rows, rt, rid) + EntryGrants(rt, rid, Normalize(payload)), rt, rid, payload)
  {
    var kept, more := Others(rows, rt, rid), EntryGrants(rt, rid, Normalize(payload));
    OthersExact(rows, rt, rid);
    hide Others, EntryGrants, Normalize, Asks;
    forall g: Grant ensures g in kept + more <==>
      if g.resourceType == rt && g.resourceId == rid
      then exists i :: 0 <= i < |payload| && Asks(payload[i], g.principal, g.principalId, g.permission)
      else g in rows
    {
      EntryGrantsExact(rt, rid, Normalize(payload), g);
      NormalizedKeys(payload, g.principal, g.principalId, g.permission);
    }
  }

  /** The payload entry names the user, one of the groups, or everybody. */
  predicate LetsIn(r: RawGrant, user: string, groups: set<string>, perm: Permission) {
    && r.RawGrant? && r.permission == perm && r.principalId.Some? && r.principalId.value != ""
    && (|| (r.principal == User && (r.principalId.value == user || r.principalId.value == "*"))
        || (r.principal == Group && r.principalId.value in groups))
  }

  /** Access afterwards: to the resource exactly for those whom some entry of the
      payload lets in, to any other as before. */
  lemma AccessFromPayload(rows: seq<Grant>, rows': seq<Grant>, rt: string, rid: Id, payload: seq<RawGrant>,
                          user: string, groups: set<string>, perm: Permission)
    requires Replaced(rows, rows', rt, rid, payload) && (perm == Read || perm == Write)
    ensures HasAccess(rows', user, groups, rt, rid, perm) <==>
            exists i :: 0 <= i < |payload| && LetsIn(payload[i], user, groups, perm)
    ensures forall rt', rid' :: rt' != rt || rid' != rid ==>
              (HasAccess(rows', user, groups, rt', rid', perm) <==> HasAccess(rows, user, groups, rt', rid', perm))
  {
    if HasAccess(rows', user, groups, rt, rid, perm) {
      var g :| g in rows' && About(g, rt, rid) && g.permission == perm && SpeaksFor(g, user, groups);
      var i :| 0 <= i < |payload| && Asks(payload[i], g.principal, g.principalId, g.permission);
      assert LetsIn(payload[i], user, groups, perm);
    }
    if i :| 0 <= i < |payload| && LetsIn(payload[i], user, groups, perm) {
      var g := Grant(rt, rid, payload[i].principal, payload[i].principalId.value, perm);
      assert Asks(payload[i], g.principal, g.principalId, g.permission);
      assert g in rows' && SpeaksFor(g, user, groups);
    }
    ElsewhereAccess(rows, rows', rt, rid, payload, user, groups, perm);
  }

  lemma ElsewhereAccess(rows: seq<Grant>, rows': seq<Grant>, rt: string, rid: Id, payload: seq<RawGrant>,
                        user: string, groups: set<string>, perm: Permission)
    requires Replaced(rows, rows', rt, rid, payload)
    ensures forall rt', rid' :: rt' != rt || rid' != rid ==>
              (HasAccess(rows', user, groups, rt', rid', perm) <==> HasAccess(rows, user, groups, rt', rid', perm))
  {
    forall rt', rid' | rt' != rt || rid' != rid
      ensures HasAccess(rows', user, groups, rt', rid', perm) <==> HasAccess(rows, user, groups, rt', rid', perm)
    {
      assert forall g :: About(g, rt', rid') ==> (g in rows' <==> g in rows);
    }
  }

  /** The dictionary lists the principal of the grant under its permission; a missing
      dictionary stands for reading by everybody, except for files. */
  ghost predicate InDictionary(ac: AccessControl, g: Grant) {
    match ac
    case Null => g.resourceType != "file" && g.principal == User && g.principalId == "*" && g.permission == Read
    case Dict(r, w) =>
      && (g.permission == Read || g.permission == Write)
      && var h := if g.permission == Read then r else w;
      && h.Some?
      && (|| (g.principal == Group && h.value.groupIds.Some? && g.principalId in h.value.groupIds.value)
          || (g.principal == User && h.value.userIds.Some? && g.principalId in h.value.userIds.value))
  }

  lemma DictionaryStored(rows: seq<Grant>, rt: string, rid: Id, ac: AccessControl)
    ensures forall g: Grant :: g in Others(rows, rt, rid) + ToGrants(rt, rid, ac) <==>
              if g.resourceType == rt && g.resourceId == rid then InDictionary(ac, g) else g in rows
  {
    OthersExact(rows, rt, rid);
    forall g: Grant ensures g in ToGrants(rt, rid, ac) <==> g.resourceType == rt && g.resourceId == rid && InDictionary(ac, g) {
      if ac.Dict? { ToGrantsElems(rt, rid, ac.read, ac.write, g); }
    }
    hide Others, ToGrants, InDictionary;
  }

  lemma {:induction false} OthersExact(rows: seq<Grant>, rt: string, rid: Id)
    ensures forall g :: g in Others(rows, rt, rid) <==> g in rows && !About(g, rt, rid)
    ensures NoDup(rows) ==> NoDup(Others(rows, rt, rid))
  {
    if rows != [] {
      var front, last := rows[..|rows| - 1], rows[|rows| - 1];
      assert rows == front + [last];
      OthersExact(front, rt, rid);
      if NoDup(rows) {
        NoDupFront(front, last);
        if !About(last, rt, rid) { NoDupAppend(Others(front, rt, rid), last); }
      }
    }
  }

  lemma ReplacedNoDup(rows: seq<Grant>, rt: string, rid: Id, more: seq<Grant>)
    requires NoDup(rows) && NoDup(more) && forall g :: g in more ==> About(g, rt, rid)
    ensures NoDup(Others(rows, rt, rid) + more)
  {
    OthersExact(rows, rt, rid);
    var kept := Others(rows, rt, rid);
    forall i, j | 0 <= i < |kept| && 0 <= j < |more| ensures kept[i] != more[j] {
      assert kept[i] in kept && more[j] in more;
    }
  }

  lemma NoDupGrantsFor(rt: string, rid: Id, p: Principal, ids: seq<string>, perm: Permission)
    ensures NoDup(GrantsFor(rt, rid, p, ids, perm)) <==> NoDup(ids)
  {
    var gs := GrantsFor(rt, rid, p, ids, perm);
    if NoDup(gs) {
      forall i, j | 0 <= i < j < |ids| ensures ids[i] != ids[j] { assert gs[i] != gs[j]; }
    }
    if NoDup(ids) {
      forall i, j | 0 <= i < j < |ids| ensures gs[i] != gs[j] { assert ids[i] != ids[j]; }
    }
  }

  lemma NoDupConcat(a: seq<Grant>, b: seq<Grant>)
    requires forall i, j :: 0 <= i < |a| && 0 <= j < |b| ==> a[i] != b[j]
    ensures NoDup(a + b) <==> NoDup(a) && NoDup(b)
  {
    var all := a + b;
    if NoDup(all) {
      forall i, j | 0 <= i < j < |a| ensures a[i] != a[j] { assert all[i] != all[j]; }
      forall i, j | 0 <= i < j < |b| ensures b[i] != b[j] { assert all[|a| + i] != all[|a| + j]; }
    }
  }

  /** A dictionary yields distinct grants exactly when none of its lists repeats an
      id. */
  lemma DistinctGrants(rt: string, rid: Id, r: Option<Holders>, w: Option<Holders>)
    ensures NoDup(ToGrants(rt, rid, Dict(r, w))) <==>
            NoDup(GroupIds(r)) && NoDup(UserIds(r)) && NoDup(GroupIds(w)) && NoDup(UserIds(w))
  {
    NoDupGrantsFor(rt, rid, Group, GroupIds(r), Read);
    NoDupGrantsFor(rt, rid, User, UserIds(r), Read);
    NoDupGrantsFor(rt, rid, Group, GroupIds(w), Write);
    NoDupGrantsFor(rt, rid, User, UserIds(w), Write);
    NoDupConcat(GrantsFor(rt, rid, Group, GroupIds(r), Read), GrantsFor(rt, rid, User, UserIds(r), Read));
    NoDupConcat(GrantsFor(rt, rid, Group, GroupIds(w), Write), GrantsFor(rt, rid, User, UserIds(w), Write));
    NoDupConcat(PermissionGrants(rt, rid, r, Read), PermissionGrants(rt, rid, w, Write));
  }

  class AccessGrantsTable {
    var rows: seq<Grant>

    constructor ()
      ensures rows == []
    {
      rows := [];
    }

    /** The table's uniqueness constraint. */
    predicate Unique()
      reads this
    {
      NoDup(rows)
    }

    method DeleteResource(rt: string, rid: Id)
      modifies this
      ensures rows == Others(old(rows), rt, rid)
    {
      var kept: seq<Grant> := [];
      for i := 0 to |rows|
        invariant rows == old(rows) && kept == Others(rows[..i], rt, rid)
      {
        assert rows[..i + 1][..i] == rows[..i];
        if !About(rows[i], rt, rid) { kept := kept + [rows[i]]; }
      }
      assert rows[..|rows|] == rows;
      rows := kept;
    }

    /** Replace the grants of one resource by the payload's: uniqueness is kept, the
        resource ends up with exactly the usable keys, and no other resource changes. */
    method SetAccessGrants(rt: string, rid: Id, payload: seq<RawGrant>)
      requires Unique()
      modifies this
      ensures Unique() && rows == Others(old(rows), rt, rid) + EntryGrants(rt, rid, Normalize(payload))
      ensures Replaced(old(rows), rows, rt, rid, payload)
    {
      PayloadStored(rows, rt, rid, payload);
      hide Replaced;
      DeleteResource(rt, rid);
      var entries := NormalizePayload(payload);
      NormalizeExact(payload);
      var more := EntryGrants(rt, rid, entries);
      forall i, j | 0 <= i < j < |more| ensures more[i] != more[j] {
        assert !SameKey(entries[i], entries[j]);
      }
      ReplacedNoDup(old(rows), rt, rid, more);
      rows := rows + more;
    }

    /** Replace the grants of one resource from the legacy dictionary.  A repeated id
        violates the constraint: the transaction fails and nothing changes. */
    method SetAccessControl(rt: string, rid: Id, ac: AccessControl) returns (ok: bool)
      requires Unique()
      modifies this
      ensures Unique() && ok == NoDup(ToGrants(rt, rid, ac))
      ensures rows == if ok then Others(old(rows), rt, rid) + ToGrants(rt, rid, ac) else old(rows)
      ensures ok ==> forall g: Grant :: g in rows <==>
                if g.resourceType == rt && g.resourceId == rid then InDictionary(ac, g) else g in old(rows)
    {
      DictionaryStored(rows, rt, rid, ac);
      hide InDictionary;
      var before := rows;
      DeleteResource(rt, rid);
      var more := AccessControlToGrants(rt, rid, ac);
      ok := NoDup(more);
      if ok {
        GrantsAbout(rt, rid, ac);
        ReplacedNoDup(before, rt, rid, more);
        rows := rows + more;
      } else {
        rows := before;
      }
    }

    method GrantAccess(g: Grant)
      requires Unique()
      modifies this
      ensures Unique() && rows == if g in old(rows) then old(rows) else old(rows) + [g]
    {
      if g !in rows {
        NoDupAppend(rows, g);
        rows := rows + [g];
      }
    }
  }

  /** Replacing the grants of one resource decides about that resource alone. */
  lemma ReplacedAccess(rows: seq<Grant>, rt: string, rid: Id, more: seq<Grant>, user: string, groups: set<string>, rt': string, rid': Id, perm: Permission)
    requires forall g :: g in more ==> About(g, rt, rid)
    ensures HasAccess(Others(rows, rt, rid) + more, user, groups, rt', rid', perm) <==>
            HasAccess(if rt' == rt && rid' == rid then more else rows, user, groups, rt', rid', perm)
  {
    OthersExact(rows, rt, rid);
    var kept := Others(rows, rt, rid);
    forall g | About(g, rt', rid')
      ensures g in kept + more <==> g in (if rt' == rt && rid' == rid then more else rows)
    {
      assert g in kept + more <==> g in kept || g in more;
    }
  }

  lemma GrantsAbout(rt: string, rid: Id, ac: AccessControl)
    ensures forall g :: g in ToGrants(rt, rid, ac) ==> About(g, rt, rid)
  {
  }

  method NormalizePayload(payload: seq<RawGrant>) returns (entries: seq<Entry>)
    ensures entries == Normalize(payload)
  {
    entries := [];
    for i := 0 to |payload|
      invariant entries == Normalize(payload[..i])
    {
      assert payload[..i + 1][..i] == payload[..i];
      if Usable(payload[i]) {
        entries := Put(entries, ToEntry(payload[i]));
      }
    }
    assert payload[..|payload|] == payload;
  }
}
