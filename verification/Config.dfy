/** Configuration: one nested dictionary, addressed by dotted paths, with registered
    items that save to it and update from it. */
module Config {
  import opened Collections
  import opened Json

  /** The parts of a dotted path, in order. */
  type Path = seq<string>

  // ------------------------------------------------------------- dotted strings

  /** `s.split('.')` */
  function Split(s: string): (parts: Path)
    ensures parts != []
  {
    if s == "" then [""]
    else
      var rest := Split(s[1..]);
      if s[0] == '.' then [""] + rest else [[s[0]] + rest[0]] + rest[1..]
  }

  function Join(parts: Path): string
    requires parts != []
  {
    if |parts| == 1 then parts[0] else parts[0] + "." + Join(parts[1..])
  }

  /** Splitting loses nothing: different dotted strings are different paths. */
  lemma {:induction false} JoinSplit(s: string)
    ensures Join(Split(s)) == s
  {
    if s != "" {
      JoinSplit(s[1..]);
      var rest := Split(s[1..]);
      if s[0] == '.' {
        assert ([""] + rest)[1..] == rest;
        assert Join(Split(s)) == "" + "." + s[1..];
      } else {
        var parts := [[s[0]] + rest[0]] + rest[1..];
        assert parts[1..] == rest[1..];
        assert Join(parts) == [s[0]] + Join(rest);
      }
    }
  }

  lemma {:induction false} PartsHaveNoDot(s: string)
    ensures forall i :: 0 <= i < |Split(s)| ==> '.' !in Split(s)[i]
  {
    if s != "" { PartsHaveNoDot(s[1..]); }
  }

  /** And joining loses nothing: parts without dots are found again. */
  lemma {:induction false} SplitJoin(parts: Path)
    requires parts != [] && forall i :: 0 <= i < |parts| ==> '.' !in parts[i]
    ensures Split(Join(parts)) == parts
    decreases |parts|, |parts[0]|
  {
    var s := Join(parts);
    if |parts[0]| > 0 {
      var shorter := [parts[0][1..]] + parts[1..];
      assert shorter[1..] == parts[1..];
      SplitJoin(shorter);
      assert s[0] == parts[0][0] && s[0] in parts[0];
      assert s[1..] == Join(shorter);
      assert [s[0]] + parts[0][1..] == parts[0];
    } else if |parts| > 1 {
      SplitJoin(parts[1..]);
      assert s[0] == '.' && s[1..] == Join(parts[1..]);
      assert parts[0] == "";
    }
  }

  // ------------------------------------------------------------ reading a path

  datatype Lookup = Found(value: Json) | Missing | Raises

  predicate IsSubstring(key: string, s: string) {
    exists i :: 0 <= i <= |s| && key <= s[i..]
  }

  /** `if key in cur: cur = cur[key] else: return None`.  Strings and lists understand
      `in` but not a string index; other leaves understand neither. */
  function StepInto(cur: Json, key: string): Lookup {
    match cur
    case Obj(m) => if key in m then Found(m[key]) else Missing
    case Str(s) => if IsSubstring(key, s) then Raises else Missing
    case List(xs) => if Str(key) in xs then Raises else Missing
    case _ => Raises
  }

  /** `get_config_value` */
  function Get(cfg: Json, path: Path): Lookup {
    if path == [] then Found(cfg) else
    var next := StepInto(cfg, path[0]);
    if next.Found? then Get(next.value, path[1..]) else next
  }

  /** One more part: a dictionary has it or not, a string or a list that contains it
      raises, and so does any other leaf. */
  lemma {:induction false} ReadOneMore(cfg: Json, path: Path, key: string)
    ensures Get(cfg, path + [key]) ==
              match Get(cfg, path)
              case Found(Obj(m)) => if key in m then Found(m[key]) else Missing
              case Found(Str(s)) => if exists i, j :: 0 <= i <= j <= |s| && s[i..j] == key then Raises else Missing
              case Found(List(xs)) => if Str(key) in xs then Raises else Missing
              case Found(_) => Raises
              case stopped => stopped
  {
    if path == [] {
      assert Get(cfg, path + [key]) == StepInto(cfg, key) by {
        assert ([key])[1..] == [];
      }
      if cfg.Str? { Substrings(key, cfg.s); }
    } else {
      assert (path + [key])[0] == path[0] && (path + [key])[1..] == path[1..] + [key];
      var next := StepInto(cfg, path[0]);
      if next.Found? { ReadOneMore(next.value, path[1..], key); }
    }
  }

  lemma Substrings(key: string, s: string)
    ensures IsSubstring(key, s) <==> exists i, j :: 0 <= i <= j <= |s| && s[i..j] == key
  {
    if i :| 0 <= i <= |s| && key <= s[i..] {
      assert s[i..i + |key|] == key;
    }
    if i, j :| 0 <= i <= j <= |s| && s[i..j] == key {
      assert key <= s[i..];
    }
  }

  // ------------------------------------------------------------ writing a path

  datatype Written = Done(cfg: Json) | Failed

  /** The dictionary after `sub_config[last] = value`, dictionaries on the way created
      as needed; a leaf on the way raises before anything is changed. */
  function Set(cfg: Json, path: Path, v: Json): Written
    requires path != []
    decreases |path|
  {
    if !cfg.Obj? then Failed
    else if |path| == 1 then Done(Obj(cfg.m[path[0] := v]))
    else
      var sub := if path[0] in cfg.m then cfg.m[path[0]] else Obj(map[]);
      var below := Set(sub, path[1..], v);
      if below.Failed? then Failed else Done(Obj(cfg.m[path[0] := below.cfg]))
  }

  /** The dictionary a save leaves behind, whether or not it raises. */
  function After(cfg: Json, path: Path, v: Json): Json
    requires path != []
  {
    var w := Set(cfg, path, v);
    if w.Done? then w.cfg else cfg
  }

  /** No leaf lies on the way to the last part of the path. */
  predicate Fits(cfg: Json, path: Path) {
    path == [] || (cfg.Obj? && (|path| > 1 && path[0] in cfg.m ==> Fits(cfg.m[path[0]], path[1..])))
  }

  lemma {:induction false} SetIffFits(cfg: Json, path: Path, v: Json)
    requires path != []
    ensures Set(cfg, path, v).Done? <==> Fits(cfg, path)
    decreases |path|
  {
    if cfg.Obj? && |path| > 1 {
      SetIffFits(if path[0] in cfg.m then cfg.m[path[0]] else Obj(map[]), path[1..], v);
    }
  }

  lemma {:induction false} FitsReads(cfg: Json, path: Path)
    requires Fits(cfg, path)
    ensures !Get(cfg, path).Raises?
  {
    if path != [] && path[0] in cfg.m {
      if |path| > 1 {
        FitsReads(cfg.m[path[0]], path[1..]);
      } else {
        assert Get(cfg.m[path[0]], path[1..]) == Found(cfg.m[path[0]]);
      }
    }
  }

  /** Reading at or below the saved path reads the saved value. */
  lemma {:induction false} ReadsSaved(cfg: Json, path: Path, v: Json, rest: Path)
    requires path != [] && Set(cfg, path, v).Done?
    ensures Get(Set(cfg, path, v).cfg, path + rest) == Get(v, rest)
    decreases |path|
  {
    assert (path + rest)[0] == path[0] && (path + rest)[1..] == path[1..] + rest;
    if |path| == 1 {
      assert path[1..] + rest == rest;
    } else {
      ReadsSaved(if path[0] in cfg.m then cfg.m[path[0]] else Obj(map[]), path[1..], v, rest);
    }
  }

  /** Neither path lies on the way to the other. */
  predicate Apart(p: Path, q: Path) {
    !(p <= q) && !(q <= p)
  }

  /** Saving one path changes no path apart from it, and does not get in its way. */
  lemma {:induction false} SavesApart(cfg: Json, p: Path, v: Json, q: Path)
    requires p != [] && Apart(p, q) && Set(cfg, p, v).Done?
    ensures Get(Set(cfg, p, v).cfg, q) == Get(cfg, q)
    ensures Fits(cfg, q) <==> Fits(Set(cfg, p, v).cfg, q)
    decreases |p|
  {
    var cfg' := Set(cfg, p, v).cfg;
    assert q != [];
    if p[0] != q[0] {
      assert q[0] in cfg'.m <==> q[0] in cfg.m;
    } else {
      assert |p| > 1 && |q| > 1 by {
        assert |p| == 1 ==> p <= q;
        assert |q| == 1 ==> q <= p;
      }
      assert Apart(p[1..], q[1..]) by {
        assert p == [p[0]] + p[1..] && q == [q[0]] + q[1..];
      }
      var sub := if p[0] in cfg.m then cfg.m[p[0]] else Obj(map[]);
      SavesApart(sub, p[1..], v, q[1..]);
      if q[0] !in cfg.m {
        assert Get(sub, q[1..]) == Missing && Fits(sub, q[1..]);
      }
    }
  }

  // ------------------------------------------------------- runs refine a flat map

  /** Registered paths: none lies on the way to another. */
  ghost predicate Independent(paths: set<Path>) {
    [] !in paths && forall p, q :: p in paths && q in paths && p != q ==> Apart(p, q)
  }

  ghost predicate AllFit(cfg: Json, paths: set<Path>) {
    forall p :: p in paths ==> Fits(cfg, p)
  }

  /** Saving a sequence of values; a save that raises changes nothing. */
  function SaveAll(cfg: Json, saves: seq<(Path, Json)>): Json
    requires forall s :: s in saves ==> s.0 != []
  {
    if saves == [] then cfg else
    var before, last := SaveAll(cfg, saves[..|saves| - 1]), saves[|saves| - 1];
    After(before, last.0, last.1)
  }

  /** The flat map: the last value saved under a path, or what it was at first. */
  function FlatGet(cfg: Json, saves: seq<(Path, Json)>, p: Path): Lookup {
    if saves == [] then Get(cfg, p)
    else if saves[|saves| - 1].0 == p then Found(saves[|saves| - 1].1)
    else FlatGet(cfg, saves[..|saves| - 1], p)
  }

  /** After any saves of independent paths into a fitting tree, every path reads as in
      a flat map. */
  lemma {:induction false} TreeIsFlatMap(cfg: Json, paths: set<Path>, saves: seq<(Path, Json)>, p: Path)
    requires Independent(paths) && AllFit(cfg, paths) && p in paths
    requires forall s :: s in saves ==> s.0 in paths && s.0 != []
    ensures Get(SaveAll(cfg, saves), p) == FlatGet(cfg, saves, p) && !FlatGet(cfg, saves, p).Raises?
    ensures Fits(SaveAll(cfg, saves), p)
  {
    if saves == [] {
      FitsReads(cfg, p);
    } else {
      var front := saves[..|saves| - 1];
      var (q, v) := saves[|saves| - 1];
      TreeIsFlatMap(cfg, paths, front, p);
      assert saves[|saves| - 1] in saves;
      TreeIsFlatMap(cfg, paths, front, q);
      var before := SaveAll(cfg, front);
      SetIffFits(before, q, v);
      if p == q {
        ReadsSaved(before, q, v, []);
        assert q + [] == q;
        SavedStillFits(before, q, v);
      } else {
        SavesApart(before, q, v, p);
      }
    }
  }

  lemma {:induction false} SavedStillFits(cfg: Json, path: Path, v: Json)
    requires path != [] && Set(cfg, path, v).Done?
    ensures Fits(Set(cfg, path, v).cfg, path)
    decreases |path|
  {
    if |path| > 1 {
      SavedStillFits(if path[0] in cfg.m then cfg.m[path[0]] else Obj(map[]), path[1..], v);
    }
  }

  /** A save leaves a dictionary at every part of the path before the last. */
  lemma {:induction false} ShorterFound(cfg: Json, path: Path, n: nat, v: Json)
    requires n < |path| && Set(cfg, path, v).Done?
    ensures Get(Set(cfg, path, v).cfg, path[..n]).Found?
    decreases |path|
  {
    if n > 0 {
      var sub := if path[0] in cfg.m then cfg.m[path[0]] else Obj(map[]);
      assert path[..n][1..] == path[1..][..n - 1];
      ShorterFound(sub, path[1..], n - 1, v);
    }
  }

  /** In an empty tree any path can be saved and nothing but the root is found. */
  lemma EmptyTree(path: Path, v: Json)
    requires path != []
    ensures Set(Obj(map[]), path, v).Done? && Get(Obj(map[]), path) == Missing
  {
    SetIffFits(Obj(map[]), path, v);
  }

  /** No save to `p` changes what is read at `q`. */
  ghost predicate NeverInterferes(p: Path, q: Path)
    requires p != []
  {
    forall cfg, v :: Set(cfg, p, v).Done? ==> Get(Set(cfg, p, v).cfg, q) == Get(cfg, q)
  }

  /** Different paths are independent exactly if neither lies on the way to the other:
      for any other pair there is a tree and a value that show it. */
  lemma IndependentExactly(p: Path, q: Path)
    requires p != [] && q != [] && p != q
    ensures NeverInterferes(p, q) <==> Apart(p, q)
  {
    if Apart(p, q) {
      forall cfg, v | Set(cfg, p, v).Done? ensures Get(Set(cfg, p, v).cfg, q) == Get(cfg, q) {
        SavesApart(cfg, p, v, q);
      }
    } else {
      var empty := Obj(map[]);
      EmptyTree(q, Null);
      if p <= q {
        var rest := q[|p|..];
        EmptyTree(rest, Null);
        var v := Set(empty, rest, Null).cfg;
        EmptyTree(p, v);
        ReadsSaved(empty, rest, Null, []);
        ReadsSaved(empty, p, v, rest);
        assert rest + [] == rest && p + rest == q;
        assert Get(Set(empty, p, v).cfg, q) != Get(empty, q);
      } else {
        EmptyTree(p, Null);
        ShorterFound(empty, p, |q|, Null);
        assert p[..|q|] == q;
        assert Get(Set(empty, p, Null).cfg, q) != Get(empty, q);
      }
    }
  }

  // -------------------------------------------------------- saves that come later

  /** Assigning at run time changes the item at once and schedules a save, which writes
      the value the item has when it runs. */
  datatype Runtime = Runtime(tree: Json, values: map<Path, Json>, scheduled: multiset<Path>)

  /** A bulk save replaces the tree and updates the items it reaches. */
  datatype Event =
    | Assigned(path: Path, value: Json)
    | Persisted(path: Path)
    | BulkSaved(config: Json, reached: set<Path>)

  function Happen(rt: Runtime, e: Event): Runtime {
    match e
    case Assigned(p, v) => rt.(values := rt.values[p := v], scheduled := rt.scheduled + multiset{p})
    case Persisted(p) =>
      if p == [] || p !in rt.values then rt else
      rt.(tree := After(rt.tree, p, rt.values[p]), scheduled := rt.scheduled - multiset{p})
    case BulkSaved(config, reached) =>
      rt.(tree := config,
          values := map p | p in rt.values :: if p in reached then Updated(config, p, rt.values[p]) else rt.values[p])
  }

  /** A bulk save reaches all items, unless a path raises: then only some before it. */
  ghost predicate Possible(rt: Runtime, e: Event, paths: set<Path>) {
    match e
    case Assigned(p, _) => p in paths
    case Persisted(p) => p in paths && p in rt.scheduled
    case BulkSaved(config, reached) =>
      && reached <= rt.values.Keys && (forall p :: p in reached ==> !Get(config, p).Raises?)
      && ((forall p :: p in paths ==> !Get(config, p).Raises?) ==> reached == rt.values.Keys)
  }

  /** Any interleaving of assignments, scheduled saves and bulk saves. */
  ghost predicate Happens(rt: Runtime, events: seq<Event>, paths: set<Path>, rt': Runtime)
    decreases |events|
  {
    if events == [] then rt' == rt
    else
      && Possible(rt, events[0], paths)
      && Happens(Happen(rt, events[0]), events[1..], paths, rt')
  }

  /** Saves are scheduled for assigned items, and what is not scheduled is in the tree. */
  ghost predicate Settling(rt: Runtime, paths: set<Path>) {
    && AllFit(rt.tree, paths) && rt.values.Keys <= paths
    && (forall p :: p in rt.scheduled ==> p in rt.values)
    && (forall p :: p in rt.values && p !in rt.scheduled ==> Get(rt.tree, p) == Found(rt.values[p]))
  }

  lemma SavedSettles(rt: Runtime, paths: set<Path>, p: Path)
    requires Independent(paths) && Settling(rt, paths) && p in rt.scheduled
    ensures Settling(Happen(rt, Persisted(p)), paths)
  {
    var v := rt.values[p];
    assert p in paths && p != [];
    SetIffFits(rt.tree, p, v);
    var tree' := Set(rt.tree, p, v).cfg;
    forall q | q in paths
      ensures Fits(tree', q) && (if q == p then Get(tree', q) == Found(v) else Get(tree', q) == Get(rt.tree, q))
    {
      if q == p {
        ReadsSaved(rt.tree, p, v, []);
        assert p + [] == p;
        SavedStillFits(rt.tree, p, v);
      } else {
        SavesApart(rt.tree, p, v, q);
      }
    }
  }

  /** The new tree has a value for each item without a scheduled save, or says what
      the item says. */
  ghost predicate Covers(rt: Runtime, config: Json, paths: set<Path>) {
    && AllFit(config, paths)
    && forall p :: p in rt.values && p !in rt.scheduled ==>
         Value(Get(config, p)) != Null || Get(config, p) == Found(rt.values[p])
  }

  /** A bulk save leaves the items settled exactly if its tree covers them. */
  lemma BulkSettlesExactly(rt: Runtime, paths: set<Path>, config: Json, reached: set<Path>)
    requires Settling(rt, paths) && Possible(rt, BulkSaved(config, reached), paths)
    ensures Settling(Happen(rt, BulkSaved(config, reached)), paths) <==> Covers(rt, config, paths)
  {
    var rt' := Happen(rt, BulkSaved(config, reached));
    if AllFit(config, paths) {
      forall p | p in paths ensures !Get(config, p).Raises? { FitsReads(config, p); }
      assert forall p :: p in rt.values ==> rt'.values[p] == Updated(config, p, rt.values[p]);
    }
  }

  /** An event that keeps the items settled: any but a bulk save that does not cover them. */
  ghost predicate Settles(rt: Runtime, e: Event, paths: set<Path>) {
    e.BulkSaved? ==> Covers(rt, e.config, paths)
  }

  lemma EventSettlesExactly(rt: Runtime, e: Event, paths: set<Path>)
    requires Independent(paths) && Settling(rt, paths) && Possible(rt, e, paths)
    ensures Settling(Happen(rt, e), paths) <==> Settles(rt, e, paths)
  {
    match e {
      case Assigned(p, v) =>
      case Persisted(p) => SavedSettles(rt, paths, p);
      case BulkSaved(config, reached) => BulkSettlesExactly(rt, paths, config, reached);
    }
  }

  /** The items are settled at every moment. */
  ghost predicate SettlingThroughout(rt: Runtime, events: seq<Event>, paths: set<Path>)
    decreases |events|
  {
    Settling(rt, paths) && (events != [] ==> SettlingThroughout(Happen(rt, events[0]), events[1..], paths))
  }

  ghost predicate AllSettle(rt: Runtime, events: seq<Event>, paths: set<Path>)
    decreases |events|
  {
    events != [] ==> Settles(rt, events[0], paths) && AllSettle(Happen(rt, events[0]), events[1..], paths)
  }

  /** However assignments, scheduled saves and bulk saves interleave: at every moment an
      item without a scheduled save reads from the tree as the item says, exactly if
      every bulk save covers the items; once no save is scheduled, all do. */
  lemma {:induction false} SettledReadsLast(rt: Runtime, events: seq<Event>, paths: set<Path>, rt': Runtime)
    requires Independent(paths) && Settling(rt, paths) && Happens(rt, events, paths, rt')
    ensures SettlingThroughout(rt, events, paths) <==> AllSettle(rt, events, paths)
    ensures AllSettle(rt, events, paths) ==> Settling(rt', paths)
    ensures AllSettle(rt, events, paths) && rt'.scheduled == multiset{} ==>
              forall p :: p in rt'.values ==> Get(rt'.tree, p) == Found(rt'.values[p])
    decreases |events|
  {
    hide Happen, Possible, Settles;
    if events != [] {
      EventSettlesExactly(rt, events[0], paths);
      if Settling(Happen(rt, events[0]), paths) {
        SettledReadsLast(Happen(rt, events[0]), events[1..], paths, rt');
      } else {
        assert !SettlingThroughout(Happen(rt, events[0]), events[1..], paths);
      }
    }
  }

  /** What an item says, told by the events: the value last assigned, or taken over by a
      bulk save that reached it. */
  function SaysAfter(was: Option<Json>, events: seq<Event>, p: Path): Option<Json>
    decreases |events|
  {
    if events == [] then was else
    var now := match events[0]
      case Assigned(q, v) => if q == p then Some(v) else was
      case Persisted(_) => was
      case BulkSaved(config, reached) =>
        if was.Some? && p in reached && Get(config, p).Found? && Get(config, p).value != Null then Some(Get(config, p).value) else was;
    SaysAfter(now, events[1..], p)
  }

  lemma {:induction false} ItemsAreLastWord(rt: Runtime, events: seq<Event>, paths: set<Path>, rt': Runtime, p: Path)
    requires Happens(rt, events, paths, rt')
    ensures (if p in rt'.values then Some(rt'.values[p]) else None)
         == SaysAfter(if p in rt.values then Some(rt.values[p]) else None, events, p)
    decreases |events|
  {
    if events != [] {
      ItemsAreLastWord(Happen(rt, events[0]), events[1..], paths, rt', p);
    }
  }

  // --------------------------------------------------------- items and registry

  class PersistentConfig {
    const path: Path
    const envValue: Json
    var value: Json
    var configValue: Json

    /** The stored value wins over the environment if it is not null and persistence
        is switched on for it. */
    constructor (cfg: ConfigStore, path: Path, envValue: Json, persistent: bool)
      requires path != [] && !Get(cfg.data, path).Raises?
      modifies cfg`registry
      ensures cfg.registry == old(cfg.registry) + [this] && (old(NoDup(cfg.registry)) ==> NoDup(cfg.registry))
      ensures this.path == path && this.envValue == envValue
      ensures configValue == match Get(cfg.data, path) case Found(v) => v case _ => Null
      ensures value == if configValue != Null && persistent then configValue else envValue
    {
      this.path, this.envValue := path, envValue;
      var stored := Value(Get(cfg.data, path));
      configValue := stored;
      value := if stored != Null && persistent then stored else envValue;
      new;
      if NoDup(cfg.registry) { NoDupAppend(cfg.registry, this); }
      cfg.registry := cfg.registry + [this];
    }
  }

  /** `None` stands for a missing value as well as for a stored null. */
  function Value(l: Lookup): Json {
    if l.Found? then l.value else Null
  }

  /** The value an item has after `update`. */
  function Updated(cfg: Json, path: Path, old_: Json): Json {
    var new_ := Value(Get(cfg, path));
    if new_ != Null then new_ else old_
  }

  /** The item has the value of the new tree, if that is there and not null, and
      otherwise the value it had. */
  ghost predicate TakesNew(cfg: Json, path: Path, old_: Json, new_: Json) {
    match Get(cfg, path)
    case Found(v) => new_ == if v == Null then old_ else v
    case _ => new_ == old_
  }

  /** A bulk save gives each item it reaches the new value or leaves it alone, and
      leaves alone all others and what is scheduled. */
  lemma BulkSavedValues(rt: Runtime, config: Json, reached: set<Path>, p: Path)
    requires p in rt.values
    ensures var rt' := Happen(rt, BulkSaved(config, reached));
      && rt'.tree == config && rt'.values.Keys == rt.values.Keys && rt'.scheduled == rt.scheduled
      && (if p in reached then TakesNew(config, p, rt.values[p], rt'.values[p]) else rt'.values[p] == rt.values[p])
  {
  }

  /** Creating an empty dictionary on the way does not change where a save ends. */
  lemma {:induction false} CreatedOnTheWay(cfg: Json, path: Path, n: nat, v: Json)
    requires 0 < n < |path| && Get(cfg, path[..n]) == Missing && Fits(cfg, path[..n])
    ensures Set(cfg, path[..n], Obj(map[])).Done?
    ensures Set(Set(cfg, path[..n], Obj(map[])).cfg, path, v) == Set(cfg, path, v)
    decreases |path|
  {
    SetIffFits(cfg, path[..n], Obj(map[]));
    var sub := if path[0] in cfg.m then cfg.m[path[0]] else Obj(map[]);
    if n == 1 {
      assert path[..1] == [path[0]];
      assert path[0] !in cfg.m by {
        assert path[..1][1..] == [];
      }
      var made := Obj(cfg.m[path[0] := Obj(map[])]);
      assert Set(cfg, path[..1], Obj(map[])) == Done(made);
      assert made.m[path[0]] == sub;
      OverwriteSame(cfg.m, path[0], Obj(map[]), Set(sub, path[1..], v));
    } else {
      assert path[..n][1..] == path[1..][..n - 1];
      assert Get(sub, path[1..][..n - 1]) == Missing;
      CreatedOnTheWay(sub, path[1..], n - 1, v);
      var made := Set(sub, path[1..][..n - 1], Obj(map[])).cfg;
      assert Set(cfg, path[..n], Obj(map[])) == Done(Obj(cfg.m[path[0] := made]));
      OverwriteSame(cfg.m, path[0], made, Set(sub, path[1..], v));
    }
  }

  lemma OverwriteSame(m: map<string, Json>, k: string, first: Json, then_: Written)
    ensures then_.Done? ==> m[k := first][k := then_.cfg] == m[k := then_.cfg]
  {
  }

  class ConfigStore {
    var data: Json
    var registry: seq<PersistentConfig>
    var scheduled: seq<PersistentConfig>

    constructor (data: Json)
      ensures this.data == data && registry == [] && scheduled == []
    {
      this.data := data;
      registry, scheduled := [], [];
    }

    /** `save`: walk to the last dictionary, creating missing ones, and assign.  False
        when a leaf is in the way; then nothing has changed. */
    method Save(item: PersistentConfig) returns (ok: bool)
      requires item.path != []
      modifies this`data, item`configValue
      ensures ok == Fits(old(data), item.path)
      ensures data == After(old(data), item.path, item.value)
      ensures item.configValue == if ok then item.value else old(item.configValue)
    {
      var path, value := item.path, item.value;
      SetIffFits(data, path, value);
      var n := 0;
      while n < |path| - 1
        invariant n <= |path| - 1 && item.configValue == old(item.configValue)
        invariant Set(data, path, value) == Set(old(data), path, value)
        invariant Fits(data, path) <==> Fits(old(data), path)
        invariant Get(data, path[..n]).Found? && Fits(data, path[..n])
        invariant data == old(data) || Fits(old(data), path)
      {
        WalkOn(data, path, n);
        var sub := Get(data, path[..n]).value;
        if !sub.Obj? { return false; }
        if path[n] !in sub.m {
          CreatedOnTheWay(data, path, n + 1, value);
          CreatedFits(data, path, n + 1);
          SetIffFits(data, path, value);
          data := Set(data, path[..n + 1], Obj(map[])).cfg;
          SetIffFits(data, path, value);
        }
        n := n + 1;
      }
      WalkOn(data, path, n);
      var sub := Get(data, path[..n]).value;
      if !sub.Obj? { return false; }
      SetIffFits(data, path, value);
      data := Set(data, path, value).cfg;
      item.configValue := value;
      ok := true;
    }

    /** Assigning to an item saves it. */
    method Assign(item: PersistentConfig, value: Json) returns (ok: bool)
      requires item.path != []
      modifies this`data, item`configValue, item`value
      ensures item.value == value && ok == Fits(old(data), item.path)
      ensures data == After(old(data), item.path, value)
    {
      item.value := value;
      ok := Save(item);
    }

    /** Assigning at run time: the value changes at once, the save is only scheduled. */
    method AssignLater(item: PersistentConfig, value: Json)
      modifies this`scheduled, item`value
      ensures item.value == value && scheduled == old(scheduled) + [item]
    {
      item.value := value;
      scheduled := scheduled + [item];
    }

    /** A scheduled save runs: it writes the value the item has by now. */
    method RunScheduled(i: nat, item: PersistentConfig) returns (ok: bool)
      requires i < |scheduled| && item == scheduled[i] && item.path != []
      modifies this`data, this`scheduled, item`configValue
      ensures scheduled == old(scheduled)[..i] + old(scheduled)[i + 1..]
      ensures data == After(old(data), item.path, item.value) && ok == Fits(old(data), item.path)
    {
      scheduled := scheduled[..i] + scheduled[i + 1..];
      ok := Save(item);
    }

    /** `save_config`: replace the tree and update every registered item.  False when
        some item's path runs into a leaf; then only the items before it are updated. */
    method SaveConfig(config: Json) returns (ok: bool)
      requires NoDup(registry)
      modifies this`data, registry
      ensures data == config
      ensures ok <==> forall i :: 0 <= i < |registry| ==> !Get(config, registry[i].path).Raises?
      ensures forall i :: 0 <= i < |registry| && (forall j :: 0 <= j <= i ==> !Get(config, registry[j].path).Raises?) ==>
                TakesNew(config, registry[i].path, old(registry[i].value), registry[i].value)
      ensures forall i :: 0 <= i < |registry| && !(forall j :: 0 <= j <= i ==> !Get(config, registry[j].path).Raises?) ==>
                registry[i].value == old(registry[i].value)
    {
      data := config;
      for k := 0 to |registry|
        invariant data == config
        invariant forall j :: 0 <= j < k ==> !Get(config, registry[j].path).Raises?
        invariant forall i :: 0 <= i < k ==> TakesNew(config, registry[i].path, old(registry[i].value), registry[i].value)
        invariant forall i :: k <= i < |registry| ==> registry[i].value == old(registry[i].value)
      {
        var item := registry[k];
        var found := Get(config, item.path);
        if found.Raises? { return false; }
        if Value(found) != Null { item.value := Value(found); }
      }
      ok := true;
    }
  }

  /** Where a walk along the path stands after `n` parts. */
  lemma {:induction false} WalkOn(cfg: Json, path: Path, n: nat)
    requires n < |path| && Get(cfg, path[..n]).Found? && Fits(cfg, path[..n])
    ensures Get(cfg, path[..n]).value.Obj? ==>
              && Fits(cfg, path[..n + 1])
              && (path[n] in Get(cfg, path[..n]).value.m ==> Get(cfg, path[..n + 1]) == Found(Get(cfg, path[..n]).value.m[path[n]]))
              && (path[n] !in Get(cfg, path[..n]).value.m ==> Get(cfg, path[..n + 1]) == Missing)
              && (n + 1 == |path| ==> Fits(cfg, path))
    ensures !Get(cfg, path[..n]).value.Obj? ==> !Fits(cfg, path)
  {
    if n == 0 {
      assert path[..1] == [path[0]];
      if cfg.Obj? && path[0] in cfg.m { assert Get(cfg.m[path[0]], path[..1][1..]) == Found(cfg.m[path[0]]); }
      if |path| == 1 { assert path[..1] == path; }
    } else {
      assert path[..n][1..] == path[1..][..n - 1] && path[..n + 1][1..] == path[1..][..n];
      assert n > 1 ==> Fits(cfg.m[path[0]], path[1..][..n - 1]);
      WalkOn(cfg.m[path[0]], path[1..], n - 1);
    }
  }

  lemma CreatedFits(cfg: Json, path: Path, n: nat)
    requires 0 < n < |path| && Get(cfg, path[..n]) == Missing && Fits(cfg, path[..n])
    ensures Fits(cfg, path)
    ensures var cfg' := Set(cfg, path[..n], Obj(map[])); cfg'.Done? && Get(cfg'.cfg, path[..n]) == Found(Obj(map[])) && Fits(cfg'.cfg, path[..n])
  {
    SetIffFits(cfg, path[..n], Obj(map[]));
    ReadsSaved(cfg, path[..n], Obj(map[]), []);
    assert path[..n] + [] == path[..n];
    SavedStillFits(cfg, path[..n], Obj(map[]));
    MissingFits(cfg, path, n);
  }

  lemma {:induction false} MissingFits(cfg: Json, path: Path, n: nat)
    requires n <= |path| && Get(cfg, path[..n]) == Missing && Fits(cfg, path[..n])
    ensures Fits(cfg, path)
  {
    if path[0] in cfg.m {
      assert path[..n][1..] == path[1..][..n - 1];
      MissingFits(cfg.m[path[0]], path[1..], n - 1);
    }
  }
}
