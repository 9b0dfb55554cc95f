/** A namespace of a root directory and explicit mounts, routed by the longest mount prefix. */
module MountedDir {
  import opened Wrappers

  type Path = seq<string>

  /** What a directory says about a name it is asked to open. */
  datatype Opening = Opens(node: nat) | Fails

  /** The backing values as they stand: directories with their openings, tables, and keys that tables have. */
  datatype World = World(dirs: map<nat, map<string, Opening>>, tables: set<nat>, keys: set<(nat, string)>)

  datatype Kind = TableMount | DirMount

  datatype Target = Target(kind: Kind, value: nat)

  datatype Resolved = Backed(value: nat) | Virtual

  datatype MountError =
    | RootMount | Shadows | Duplicate | BelowTable | AboveMount
    | NotDirectory | NotTable | OpenFailed | TraverseTable | MissingInMount | NoBacking

  // ---------------------------------------------------------------------------------------------
  // Routing

  function OpenDir(world: World, dir: nat, name: string): Result<Option<nat>, MountError> {
    if dir !in world.dirs then Err(NotDirectory)
    else if name !in world.dirs[dir] then Ok(None)
    else
      match world.dirs[dir][name]
      case Opens(node) => Ok(Some(node))
      case Fails => Err(OpenFailed)
  }

  ghost function Traversed(world: World, start: nat, path: Path): Result<Option<nat>, MountError>
    decreases |path|
  {
    if path == [] then Ok(Some(start))
    else
      match OpenDir(world, start, path[0])
      case Err(error) => Err(error)
      case Ok(None) => Ok(None)
      case Ok(Some(next)) => Traversed(world, next, path[1..])
  }

  /** `traverse_dir_path` */
  method Traverse(world: World, start: nat, path: Path) returns (r: Result<Option<nat>, MountError>)
    ensures r == Traversed(world, start, path)
  {
    var current := start;
    ghost var rest := path;
    for k := 0 to |path|
      invariant rest == path[k..]
      invariant Traversed(world, start, path) == Traversed(world, current, rest)
    {
      var next := OpenDir(world, current, path[k]);
      if next.Err? {
        return Err(next.error);
      }
      if next.value.None? {
        return Ok(None);
      }
      current := next.value.value;
      rest := rest[1..];
    }
    return Ok(Some(current));
  }

  /** Traversing one segment more is opening it in what was reached. */
  lemma {:induction false} TraversedSnoc(world: World, start: nat, path: Path, name: string)
    ensures Traversed(world, start, path + [name]) ==
      match Traversed(world, start, path)
      case Ok(Some(node)) => OpenDir(world, node, name)
      case Ok(None) => Ok(None)
      case Err(error) => Err(error)
    decreases |path|
  {
    if path == [] {
      assert (path + [name])[1..] == [];
    } else {
      assert (path + [name])[1..] == path[1..] + [name];
      var next := OpenDir(world, start, path[0]);
      if next.Ok? && next.value.Some? {
        TraversedSnoc(world, next.value.value, path[1..], name);
      }
    }
  }

  /** The mounts that lead to the path. */
  function MountsAbove(mounts: map<Path, Target>, path: Path): set<Path> {
    set m | m in mounts && m <= path
  }

  /** The length of the longest of them. */
  ghost function LongestLength(mounts: map<Path, Target>, path: Path): Option<nat>
    decreases |path|
  {
    if path in mounts then Some(|path|)
    else if path == [] then None
    else LongestLength(mounts, path[..|path| - 1])
  }

  /** `path[..n]` is a mount, and no mount above the path is longer. */
  ghost predicate IsLongest(mounts: map<Path, Target>, path: Path, n: nat) {
    n <= |path| && path[..n] in mounts && forall m :: m in mounts && m <= path ==> |m| <= n
  }

  lemma {:induction false} PrefixIsSlice(m: Path, path: Path)
    requires m <= path
    ensures |m| <= |path| && path[..|m|] == m
  {
  }

  lemma {:induction false} SlicePrefix(path: Path, n: nat)
    requires n <= |path|
    ensures path[..n] <= path && |path[..n]| == n
  {
  }

  lemma {:induction false} LongestIs(mounts: map<Path, Target>, path: Path)
    ensures match LongestLength(mounts, path)
      case None => forall m :: m in mounts ==> !(m <= path)
      case Some(n) => IsLongest(mounts, path, n)
    decreases |path|
  {
    if path in mounts {
      assert path[..|path|] == path;
    } else if path != [] {
      var shorter := path[..|path| - 1];
      LongestIs(mounts, shorter);
      forall m | m in mounts && m <= path
        ensures m <= shorter
      {
        PrefixIsSlice(m, path);
        assert path[..|path|] == path;
        assert |m| != |path|;
      }
      var n := LongestLength(mounts, shorter);
      if n.Some? {
        assert shorter[..n.value] == path[..n.value];
      }
    }
  }

  lemma {:induction false} LongestOnly(mounts: map<Path, Target>, path: Path, n: nat)
    requires IsLongest(mounts, path, n)
    ensures LongestLength(mounts, path) == Some(n)
  {
    LongestIs(mounts, path);
    SlicePrefix(path, n);
    if LongestLength(mounts, path).Some? {
      SlicePrefix(path, LongestLength(mounts, path).value);
    }
  }

  /** The longest mount among those seen so far. */
  ghost predicate LongestSeen(mounts: map<Path, Target>, path: Path, seen: set<Path>, r: Option<(nat, Target)>) {
    match r
    case None => seen == {}
    case Some((n, target)) =>
      && n <= |path| && path[..n] in seen && path[..n] in mounts && target == mounts[path[..n]]
      && forall m :: m in seen ==> |m| <= n
  }

  /** `longest_mount`: the maximum by length, over the mounts in any order. */
  method LongestMount(mounts: map<Path, Target>, path: Path) returns (r: Option<(nat, Target)>)
    ensures match LongestLength(mounts, path)
      case None => r == None
      case Some(n) => n <= |path| && path[..n] in mounts && r == Some((n, mounts[path[..n]]))
  {
    r := None;
    var left := MountsAbove(mounts, path);
    ghost var seen: set<Path> := {};
    while left != {}
      invariant left + seen == MountsAbove(mounts, path)
      invariant LongestSeen(mounts, path, seen, r)
      decreases |left|
    {
      var m :| m in left;
      PrefixIsSlice(m, path);
      if r.None? || |m| >= r.value.0 {
        r := Some((|m|, mounts[m]));
      }
      left, seen := left - {m}, seen + {m};
    }
    LongestOfAll(mounts, path, r);
  }

  lemma {:induction false} LongestOfAll(mounts: map<Path, Target>, path: Path, r: Option<(nat, Target)>)
    requires LongestSeen(mounts, path, MountsAbove(mounts, path), r)
    ensures match LongestLength(mounts, path)
      case None => r == None
      case Some(n) => n <= |path| && path[..n] in mounts && r == Some((n, mounts[path[..n]]))
  {
    LongestIs(mounts, path);
    var longest := LongestLength(mounts, path);
    if longest.Some? {
      SlicePrefix(path, longest.value);
      assert path[..longest.value] in MountsAbove(mounts, path);
    }
    if r.Some? {
      assert forall m :: m in mounts && m <= path ==> m in MountsAbove(mounts, path);
      LongestOnly(mounts, path, r.value.0);
    }
  }

  predicate HasMountBelow(mounts: map<Path, Target>, path: Path) {
    exists m :: m in mounts && path < m
  }

  ghost function ResolvedMount(world: World, target: Target, suffix: Path): Result<Resolved, MountError> {
    match target.kind
    case TableMount => if suffix == [] then Ok(Backed(target.value)) else Err(TraverseTable)
    case DirMount =>
      (match Traversed(world, target.value, suffix)
       case Err(error) => Err(error)
       case Ok(None) => Err(MissingInMount)
       case Ok(Some(node)) => Ok(Backed(node)))
  }

  ghost function ResolvedRoot(world: World, root: nat, mounts: map<Path, Target>, path: Path)
    : Result<Resolved, MountError>
  {
    match Traversed(world, root, path)
    case Err(error) => Err(error)
    case Ok(Some(node)) => Ok(Backed(node))
    case Ok(None) => if HasMountBelow(mounts, path) then Ok(Virtual) else Err(NoBacking)
  }

  /** What a path resolves to: inside the longest mount above it, or else in the root. */
  ghost function ResolvedAt(world: World, root: nat, mounts: map<Path, Target>, path: Path)
    : Result<Resolved, MountError>
  {
    LongestIs(mounts, path);
    match LongestLength(mounts, path)
    case Some(n) => ResolvedMount(world, mounts[path[..n]], path[n..])
    case None => ResolvedRoot(world, root, mounts, path)
  }

  // ---------------------------------------------------------------------------------------------
  // The mount table

  /** No mount lies strictly below a table mount, and the root is not mounted over. */
  ghost predicate Lawful(mounts: map<Path, Target>) {
    && [] !in mounts
    && forall a, b :: a in mounts && b in mounts && a < b ==> mounts[a].kind == DirMount
  }

  /** `root_exact_kind` */
  ghost function RootHolds(world: World, root: nat, path: Path): Result<bool, MountError>
    requires path != []
  {
    match Traversed(world, root, path[..|path| - 1])
    case Err(error) => Err(error)
    case Ok(None) => Ok(false)
    case Ok(Some(parent)) =>
      var name := path[|path| - 1];
      if parent !in world.dirs then Err(NotDirectory)
      else if parent !in world.tables then Err(NotTable)
      else Ok(name in world.dirs[parent] || (parent, name) in world.keys)
  }

  /** The parent path leads through the root to a node that can be asked, as a directory and as a table. */
  ghost predicate LeadsToParent(world: World, root: nat, path: Path, parent: nat)
    requires path != []
  {
    Traversed(world, root, path[..|path| - 1]) == Ok(Some(parent)) && parent in world.dirs && parent in world.tables
  }

  /** The node shows the name: as something it opens, as something it fails to open, or as a key. */
  ghost predicate Shows(world: World, node: nat, name: string) {
    (node in world.dirs && name in world.dirs[node]) || (node, name) in world.keys
  }

  /** The root holds something at a path exactly when its parent shows the last name, and nothing where the way ends. */
  lemma {:induction false} RootHoldsIff(world: World, root: nat, path: Path)
    requires path != []
    ensures var way, name := Traversed(world, root, path[..|path| - 1]), path[|path| - 1];
      && (RootHolds(world, root, path) == Ok(true) <==>
            exists parent :: LeadsToParent(world, root, path, parent) && Shows(world, parent, name))
      && (RootHolds(world, root, path) == Ok(false) <==>
            way == Ok(None)
            || exists parent :: LeadsToParent(world, root, path, parent) && !Shows(world, parent, name))
      && (RootHolds(world, root, path).Err? <==>
            way.Err? || exists node :: way == Ok(Some(node)) && !(node in world.dirs && node in world.tables))
      && (way.Err? ==> RootHolds(world, root, path) == Err(way.error))
      && (way.Ok? && RootHolds(world, root, path).Err? ==>
            RootHolds(world, root, path).error == if way.value.value in world.dirs then NotTable else NotDirectory)
  {
    var way := Traversed(world, root, path[..|path| - 1]);
    if way.Ok? && way.value.Some? && way.value.value in world.dirs && way.value.value in world.tables {
      assert LeadsToParent(world, root, path, way.value.value);
    }
  }

  /** Whether the mount table accepts one more mount, and why not. */
  ghost predicate Refuses(mounts: map<Path, Target>, path: Path, kind: Kind) {
    || path in mounts
    || (exists m :: m in mounts && m < path && mounts[m].kind == TableMount)
    || (kind == TableMount && exists m :: m in mounts && path <= m)
  }

  class Namespace {
    const root: nat
    var mounts: map<Path, Target>

    constructor (root: nat)
      ensures this.root == root && mounts == map[] && Lawful(mounts)
    {
      this.root, this.mounts := root, map[];
    }

    /** `insert_mount`: accepted exactly when the root and the mount table leave room for it. */
    method InsertMount(world: World, path: Path, kind: Kind, value: nat) returns (r: Result<(), MountError>)
      requires Lawful(mounts)
      modifies this
      ensures Lawful(mounts)
      ensures r.Ok? <==> path != [] && RootHolds(world, root, path) == Ok(false) && !Refuses(old(mounts), path, kind)
      ensures path == [] ==> r == Err(RootMount)
      ensures path != [] && RootHolds(world, root, path).Err? ==> r == Err(RootHolds(world, root, path).error)
      ensures path != [] && RootHolds(world, root, path) == Ok(true) ==> r == Err(Shadows)
      ensures path != [] && RootHolds(world, root, path) == Ok(false) && path in old(mounts) ==> r == Err(Duplicate)
      ensures path != [] && RootHolds(world, root, path) == Ok(false) && path !in old(mounts) && r.Err? ==>
        || (r == Err(BelowTable) && exists m :: m in old(mounts) && m < path && old(mounts)[m].kind == TableMount)
        || (r == Err(AboveMount) && kind == TableMount && exists m :: m in old(mounts) && path <= m)
      ensures mounts == if r.Ok? then old(mounts)[path := Target(kind, value)] else old(mounts)
    {
      if path == [] {
        return Err(RootMount);
      }
      var held := HeldByRoot(world, path);
      if held.Err? {
        return Err(held.error);
      }
      if held.value {
        return Err(Shadows);
      }
      if path in mounts {
        return Err(Duplicate);
      }
      var room := CheckRoom(path, kind);
      if room.Err? {
        return room;
      }
      mounts := mounts[path := Target(kind, value)];
      return Ok(());
    }

    /** The loop of `insert_mount` over the mounts there are, in any order. */
    method CheckRoom(path: Path, kind: Kind) returns (r: Result<(), MountError>)
      requires path !in mounts
      ensures r.Ok? <==> !Refuses(mounts, path, kind)
      ensures r.Err? ==>
        || (r == Err(BelowTable) && exists m :: m in mounts && m < path && mounts[m].kind == TableMount)
        || (r == Err(AboveMount) && kind == TableMount && exists m :: m in mounts && path <= m)
    {
      var left := mounts.Keys;
      ghost var seen: set<Path> := {};
      while left != {}
        invariant left + seen == mounts.Keys
        invariant forall m :: m in seen ==>
          !(m < path && mounts[m].kind == TableMount) && !(path <= m && kind == TableMount)
        decreases |left|
      {
        var m :| m in left;
        if m <= path && mounts[m].kind == TableMount && |m| < |path| {
          assert m < path;
          return Err(BelowTable);
        }
        if path <= m && kind == TableMount {
          return Err(AboveMount);
        }
        left, seen := left - {m}, seen + {m};
      }
      return Ok(());
    }

    method HeldByRoot(world: World, path: Path) returns (r: Result<bool, MountError>)
      requires path != []
      ensures r == RootHolds(world, root, path)
    {
      var parent := Traverse(world, root, path[..|path| - 1]);
      if parent.Err? {
        return Err(parent.error);
      }
      if parent.value.None? {
        return Ok(false);
      }
      var dir, name := parent.value.value, path[|path| - 1];
      if dir !in world.dirs {
        return Err(NotDirectory);
      }
      if dir !in world.tables {
        return Err(NotTable);
      }
      return Ok(name in world.dirs[dir] || (dir, name) in world.keys);
    }

    /** `unmount` */
    method Unmount(path: Path) returns (r: Result<Option<nat>, MountError>)
      requires Lawful(mounts)
      modifies this
      ensures Lawful(mounts)
      ensures if path == [] then r == Err(RootMount) && mounts == old(mounts) else
        mounts == old(mounts) - {path} && r == Ok(if path in old(mounts) then Some(old(mounts)[path].value) else None)
    {
      if path == [] {
        return Err(RootMount);
      }
      r := Ok(if path in mounts then Some(mounts[path].value) else None);
      mounts := mounts - {path};
    }

    /** `resolve_current` of the view at `path`. */
    method ResolveCurrent(world: World, path: Path) returns (r: Result<Resolved, MountError>)
      ensures r == ResolvedAt(world, root, mounts, path)
    {
      var longest := LongestMount(mounts, path);
      if longest.Some? {
        var (n, target) := longest.value;
        if target.kind == TableMount {
          return if path[n..] == [] then Ok(Backed(target.value)) else Err(TraverseTable);
        }
        var node := Traverse(world, target.value, path[n..]);
        if node.Err? {
          return Err(node.error);
        }
        return if node.value.Some? then Ok(Backed(node.value.value)) else Err(MissingInMount);
      }
      var node := Traverse(world, root, path);
      if node.Err? {
        return Err(node.error);
      }
      if node.value.Some? {
        return Ok(Backed(node.value.value));
      }
      return if HasMountBelow(mounts, path) then Ok(Virtual) else Err(NoBacking);
    }

    /** `opendir` of the view at `path`: whether there is a view one segment on. */
    method Opendir(world: World, path: Path, name: string) returns (r: Result<bool, MountError>)
      ensures r == OpenedFrom(world, root, mounts, path, name)
    {
      var child := path + [name];
      if child in mounts {
        return if mounts[child].kind == DirMount then Ok(true) else Err(TraverseTable);
      }
      if exists m :: m in mounts && child <= m {
        return Ok(true);
      }
      var current := ResolveCurrent(world, path);
      if current.Err? {
        return Err(current.error);
      }
      if current.value.Virtual? {
        return Ok(false);
      }
      var next := OpenDir(world, current.value.value, name);
      return if next.Err? then Err(next.error) else Ok(next.value.Some?);
    }

    /** `direct_mount_children`: the kind under each name, whatever order the mounts come in. */
    method DirectMountChildren(path: Path) returns (children: map<string, Kind>)
      requires Lawful(mounts)
      ensures Listed(mounts, path, mounts.Keys, children)
    {
      children := map[];
      var left := mounts.Keys;
      ghost var seen: set<Path> := {};
      while left != {}
        invariant left + seen == mounts.Keys
        invariant Listed(mounts, path, seen, children)
        decreases |left|
      {
        var m :| m in left;
        ListOne(mounts, path, seen, children, m);
        if |m| > |path| && path <= m {
          var name := m[|path|];
          var kind := if |m| == |path| + 1 then mounts[m].kind else DirMount;
          if name !in children {
            children := children[name := kind];
          }
        }
        left, seen := left - {m}, seen + {m};
      }
    }
  }

  /** The names under which mounts lie, with table mounts told apart. */
  ghost predicate Listed(mounts: map<Path, Target>, path: Path, seen: set<Path>, children: map<string, Kind>) {
    && (forall name :: name in children <==> exists m :: m in seen && path + [name] <= m)
    && forall name :: name in children ==> (children[name] == TableMount <==> TableAt(mounts, path + [name]))
  }

  predicate TableAt(mounts: map<Path, Target>, path: Path) {
    path in mounts && mounts[path].kind == TableMount
  }

  lemma {:induction false} ListOne(mounts: map<Path, Target>, path: Path, seen: set<Path>, children: map<string, Kind>,
      m: Path)
    requires Lawful(mounts) && m in mounts && Listed(mounts, path, seen, children)
    ensures var kind := if |m| == |path| + 1 then mounts[m].kind else DirMount;
      if |m| > |path| && path <= m && m[|path|] !in children
      then Listed(mounts, path, seen + {m}, children[m[|path|] := kind])
      else Listed(mounts, path, seen + {m}, children)
  {
    if |m| > |path| && path <= m {
      var name := m[|path|];
      ChildOfPrefix(path, m);
      if |m| == |path| + 1 {
        assert m == path + [name];
      } else {
        assert path + [name] < m;
        assert !TableAt(mounts, path + [name]);
      }
      forall other | path + [other] <= m
        ensures other == name
      {
        assert m[|path|] == (path + [other])[|path|];
      }
    } else {
      forall other
        ensures !(path + [other] <= m)
      {
        ChildAbove(path, other, m);
      }
    }
  }

  lemma {:induction false} ChildAbove(path: Path, name: string, m: Path)
    ensures path + [name] <= m ==> path <= m && |path| < |m|
  {
    if path + [name] <= m {
      assert path <= path + [name];
    }
  }

  lemma {:induction false} ChildOfPrefix(path: Path, m: Path)
    requires |m| > |path| && path <= m
    ensures path + [m[|path|]] <= m
  {
  }

  /** What `opendir` answers. */
  ghost function OpenedFrom(world: World, root: nat, mounts: map<Path, Target>, path: Path, name: string)
    : Result<bool, MountError>
  {
    var child := path + [name];
    if child in mounts then if mounts[child].kind == DirMount then Ok(true) else Err(TraverseTable)
    else if exists m :: m in mounts && child <= m then Ok(true)
    else
      match ResolvedAt(world, root, mounts, path)
      case Err(error) => Err(error)
      case Ok(Virtual) => Ok(false)
      case Ok(Backed(value)) =>
        (match OpenDir(world, value, name) case Err(error) => Err(error) case Ok(node) => Ok(node.Some?))
  }

  // ---------------------------------------------------------------------------------------------
  // Routing step by step

  /** The longest mount of a path one segment longer is the same, unless that path is itself mounted. */
  lemma {:induction false} LongestSnoc(mounts: map<Path, Target>, path: Path, name: string)
    ensures LongestLength(mounts, path + [name]) ==
      if path + [name] in mounts then Some(|path| + 1) else LongestLength(mounts, path)
  {
    assert (path + [name])[..|path|] == path;
  }

  /** Opening one segment in what a path resolves to, knowing where that path is routed. */
  ghost function Extended(
      world: World, mounts: map<Path, Target>, path: Path, name: string, current: Result<Resolved, MountError>)
    : Result<Resolved, MountError>
  {
    LongestIs(mounts, path);
    var longest := LongestLength(mounts, path);
    if longest.Some? && mounts[path[..longest.value]].kind == TableMount then Err(TraverseTable)
    else
      match current
      case Err(error) => Err(error)
      case Ok(Virtual) => if HasMountBelow(mounts, path + [name]) then Ok(Virtual) else Err(NoBacking)
      case Ok(Backed(value)) =>
        (match OpenDir(world, value, name)
         case Err(error) => Err(error)
         case Ok(Some(node)) => Ok(Backed(node))
         case Ok(None) =>
           if longest.Some? then Err(MissingInMount)
           else if HasMountBelow(mounts, path + [name]) then Ok(Virtual)
           else Err(NoBacking))
  }

  lemma {:induction false} BelowShorter(mounts: map<Path, Target>, path: Path, name: string)
    ensures HasMountBelow(mounts, path + [name]) ==> HasMountBelow(mounts, path)
  {
    if HasMountBelow(mounts, path + [name]) {
      var m :| m in mounts && path + [name] < m;
      assert path < m;
    }
  }

  /** Resolving one unmounted segment more is opening it in the resolution of the shorter path. */
  lemma {:induction false} ResolveStep(world: World, root: nat, mounts: map<Path, Target>, path: Path, name: string)
    requires path + [name] !in mounts
    ensures ResolvedAt(world, root, mounts, path + [name])
      == Extended(world, mounts, path, name, ResolvedAt(world, root, mounts, path))
  {
    LongestSnoc(mounts, path, name);
    LongestIs(mounts, path);
    var longest := LongestLength(mounts, path);
    if longest.Some? {
      var n := longest.value;
      assert (path + [name])[..n] == path[..n] && (path + [name])[n..] == path[n..] + [name];
      TraversedSnoc(world, mounts[path[..n]].value, path[n..], name);
    } else {
      TraversedSnoc(world, root, path, name);
      BelowShorter(mounts, path, name);
    }
  }

  /** A mounted path resolves to its own target. */
  lemma {:induction false} ResolveMounted(world: World, root: nat, mounts: map<Path, Target>, path: Path)
    requires path in mounts
    ensures ResolvedAt(world, root, mounts, path) == Ok(Backed(mounts[path].value))
  {
    assert path[..|path|] == path && path[|path|..] == [];
  }

  /**
   * When `opendir` is right about the longer path. A mounted path must be a directory mount. Where a mount lies below
   * the path, `opendir` opens without looking, so the path must resolve: inside a mount the shorter path's node has
   * to open the name, outside any mount nothing may fail on the way. Elsewhere only a table mount that also opens the
   * name is answered wrongly.
   */
  ghost predicate Faithful(world: World, root: nat, mounts: map<Path, Target>, path: Path, name: string) {
    var child := path + [name];
    var current := ResolvedAt(world, root, mounts, path);
    if child in mounts then mounts[child].kind == DirMount
    else if HasMountBelow(mounts, child) then
      if MountsAbove(mounts, path) != {} then current.Ok? && OpensIn(world, current.value, name)
      else current.Ok? && (current.value.Backed? ==> OpenDir(world, current.value.value, name).Ok?)
    else !(path in mounts && mounts[path].kind == TableMount && OpensIn(world, Backed(mounts[path].value), name))
  }

  ghost predicate OpensIn(world: World, node: Resolved, name: string) {
    node.Backed? && OpenDir(world, node.value, name).Ok? && OpenDir(world, node.value, name).value.Some?
  }

  lemma {:induction false} AboveIffLongest(mounts: map<Path, Target>, path: Path)
    ensures MountsAbove(mounts, path) != {} <==> LongestLength(mounts, path).Some?
  {
    LongestIs(mounts, path);
    var longest := LongestLength(mounts, path);
    if longest.Some? {
      SlicePrefix(path, longest.value);
      assert path[..longest.value] in MountsAbove(mounts, path);
    } else {
      assert forall m :: m in MountsAbove(mounts, path) ==> m in mounts && m <= path;
    }
  }

  /** With a mount strictly below the longer path, no table mount is the longest above the shorter one. */
  lemma {:induction false} NoTableAbove(mounts: map<Path, Target>, path: Path, name: string)
    requires Lawful(mounts) && HasMountBelow(mounts, path + [name])
    ensures match LongestLength(mounts, path)
      case None => true
      case Some(n) => n <= |path| && path[..n] in mounts && mounts[path[..n]].kind == DirMount
  {
    LongestIs(mounts, path);
    var longest := LongestLength(mounts, path);
    if longest.Some? {
      var m :| m in mounts && path + [name] < m;
      SlicePrefix(path, longest.value);
      assert path[..longest.value] < m;
    }
  }

  /** A table mount strictly above a path keeps it, and everything below it, from resolving. */
  lemma {:induction false} TableAbove(
      world: World, root: nat, mounts: map<Path, Target>, path: Path)
    requires path !in mounts && LongestLength(mounts, path).Some?
    ensures var n := LongestLength(mounts, path).value;
      && n <= |path| && path[..n] in mounts
      && (mounts[path[..n]].kind == TableMount ==> ResolvedAt(world, root, mounts, path) == Err(TraverseTable))
  {
    LongestIs(mounts, path);
    var n := LongestLength(mounts, path).value;
    assert path[..|path|] == path;
  }

  lemma {:induction false} OnlyBelow(mounts: map<Path, Target>, path: Path)
    requires path !in mounts
    ensures (exists m :: m in mounts && path <= m) <==> HasMountBelow(mounts, path)
  {
    if m :| m in mounts && path <= m {
      PrefixIsSlice(path, m);
      assert m[..|m|] == m;
      assert path < m;
    }
  }

  /** Whatever is mounted, `opendir` opens exactly the paths that resolve, exactly where it is faithful. */
  lemma {:induction false} OpendirAgreesIff(world: World, root: nat, mounts: map<Path, Target>, path: Path,
      name: string)
    requires Lawful(mounts)
    ensures (OpenedFrom(world, root, mounts, path, name) == Ok(true) <==>
              ResolvedAt(world, root, mounts, path + [name]).Ok?)
      <==> Faithful(world, root, mounts, path, name)
  {
    var child := path + [name];
    AboveIffLongest(mounts, path);
    if child in mounts {
      ResolveMounted(world, root, mounts, child);
    } else {
      ResolveStep(world, root, mounts, path, name);
      if HasMountBelow(mounts, child) {
        NoTableAbove(mounts, path, name);
      } else if path in mounts {
        ResolveMounted(world, root, mounts, path);
        assert path[..|path|] == path;
      } else if LongestLength(mounts, path).Some? {
        TableAbove(world, root, mounts, path);
      }
      OnlyBelow(mounts, child);
    }
  }

  /** Every step from the root to the path is opened by `opendir`. */
  ghost predicate OpensAll(world: World, root: nat, mounts: map<Path, Target>, path: Path)
    decreases |path|
  {
    path == [] ||
    var shorter := path[..|path| - 1];
    OpensAll(world, root, mounts, shorter)
    && OpenedFrom(world, root, mounts, shorter, path[|path| - 1]) == Ok(true)
  }

  /** The steps from the root to the path are answered faithfully. */
  ghost predicate FaithfulTo(world: World, root: nat, mounts: map<Path, Target>, path: Path) {
    forall k :: 0 <= k < |path| ==> Faithful(world, root, mounts, path[..k], path[k])
  }

  /** The node in the backing directory of the longest mount, or in the root, or a virtual root path. */
  ghost predicate LeadsTo(world: World, root: nat, mounts: map<Path, Target>, path: Path, node: Resolved) {
    if exists n: nat :: IsLongest(mounts, path, n) then
      exists n: nat :: IsLongest(mounts, path, n) && node.Backed? &&
        if mounts[path[..n]].kind == TableMount then n == |path| && node.value == mounts[path[..n]].value
        else Traversed(world, mounts[path[..n]].value, path[n..]) == Ok(Some(node.value))
    else if node.Backed? then Traversed(world, root, path) == Ok(Some(node.value))
    else Traversed(world, root, path) == Ok(None) && HasMountBelow(mounts, path)
  }

  /** A path resolves to a node exactly when the longest mount prefix, or the root, leads to it. */
  lemma {:induction false} ResolvesIff(world: World, root: nat, mounts: map<Path, Target>, path: Path, node: Resolved)
    ensures ResolvedAt(world, root, mounts, path) == Ok(node) <==> LeadsTo(world, root, mounts, path, node)
  {
    LongestIs(mounts, path);
    var longest := LongestLength(mounts, path);
    if n: nat :| IsLongest(mounts, path, n) {
      LongestOnly(mounts, path, n);
      assert forall k: nat :: IsLongest(mounts, path, k) ==> k == n by {
        forall k: nat | IsLongest(mounts, path, k)
          ensures k == n
        {
          LongestOnly(mounts, path, k);
        }
      }
    }
  }

  /**
   * Walking with `opendir` from the root. Where every step is answered faithfully, all of them open exactly when every
   * path on the way resolves, and the last view is then the node that the longest mount prefix leads to.
   */
  lemma {:induction false} WalkIsLongestPrefix(world: World, root: nat, mounts: map<Path, Target>, path: Path)
    requires Lawful(mounts) && FaithfulTo(world, root, mounts, path)
    ensures OpensAll(world, root, mounts, path)
      <==> forall k :: 0 <= k <= |path| ==> ResolvedAt(world, root, mounts, path[..k]).Ok?
    ensures OpensAll(world, root, mounts, path) ==>
      exists node :: ResolvedAt(world, root, mounts, path) == Ok(node) && LeadsTo(world, root, mounts, path, node)
    decreases |path|
  {
    assert path[..|path|] == path;
    if path == [] {
      assert ResolvedAt(world, root, mounts, []) == Ok(Backed(root));
      ResolvesIff(world, root, mounts, path, Backed(root));
    } else {
      var shorter, name := path[..|path| - 1], path[|path| - 1];
      assert path == shorter + [name];
      forall k | 0 <= k <= |shorter|
        ensures shorter[..k] == path[..k]
      {
      }
      assert Faithful(world, root, mounts, path[..|path| - 1], path[|path| - 1]);
      WalkIsLongestPrefix(world, root, mounts, shorter);
      OpendirAgreesIff(world, root, mounts, shorter, name);
      if ResolvedAt(world, root, mounts, path).Ok? {
        ResolvesIff(world, root, mounts, path, ResolvedAt(world, root, mounts, path).value);
      }
    }
  }

  /** A directory mount opens, and its view is backed by the mounted value. */
  lemma {:induction false} OpendirOfMount(world: World, root: nat, mounts: map<Path, Target>, path: Path, name: string)
    requires path + [name] in mounts && mounts[path + [name]].kind == DirMount
    ensures OpenedFrom(world, root, mounts, path, name) == Ok(true)
    ensures ResolvedAt(world, root, mounts, path + [name]) == Ok(Backed(mounts[path + [name]].value))
  {
    ResolveMounted(world, root, mounts, path + [name]);
  }

  /** The mount is accepted. */
  ghost predicate Mountable(world: World, root: nat, mounts: map<Path, Target>, path: Path, kind: Kind) {
    path != [] && RootHolds(world, root, path) == Ok(false) && !Refuses(mounts, path, kind)
  }

  /** An accepted mount shadows nothing: the root shows no such name, and resolved alone the path has no backing. */
  lemma {:induction false} MountShadowsNothing(
      world: World, root: nat, mounts: map<Path, Target>, path: Path, kind: Kind)
    requires Mountable(world, root, mounts, path, kind)
    ensures forall parent :: LeadsToParent(world, root, path, parent) ==> !Shows(world, parent, path[|path| - 1])
    ensures Traversed(world, root, path) == Ok(None)
    ensures path !in mounts && forall m :: m in mounts && m < path ==> mounts[m].kind == DirMount
    ensures kind == TableMount ==> forall m :: m in mounts ==> !(path <= m)
  {
    RootHoldsIff(world, root, path);
    var shorter, name := path[..|path| - 1], path[|path| - 1];
    assert path == shorter + [name];
    TraversedSnoc(world, root, shorter, name);
  }

  /** A mount over a key of the root table is refused, and so is one over a directory that fails to open. */
  lemma {:induction false} KeyNotShadowed(mounts: map<Path, Target>, kind: Kind)
    ensures var world := World(map[0 := map["d" := Fails]], {0}, {(0, "k")});
      && !Mountable(world, 0, mounts, ["k"], kind) && RootHolds(world, 0, ["k"]) == Ok(true)
      && !Mountable(world, 0, mounts, ["d"], kind) && RootHolds(world, 0, ["d"]) == Ok(true)
  {
    assert ["k"][..0] == [] && ["d"][..0] == [];
  }

  /** Inside a mounted directory a deeper mount opens a view that does not resolve: only root paths become virtual. */
  lemma {:induction false} DeepMountUnresolved()
    ensures var world := World(map[0 := map[], 1 := map[]], {0, 1}, {});
      var first: map<Path, Target> := map[["a"] := Target(DirMount, 1)];
      var mounts := first[["a", "b", "c"] := Target(DirMount, 1)];
      && Mountable(world, 0, map[], ["a"], DirMount) && Mountable(world, 0, first, ["a", "b", "c"], DirMount)
      && OpenedFrom(world, 0, mounts, ["a"], "b") == Ok(true)
      && ResolvedAt(world, 0, mounts, ["a", "b"]) == Err(MissingInMount)
  {
    var world := World(map[0 := map[], 1 := map[]], {0, 1}, {});
    var first: map<Path, Target> := map[["a"] := Target(DirMount, 1)];
    var mounts := first[["a", "b", "c"] := Target(DirMount, 1)];
    assert ["a"][..0] == [] && ["a", "b", "c"][..2] == ["a", "b"];
    assert Traversed(world, 0, ["a", "b"]) == Ok(None);
    assert ["a"] + ["b"] == ["a", "b"] && ["a", "b"] <= ["a", "b", "c"];
    assert ["a", "b"] !in mounts && ["a", "b", "c"] in mounts;
    ResolveMounted(world, 0, mounts, ["a"]);
    ResolveStep(world, 0, mounts, ["a"], "b");
    assert ["a"][..1] == ["a"];
    LongestOnly(mounts, ["a"], 1);
    assert OpenedFrom(world, 0, mounts, ["a"], "b") == Ok(true);
    assert ResolvedAt(world, 0, mounts, ["a", "b"]) == Err(MissingInMount);
  }

  /** A table that is also a directory opens below its mount, though nothing resolves there. */
  lemma {:induction false} TableMountOpens()
    ensures var world := World(map[0 := map[], 1 := map["x" := Opens(2)], 2 := map[]], {0, 1}, {});
      var mounts: map<Path, Target> := map[["t"] := Target(TableMount, 1)];
      && Mountable(world, 0, map[], ["t"], TableMount)
      && OpenedFrom(world, 0, mounts, ["t"], "x") == Ok(true)
      && ResolvedAt(world, 0, mounts, ["t", "x"]) == Err(TraverseTable)
  {
    var world := World(map[0 := map[], 1 := map["x" := Opens(2)], 2 := map[]], {0, 1}, {});
    var mounts: map<Path, Target> := map[["t"] := Target(TableMount, 1)];
    assert ["t"][..0] == [];
    assert ["t"] + ["x"] == ["t", "x"];
    ResolveMounted(world, 0, mounts, ["t"]);
    ResolveStep(world, 0, mounts, ["t"], "x");
    assert ["t"] <= ["t"] && ["t"][..1] == ["t"];
    LongestOnly(mounts, ["t"], 1);
  }
}
