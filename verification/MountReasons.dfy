/** Why a mounted namespace refuses: every error of traversing, resolving and opening, traced to its cause. */
module MountReasons {
  import opened Wrappers
  import opened MountedDir

  ghost predicate StepsTo(world: World, node: nat, name: string, next: nat) {
    node in world.dirs && name in world.dirs[node] && world.dirs[node][name] == Opens(next)
  }

  /** The nodes one passes from `start`, each opened by the directory before it. */
  ghost predicate Way(world: World, start: nat, path: Path, nodes: seq<nat>) {
    && |nodes| == |path| + 1 && nodes[0] == start
    && forall i :: 0 <= i < |path| ==> StepsTo(world, nodes[i], path[i], nodes[i + 1])
  }

  /** The way along `path` gets as far as `node`, which is asked for the segment at `k`. */
  ghost predicate Asks(world: World, start: nat, path: Path, k: nat, node: nat)
    requires k <= |path|
  {
    exists nodes :: Way(world, start, path[..k], nodes) && nodes[k] == node
  }

  /** The node asked for the segment at `k` does not show it. */
  ghost predicate EndsAt(world: World, start: nat, path: Path, k: nat)
    requires k < |path|
  {
    exists node :: Asks(world, start, path, k, node) && node in world.dirs && path[k] !in world.dirs[node]
  }

  ghost predicate NoDirAt(world: World, start: nat, path: Path, k: nat)
    requires k < |path|
  {
    exists node :: Asks(world, start, path, k, node) && node !in world.dirs
  }

  ghost predicate FailsAt(world: World, start: nat, path: Path, k: nat)
    requires k < |path|
  {
    exists node :: Asks(world, start, path, k, node)
      && node in world.dirs && path[k] in world.dirs[node] && world.dirs[node][path[k]] == Fails
  }

  /** What a shorter path asks is what the longer one asks first. */
  lemma {:induction false} Earlier(world: World, start: nat, path: Path)
    requires path != []
    ensures var shorter := path[..|path| - 1];
      && (forall k, node :: 0 <= k < |path| ==>
            (Asks(world, start, shorter, k, node) <==> Asks(world, start, path, k, node)))
      && (forall k :: 0 <= k < |shorter| ==>
            && (EndsAt(world, start, shorter, k) <==> EndsAt(world, start, path, k))
            && (NoDirAt(world, start, shorter, k) <==> NoDirAt(world, start, path, k))
            && (FailsAt(world, start, shorter, k) <==> FailsAt(world, start, path, k)))
  {
    var shorter := path[..|path| - 1];
    forall k | 0 <= k < |path|
      ensures shorter[..k] == path[..k]
    {
    }
  }

  /** The last node is the one that the node before it opens. */
  lemma {:induction false} LastStep(world: World, start: nat, path: Path)
    requires path != []
    ensures var n := |path| - 1;
      forall next :: Asks(world, start, path, |path|, next) <==>
        exists node :: Asks(world, start, path, n, node) && StepsTo(world, node, path[n], next)
  {
    var n := |path| - 1;
    assert path[..|path|] == path;
    forall next | Asks(world, start, path, |path|, next)
      ensures exists node :: Asks(world, start, path, n, node) && StepsTo(world, node, path[n], next)
    {
      var nodes :| Way(world, start, path, nodes) && nodes[|path|] == next;
      assert Way(world, start, path[..n], nodes[..n + 1]);
      assert Asks(world, start, path, n, nodes[n]);
    }
    forall next, node | Asks(world, start, path, n, node) && StepsTo(world, node, path[n], next)
      ensures Asks(world, start, path, |path|, next)
    {
      var nodes :| Way(world, start, path[..n], nodes) && nodes[n] == node;
      assert Way(world, start, path, nodes + [next]);
    }
  }

  /** The way to a node is what the traversal that ends there takes. */
  lemma {:induction false} AsksIff(world: World, start: nat, path: Path, node: nat)
    ensures Traversed(world, start, path) == Ok(Some(node)) <==> Asks(world, start, path, |path|, node)
    decreases |path|
  {
    assert path[..|path|] == path;
    if path == [] {
      assert Way(world, start, [], [start]);
    } else {
      var n := |path| - 1;
      var shorter, name := path[..n], path[n];
      assert path == shorter + [name];
      TraversedSnoc(world, start, shorter, name);
      Earlier(world, start, path);
      LastStep(world, start, path);
      var r := Traversed(world, start, shorter);
      forall via: nat
        ensures Asks(world, start, path, n, via) <==> r == Ok(Some(via))
      {
        AsksIff(world, start, shorter, via);
      }
    }
  }

  /** Where a traversal stops: at a name that is not there, at a node that is no directory, or at a failure. */
  lemma {:induction false} TraversedIff(world: World, start: nat, path: Path)
    ensures var r := Traversed(world, start, path);
      && (r == Ok(None) <==> exists k :: 0 <= k < |path| && EndsAt(world, start, path, k))
      && (r == Err(NotDirectory) <==> exists k :: 0 <= k < |path| && NoDirAt(world, start, path, k))
      && (r == Err(OpenFailed) <==> exists k :: 0 <= k < |path| && FailsAt(world, start, path, k))
      && (r.Err? ==> r.error == NotDirectory || r.error == OpenFailed)
    decreases |path|
  {
    if path != [] {
      var n := |path| - 1;
      var shorter, name := path[..n], path[n];
      assert path == shorter + [name];
      TraversedIff(world, start, shorter);
      TraversedSnoc(world, start, shorter, name);
      Earlier(world, start, path);
      AskedLast(world, start, path);
      hide EndsAt, NoDirAt, FailsAt, Asks;
    }
  }

  /** What happens at the last segment, seen from what the traversal of the others reaches. */
  lemma {:induction false} AskedLast(world: World, start: nat, path: Path)
    requires path != []
    ensures var n := |path| - 1; var r := Traversed(world, start, path[..n]);
      && (EndsAt(world, start, path, n) <==>
            r.Ok? && r.value.Some? && OpenDir(world, r.value.value, path[n]) == Ok(None))
      && (NoDirAt(world, start, path, n) <==>
            r.Ok? && r.value.Some? && OpenDir(world, r.value.value, path[n]) == Err(NotDirectory))
      && (FailsAt(world, start, path, n) <==>
            r.Ok? && r.value.Some? && OpenDir(world, r.value.value, path[n]) == Err(OpenFailed))
  {
    var n := |path| - 1;
    Earlier(world, start, path);
    forall via: nat
      ensures Asks(world, start, path, n, via) <==> Traversed(world, start, path[..n]) == Ok(Some(via))
    {
      AsksIff(world, start, path[..n], via);
    }
  }

  /** The error a traversal stops with, for its own reason. */
  ghost predicate StopsWith(world: World, start: nat, path: Path, error: MountError) {
    || (error == NotDirectory && exists k :: 0 <= k < |path| && NoDirAt(world, start, path, k))
    || (error == OpenFailed && exists k :: 0 <= k < |path| && FailsAt(world, start, path, k))
  }

  ghost predicate Ends(world: World, start: nat, path: Path) {
    exists k :: 0 <= k < |path| && EndsAt(world, start, path, k)
  }

  /** Why a path does not resolve, read off the longest mount above it, or off the root when there is none. */
  lemma {:induction false} ResolveReason(world: World, root: nat, mounts: map<Path, Target>, path: Path,
      error: MountError)
    ensures ResolvedAt(world, root, mounts, path) == Err(error) <==>
      if MountsAbove(mounts, path) == {} then
        StopsWith(world, root, path, error)
        || (error == NoBacking && Ends(world, root, path) && !HasMountBelow(mounts, path))
      else
        exists n: nat :: IsLongest(mounts, path, n) &&
          var target := mounts[path[..n]];
          if target.kind == TableMount then n < |path| && error == TraverseTable
          else StopsWith(world, target.value, path[n..], error)
               || (error == MissingInMount && Ends(world, target.value, path[n..]))
  {
    hide EndsAt, NoDirAt, FailsAt;
    AboveIffLongest(mounts, path);
    LongestIs(mounts, path);
    if n: nat :| IsLongest(mounts, path, n) {
      LongestOnly(mounts, path, n);
      forall k: nat | IsLongest(mounts, path, k)
        ensures k == n
      {
        LongestOnly(mounts, path, k);
      }
      TraversedIff(world, mounts[path[..n]].value, path[n..]);
    } else {
      TraversedIff(world, root, path);
    }
  }

  /** Why `opendir` fails: a table mount of that name, or the view, or the node that backs it. */
  lemma {:induction false} OpendirReason(world: World, root: nat, mounts: map<Path, Target>, path: Path, name: string,
      error: MountError)
    ensures var child := path + [name]; var current := ResolvedAt(world, root, mounts, path);
      OpenedFrom(world, root, mounts, path, name) == Err(error) <==>
        if child in mounts then mounts[child].kind == TableMount && error == TraverseTable
        else
          && (forall m :: m in mounts ==> !(child <= m))
          && (current == Err(error)
              || (current.Ok? && current.value.Backed? && var node := current.value.value;
                    if node !in world.dirs then error == NotDirectory
                    else name in world.dirs[node] && world.dirs[node][name] == Fails && error == OpenFailed))
  {
  }
}
