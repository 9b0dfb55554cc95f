/** The relation as a directory tree: what plans keep, what each path holds, and the published head. */
module RelationLaws {
  import opened Wrappers
  import opened Keys
  import opened RelationDir

  // ---------------------------------------------------------------------------------------------
  // The tree

  ghost predicate RowOk(legal: iset<string>, state: State, i: nat)
    requires i in state.nodes
  {
    var n := state.nodes[i];
    && n.id == i && i < state.nextId
    && (i == 0 ==> n.parent == 0 && n.name == ROOT_NAME && n.kind == Directory)
    && (i != 0 ==>
      n.parent in state.nodes && n.parent < i && state.nodes[n.parent].kind == Directory && n.name.text in legal)
  }

  ghost predicate SiblingsApart(nodes: map<nat, Node>) {
    forall i, j :: (i in nodes && j in nodes && i != 0 && j != 0
        && nodes[i].parent == nodes[j].parent && nodes[i].name == nodes[j].name)
      ==> i == j
  }

  /** Every row but the root hangs under an older directory, and siblings have different names. */
  ghost predicate Tree(legal: iset<string>, state: State) {
    && 0 in state.nodes && "" !in legal
    && (forall i {:trigger RowOk(legal, state, i)} :: i in state.nodes ==> RowOk(legal, state, i))
    && SiblingsApart(state.nodes)
  }

  lemma {:induction false} OpenedIsTree(legal: iset<string>, codec: Name)
    requires "" !in legal
    ensures Tree(legal, Opened(codec))
  {
    assert RowOk(legal, Opened(codec), 0);
  }

  lemma {:induction false} ResolvedExists(legal: iset<string>, state: State, path: seq<string>)
    requires Tree(legal, state) && Resolve(state.nodes, path).Some?
    ensures Resolve(state.nodes, path).value in state.nodes
    decreases |path|
  {
    if path != [] {
      ResolvedExists(legal, state, path[..|path| - 1]);
      var id := Resolve(state.nodes, path[..|path| - 1]).value;
      var row := LeastKey(Rows(state.nodes, id, path[|path| - 1]));
      assert RowOk(legal, state, row);
    }
  }

  /** The plan puts a new row under its parent. */
  ghost predicate Inserts(state: State, parent: nat, plan: Plan) {
    || plan.Mkdir?
    || (plan.Set? && Child(state.nodes, parent, plan.name).None?)
  }

  lemma {:induction false} InsertKeepsTree(legal: iset<string>, state: State, node: Node)
    requires Tree(legal, state) && node.id == state.nextId && node.parent in state.nodes
    requires node.name.text in legal && Child(state.nodes, node.parent, node.name).None?
    ensures Tree(legal, Inserted(state, node)) <==> state.nodes[node.parent].kind == Directory
  {
    var after := Inserted(state, node);
    assert RowOk(legal, state, node.parent) && RowOk(legal, state, 0);
    assert after.nodes[node.parent] == state.nodes[node.parent];
    if state.nodes[node.parent].kind == Directory {
      InsertedRows(legal, state, node);
      InsertedApart(legal, state, node);
    } else {
      assert !RowOk(legal, after, node.id);
    }
  }

  lemma {:induction false} InsertedRows(legal: iset<string>, state: State, node: Node)
    requires Tree(legal, state) && node.id == state.nextId && node.parent in state.nodes
    requires node.name.text in legal && state.nodes[node.parent].kind == Directory
    ensures forall i :: i in Inserted(state, node).nodes ==> RowOk(legal, Inserted(state, node), i)
  {
    assert RowOk(legal, state, node.parent) && RowOk(legal, state, 0);
    forall i | i in Inserted(state, node).nodes
      ensures RowOk(legal, Inserted(state, node), i)
    {
      if i != node.id {
        assert RowOk(legal, state, i);
      }
    }
  }

  lemma {:induction false} InsertedApart(legal: iset<string>, state: State, node: Node)
    requires Tree(legal, state) && node.id == state.nextId && Child(state.nodes, node.parent, node.name).None?
    ensures SiblingsApart(Inserted(state, node).nodes)
  {
    forall i | i in state.nodes
      ensures i != node.id && !(state.nodes[i].parent == node.parent && state.nodes[i].name == node.name)
    {
      assert RowOk(legal, state, i);
      assert i !in Named(state.nodes, node.parent, node.name);
    }
  }

  /** Rows without children can go. */
  lemma {:induction false} WithoutKeepsTree(legal: iset<string>, state: State, ids: set<nat>)
    requires Tree(legal, state) && 0 !in ids
    requires forall i :: i in state.nodes && i != 0 ==> state.nodes[i].parent !in ids
    ensures Tree(legal, Without(state, ids))
  {
    var after := Without(state, ids);
    forall i | i in after.nodes
      ensures RowOk(legal, after, i)
    {
      assert RowOk(legal, state, i);
    }
  }

  lemma {:induction false} ChildIsRow(legal: iset<string>, state: State, parent: nat, name: Name)
    requires Tree(legal, state) && Child(state.nodes, parent, name).Some?
    ensures var id := Child(state.nodes, parent, name).value;
      && id in state.nodes && state.nodes[id].parent == parent && state.nodes[id].name == name
      && state.nodes[id].id == id
      && (state.nodes[id].kind == Leaf ==> id != 0)
  {
    var id := LeastKey(Named(state.nodes, parent, name));
    assert RowOk(legal, state, id);
  }

  /** A leaf has no rows under it. */
  lemma {:induction false} LeafIsBare(legal: iset<string>, state: State, leaf: nat)
    requires Tree(legal, state) && leaf in state.nodes && state.nodes[leaf].kind == Leaf
    ensures forall i :: i in state.nodes ==> state.nodes[i].parent != leaf
  {
    forall i | i in state.nodes
      ensures state.nodes[i].parent != leaf
    {
      assert RowOk(legal, state, i) && RowOk(legal, state, 0);
    }
  }

  /**
   * A plan keeps the tree exactly when it does not insert under a value row. `execute` does not look at
   * the kind of the parent, so a view whose directory has been replaced by a value can do that.
   */
  lemma {:induction false} PlanKeepsTreeIff(legal: iset<string>, codec: Name, state: State, parent: nat, plan: Plan)
    requires Tree(legal, state) && parent in state.nodes
    requires Effected(legal, codec, state, parent, plan).Ok?
    requires Effected(legal, codec, state, parent, plan).value.Change?
    ensures Tree(legal, Effected(legal, codec, state, parent, plan).value.after)
      <==> !(Inserts(state, parent, plan) && state.nodes[parent].kind == Leaf)
  {
    if plan.Clear? {
      forall i | i in state.nodes && i != 0
        ensures state.nodes[i].parent !in Leaves(state.nodes, parent)
      {
        assert RowOk(legal, state, i);
      }
      assert RowOk(legal, state, 0);
      WithoutKeepsTree(legal, state, Leaves(state.nodes, parent));
    } else if Inserts(state, parent, plan) {
      if plan.Mkdir? {
        InsertKeepsTree(legal, state, Node(state.nextId, parent, plan.name, Directory, [], codec, None));
      } else {
        InsertKeepsTree(legal, state, Node(state.nextId, parent, plan.name, Leaf, plan.bytes, codec, Some(plan.value)));
      }
    } else {
      ChildIsRow(legal, state, parent, plan.name);
      var id := Child(state.nodes, parent, plan.name).value;
      if plan.Set? {
        ReplaceKeepsTree(legal, state, id, plan.value, plan.bytes, codec);
      } else {
        RemoveKeepsTree(legal, state, id);
      }
    }
  }

  lemma {:induction false} ReplaceKeepsTree(legal: iset<string>, state: State, id: nat, value: nat, bytes: seq<nat>,
      codec: Name)
    requires Tree(legal, state) && id in state.nodes && state.nodes[id].kind == Leaf
    ensures var n := state.nodes[id].(bytes := bytes, codec := codec, value := Some(value));
      Tree(legal, State(state.nodes[id := n], state.nextId, state.generation + 1))
  {
    var n := state.nodes[id].(bytes := bytes, codec := codec, value := Some(value));
    var after := State(state.nodes[id := n], state.nextId, state.generation + 1);
    forall i | i in after.nodes
      ensures RowOk(legal, after, i)
    {
      assert RowOk(legal, state, i);
    }
  }

  lemma {:induction false} RemoveKeepsTree(legal: iset<string>, state: State, id: nat)
    requires Tree(legal, state) && id in state.nodes && id != 0
    requires state.nodes[id].kind == Leaf || !HasChildren(state.nodes, id)
    ensures Tree(legal, Without(state, {id}))
  {
    forall i | i in state.nodes && i != 0
      ensures state.nodes[i].parent !in {id}
    {
      assert RowOk(legal, state, i);
      if state.nodes[id].kind == Leaf {
        LeafIsBare(legal, state, id);
      }
    }
    WithoutKeepsTree(legal, state, {id});
  }

  // ---------------------------------------------------------------------------------------------
  // What each path holds

  datatype Item = DirItem | LeafItem(bytes: seq<nat>, codec: Name, value: Option<nat>)

  function ItemOf(n: Node): Item {
    if n.kind == Directory then DirItem else LeafItem(n.bytes, n.codec, n.value)
  }

  /** The nested directory that the rows stand for, path by path. */
  ghost function At(nodes: map<nat, Node>, path: seq<string>): Option<Item> {
    match Resolve(nodes, path)
    case None => None
    case Some(id) => if id in nodes then Some(ItemOf(nodes[id])) else None
  }

  /** A path of segments that are not empty. */
  ghost predicate Clean(path: seq<string>) {
    forall k :: 0 <= k < |path| ==> path[k] != ""
  }

  /** A step leads to a row of that parent and name part, and to the oldest of them. */
  lemma {:induction false} StepLeads(legal: iset<string>, state: State, parent: nat, text: string)
    requires Tree(legal, state)
    ensures var rows := Rows(state.nodes, parent, text);
      && (Step(state.nodes, parent, text).None? <==> rows == {})
      && (rows != {} ==> LeastKey(rows) in rows && Step(state.nodes, parent, text) == Some(LeastKey(rows)))
  {
    var rows := Rows(state.nodes, parent, text);
    if rows != {} {
      assert RowOk(legal, state, LeastKey(rows));
    }
  }

  /**
   * `resolve_id` steps to the row that `child` finds exactly when no older sibling shares the name part. Absent
   * rows agree exactly when no row at all has the name part.
   */
  lemma {:induction false} StepIsChildIff(legal: iset<string>, state: State, parent: nat, name: Name)
    requires Tree(legal, state)
    ensures Step(state.nodes, parent, name.text) == Child(state.nodes, parent, name)
      <==> forall i :: i in Rows(state.nodes, parent, name.text) ==>
             exists j :: j in Named(state.nodes, parent, name) && j <= i
  {
    var rows, named := Rows(state.nodes, parent, name.text), Named(state.nodes, parent, name);
    StepLeads(legal, state, parent, name.text);
    hide Tree, Step;
    assert named <= rows;
    SameLeastIff(rows, named);
  }

  /** Two sets of rows, one within the other, have the same oldest row exactly when nothing older is left out. */
  lemma {:induction false} SameLeastIff(rows: set<nat>, named: set<nat>)
    requires named <= rows
    ensures (if named == {} then rows == {} else rows != {} && LeastKey(rows) == LeastKey(named))
      <==> forall i :: i in rows ==> exists j :: j in named && j <= i
  {
    if rows == {} {
      assert named == {};
    } else if named == {} {
      assert LeastKey(rows) in rows;
    } else {
      var r, n := LeastKey(rows), LeastKey(named);
      assert r in rows && n in rows && r <= n;
      if r == n {
        assert forall i :: i in rows ==> n <= i;
      } else {
        assert forall j :: j in named ==> r < j;
      }
    }
  }

  lemma {:induction false} LeastIff(s: set<nat>, k: nat)
    requires s != {}
    ensures LeastKey(s) == k <==> k in s && forall i :: i in s ==> k <= i
  {
  }

  lemma {:induction false} LastApart(path: seq<string>)
    requires path != []
    ensures path == path[..|path| - 1] + [path[|path| - 1]]
  {
  }

  /** Whatever the names, no row is led to by two paths. */
  lemma {:induction false} PathsApart(legal: iset<string>, state: State, a: seq<string>, b: seq<string>)
    requires Tree(legal, state) && Clean(a) && Clean(b)
    requires Resolve(state.nodes, a).Some? && Resolve(state.nodes, a) == Resolve(state.nodes, b)
    ensures a == b
    decreases |a|
  {
    if a != [] && b != [] {
      var p, q := a[..|a| - 1], b[..|b| - 1];
      StepLeads(legal, state, Resolve(state.nodes, p).value, a[|a| - 1]);
      StepLeads(legal, state, Resolve(state.nodes, q).value, b[|b| - 1]);
      PathsApart(legal, state, p, q);
      LastApart(a);
      LastApart(b);
    } else if a != [] {
      NotRoot(legal, state, a);
    } else if b != [] {
      NotRoot(legal, state, b);
    }
  }

  lemma {:induction false} NotRoot(legal: iset<string>, state: State, path: seq<string>)
    requires Tree(legal, state) && Clean(path) && path != []
    ensures Resolve(state.nodes, path) != Some(0)
  {
    var before := Resolve(state.nodes, path[..|path| - 1]);
    assert RowOk(legal, state, 0);
    if before.Some? {
      StepLeads(legal, state, before.value, path[|path| - 1]);
    }
  }

  // ---------------------------------------------------------------------------------------------
  // Siblings that share a name part

  /** No two siblings share a name part, so nothing is hidden. */
  ghost predicate PartsApart(nodes: map<nat, Node>) {
    forall i, j :: (i in nodes && j in nodes && i != 0 && j != 0
        && nodes[i].parent == nodes[j].parent && nodes[i].name.text == nodes[j].name.text)
      ==> i == j
  }

  /** Only rows of this very name have its name part here. */
  ghost predicate OwnPart(nodes: map<nat, Node>, parent: nat, name: Name) {
    Rows(nodes, parent, name.text) == Named(nodes, parent, name)
  }

  lemma {:induction false} OwnPartAgrees(legal: iset<string>, state: State, parent: nat, name: Name)
    requires Tree(legal, state) && OwnPart(state.nodes, parent, name)
    ensures Step(state.nodes, parent, name.text) == Child(state.nodes, parent, name)
  {
    StepLeads(legal, state, parent, name.text);
  }
}
