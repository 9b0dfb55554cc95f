/** Plans on the rows are the updates of a nested directory, path by path. */
module RelationPaths {
  import opened Wrappers
  import opened Keys
  import opened RelationDir
  import opened RelationLaws

  lemma {:induction false} SplitLast(path: seq<string>, text: string)
    ensures (path + [text])[..|path|] == path && (path + [text])[|path|] == text && path + [text] != []
  {
  }

  // ---------------------------------------------------------------------------------------------
  // Inserting

  /** The row can be inserted where `path` leads. */
  ghost predicate Insertable(legal: iset<string>, state: State, node: Node, path: seq<string>) {
    && Tree(legal, state) && node.id == state.nextId && node.name.text in legal
    && Clean(path) && Resolve(state.nodes, path) == Some(node.parent) && node.parent in state.nodes
    && state.nodes[node.parent].kind == Directory && Rows(state.nodes, node.parent, node.name.text) == {}
  }

  lemma {:induction false} OldRows(legal: iset<string>, state: State, i: nat)
    requires Tree(legal, state) && i in state.nodes
    ensures i < state.nextId && state.nodes[i].parent < state.nextId
  {
    assert RowOk(legal, state, i) && RowOk(legal, state, 0);
  }

  /** Nothing hangs under the new row. */
  lemma {:induction false} StepUnderNew(legal: iset<string>, state: State, node: Node, path: seq<string>, text: string)
    requires Insertable(legal, state, node, path)
    ensures Step(Inserted(state, node).nodes, node.id, text) == None
  {
    OldRows(legal, state, node.parent);
    forall i | i in state.nodes
      ensures state.nodes[i].parent != node.id
    {
      OldRows(legal, state, i);
    }
    assert Rows(Inserted(state, node).nodes, node.id, text) == {};
  }

  lemma {:induction false} StepToNew(legal: iset<string>, state: State, node: Node, path: seq<string>)
    requires Insertable(legal, state, node, path)
    ensures Step(state.nodes, node.parent, node.name.text) == None
    ensures Step(Inserted(state, node).nodes, node.parent, node.name.text) == Some(node.id)
  {
    assert Rows(Inserted(state, node).nodes, node.parent, node.name.text)
        == Rows(state.nodes, node.parent, node.name.text) + {node.id};
    assert Rows(Inserted(state, node).nodes, node.parent, node.name.text) == {node.id};
  }

  lemma {:induction false} StepElsewhere(legal: iset<string>, state: State, node: Node, id: nat, text: string)
    requires Tree(legal, state) && node.id == state.nextId && !(id == node.parent && text == node.name.text)
    ensures Step(Inserted(state, node).nodes, id, text) == Step(state.nodes, id, text)
  {
    forall i | i in state.nodes
      ensures i != node.id
    {
      OldRows(legal, state, i);
    }
    assert Rows(Inserted(state, node).nodes, id, text) == Rows(state.nodes, id, text);
  }

  lemma {:induction false} ResolveInserted(legal: iset<string>, state: State, node: Node, path: seq<string>,
      q: seq<string>)
    requires Insertable(legal, state, node, path) && Clean(q)
    ensures Resolve(Inserted(state, node).nodes, q) ==
      if q == path + [node.name.text] then Some(node.id) else Resolve(state.nodes, q)
    decreases |q|
  {
    if q != [] {
      var r, text := q[..|q| - 1], q[|q| - 1];
      LastApart(q);
      ResolveInserted(legal, state, node, path, r);
      ResolveInsertedStep(legal, state, node, path, r, text);
    } else {
      SplitLast(path, node.name.text);
    }
  }

  lemma {:induction false} ResolveInsertedStep(
      legal: iset<string>, state: State, node: Node, path: seq<string>, r: seq<string>, text: string)
    requires Insertable(legal, state, node, path) && Clean(r)
    requires Resolve(Inserted(state, node).nodes, r) ==
      if r == path + [node.name.text] then Some(node.id) else Resolve(state.nodes, r)
    ensures Resolve(Inserted(state, node).nodes, r + [text]) ==
      if r + [text] == path + [node.name.text] then Some(node.id) else Resolve(state.nodes, r + [text])
  {
    var after := Inserted(state, node).nodes;
    SplitLast(r, text);
    SplitLast(path, node.name.text);
    StepToNew(legal, state, node, path);
    if r == path + [node.name.text] {
      StepUnderNew(legal, state, node, path, text);
      assert Resolve(state.nodes, r) == None;
    } else if Resolve(state.nodes, r).Some? {
      var id := Resolve(state.nodes, r).value;
      if id == node.parent {
        PathsApart(legal, state, r, path);
      }
      if !(id == node.parent && text == node.name.text) {
        StepElsewhere(legal, state, node, id, text);
      }
    }
  }

  lemma {:induction false} AtInserted(legal: iset<string>, state: State, node: Node, path: seq<string>, q: seq<string>)
    requires Insertable(legal, state, node, path) && Clean(q)
    ensures At(Inserted(state, node).nodes, q) ==
      if q == path + [node.name.text] then Some(ItemOf(node)) else At(state.nodes, q)
  {
    ResolveInserted(legal, state, node, path, q);
    if Resolve(state.nodes, q).Some? {
      ResolvedExists(legal, state, q);
      assert RowOk(legal, state, Resolve(state.nodes, q).value);
    }
  }

  // ---------------------------------------------------------------------------------------------
  // Removing rows without children

  ghost predicate Removable(legal: iset<string>, state: State, ids: set<nat>) {
    && Tree(legal, state) && 0 !in ids && NothingHidden(state.nodes, ids)
    && forall i :: i in state.nodes ==> state.nodes[i].parent !in ids
  }

  /** Younger rows that share the name part of a row in `ids` are in `ids` too. */
  ghost predicate NothingHidden(nodes: map<nat, Node>, ids: set<nat>) {
    forall i, j :: (i in ids && i in nodes && j in nodes && i < j && nodes[i].parent == nodes[j].parent
        && nodes[i].name.text == nodes[j].name.text)
      ==> j in ids
  }

  /** Of the rows of one name part either all go or the oldest stays. */
  lemma {:induction false} RowsWithout(nodes: map<nat, Node>, ids: set<nat>, id: nat, text: string)
    requires NothingHidden(nodes, ids)
    ensures var rows := Rows(nodes, id, text);
      && Rows(nodes - ids, id, text) == rows - ids
      && (rows != {} && LeastKey(rows) in ids ==> rows - ids == {})
      && (rows != {} && LeastKey(rows) !in ids ==> rows - ids != {} && LeastKey(rows - ids) == LeastKey(rows))
  {
    var rows := Rows(nodes, id, text);
    assert Rows(nodes - ids, id, text) == rows - ids;
    if rows != {} && LeastKey(rows) in ids {
      assert rows - ids == {};
    } else if rows != {} {
      assert LeastKey(rows) in rows - ids;
      LeastIff(rows - ids, LeastKey(rows));
    }
  }

  lemma {:induction false} StepWithout(legal: iset<string>, state: State, ids: set<nat>, id: nat, text: string)
    requires Removable(legal, state, ids) && text != ""
    ensures id in ids ==> Step(state.nodes, id, text) == None
    ensures Step(Without(state, ids).nodes, id, text) ==
      if Step(state.nodes, id, text).Some? && Step(state.nodes, id, text).value in ids then None
      else Step(state.nodes, id, text)
  {
    RowsWithout(state.nodes, ids, id, text);
    StepLeads(legal, state, id, text);
    hide NothingHidden, Tree, Rows;
    assert id in ids ==> Rows(state.nodes, id, text) == {} by {
      NoRowsUnder(state.nodes, ids, id, text);
    }
  }

  lemma {:induction false} NoRowsUnder(nodes: map<nat, Node>, ids: set<nat>, id: nat, text: string)
    requires forall i :: i in nodes ==> nodes[i].parent !in ids
    ensures id in ids ==> Rows(nodes, id, text) == {}
  {
  }

  lemma {:induction false} ResolveWithout(legal: iset<string>, state: State, ids: set<nat>, q: seq<string>)
    requires Removable(legal, state, ids) && Clean(q)
    ensures Resolve(Without(state, ids).nodes, q) ==
      if Resolve(state.nodes, q).Some? && Resolve(state.nodes, q).value in ids then None else Resolve(state.nodes, q)
    decreases |q|
  {
    if q != [] {
      var r, text := q[..|q| - 1], q[|q| - 1];
      ResolveWithout(legal, state, ids, r);
      if Resolve(state.nodes, r).Some? {
        StepWithout(legal, state, ids, Resolve(state.nodes, r).value, text);
      }
    }
  }

  lemma {:induction false} AtWithout(legal: iset<string>, state: State, ids: set<nat>, q: seq<string>)
    requires Removable(legal, state, ids) && Clean(q)
    ensures At(Without(state, ids).nodes, q) ==
      if Resolve(state.nodes, q).Some? && Resolve(state.nodes, q).value in ids then None else At(state.nodes, q)
  {
    ResolveWithout(legal, state, ids, q);
    if Resolve(state.nodes, q).Some? {
      ResolvedExists(legal, state, q);
    }
  }

  // ---------------------------------------------------------------------------------------------
  // Replacing a value

  lemma {:induction false} ResolveReplaced(nodes: map<nat, Node>, id: nat, n: Node, q: seq<string>)
    requires id in nodes && n.id == nodes[id].id && n.parent == nodes[id].parent && n.name == nodes[id].name
    ensures Resolve(nodes[id := n], q) == Resolve(nodes, q)
    decreases |q|
  {
    if q != [] {
      var r, text := q[..|q| - 1], q[|q| - 1];
      ResolveReplaced(nodes, id, n, r);
      if Resolve(nodes, r).Some? {
        assert Rows(nodes[id := n], Resolve(nodes, r).value, text) == Rows(nodes, Resolve(nodes, r).value, text);
      }
    }
  }

  // ---------------------------------------------------------------------------------------------
  // Plans as updates of the nested directory

  /** The name of the plan is the one `resolve_id` would step to, or free for it. */
  ghost predicate Seen(nodes: map<nat, Node>, parent: nat, plan: Plan) {
    plan.Clear? || (plan.name.text != "" && Step(nodes, parent, plan.name.text) == Child(nodes, parent, plan.name))
  }

  /** The rows a plan removes. */
  ghost function Removes(nodes: map<nat, Node>, parent: nat, plan: Plan): set<nat> {
    if plan.Clear? then Leaves(nodes, parent)
    else if (plan.Delete? || plan.Rmdir?) && Child(nodes, parent, plan.name).Some? then
      {Child(nodes, parent, plan.name).value}
    else {}
  }

  function TargetOf(path: seq<string>, plan: Plan): seq<string>
    requires !plan.Clear?
  {
    path + [plan.name.text]
  }

  /** What the nested directory holds at `q` after the plan, given what it held. */
  ghost function Updated(codec: Name, path: seq<string>, plan: Plan, q: seq<string>, held: Option<Item>): Option<Item> {
    match plan
    case Set(_, value, bytes) => if q == TargetOf(path, plan) then Some(LeafItem(bytes, codec, Some(value))) else held
    case Mkdir(_) => if q == TargetOf(path, plan) then Some(DirItem) else held
    case Delete(_) => if q == TargetOf(path, plan) then None else held
    case Rmdir(_) => if q == TargetOf(path, plan) then None else held
    case Clear => if q != [] && q[..|q| - 1] == path && held.Some? && held.value.LeafItem? then None else held
  }

  /** When the nested directory refuses the plan, and how. */
  ghost function Refused(legal: iset<string>, at: Option<Item>, occupied: bool, plan: Plan): Option<Refusal> {
    match plan
    case Set(name, _, _) =>
      if name.text !in legal then Some(IllegalName) else if at == Some(DirItem) then Some(NameIsDirectory) else None
    case Mkdir(name) =>
      if name.text !in legal then Some(IllegalName) else if at.Some? then Some(DuplicateSibling) else None
    case Delete(_) => if at == Some(DirItem) then Some(DeleteOfDirectory) else None
    case Rmdir(_) =>
      if at.None? then Some(DirectoryAbsent) else if at.value != DirItem then Some(NotDirectory)
      else if occupied then Some(NotEmpty) else None
    case Clear => None
  }

  /** Something is held one step below. */
  ghost predicate Occupied(nodes: map<nat, Node>, path: seq<string>) {
    exists text :: text != "" && At(nodes, path + [text]).Some?
  }

  /** The path leads to a directory row. */
  ghost predicate Grounded(legal: iset<string>, state: State, path: seq<string>, parent: nat) {
    && Tree(legal, state) && Clean(path) && Resolve(state.nodes, path) == Some(parent)
    && parent in state.nodes && state.nodes[parent].kind == Directory
  }

  lemma {:induction false} TargetIsChild(legal: iset<string>, state: State, path: seq<string>, parent: nat, name: Name)
    requires Grounded(legal, state, path, parent) && name.text != ""
    requires Step(state.nodes, parent, name.text) == Child(state.nodes, parent, name)
    ensures Resolve(state.nodes, path + [name.text]) == Child(state.nodes, parent, name)
    ensures var child := Child(state.nodes, parent, name);
      At(state.nodes, path + [name.text]) ==
        if child.Some? && child.value in state.nodes then Some(ItemOf(state.nodes[child.value])) else None
    ensures Clean(path + [name.text])
  {
    SplitLast(path, name.text);
    if Child(state.nodes, parent, name).Some? {
      ChildIsRow(legal, state, parent, name);
    }
  }

  lemma {:induction false} OccupiedIff(legal: iset<string>, state: State, path: seq<string>, id: nat)
    requires Tree(legal, state) && Resolve(state.nodes, path) == Some(id) && id != 0
    ensures Occupied(state.nodes, path)
      <==> HasChildren(state.nodes, id)
  {
    if Occupied(state.nodes, path) {
      var text :| text != "" && At(state.nodes, path + [text]).Some?;
      SplitLast(path, text);
      var c := Resolve(state.nodes, path + [text]).value;
      StepLeads(legal, state, id, text);
      assert RowOk(legal, state, c);
    }
    if c :| c in state.nodes && state.nodes[c].parent == id && state.nodes[c].id != id {
      assert RowOk(legal, state, c) && RowOk(legal, state, 0);
      var text := state.nodes[c].name.text;
      assert c in Rows(state.nodes, id, text);
      StepLeads(legal, state, id, text);
      SplitLast(path, text);
      ResolvedExists(legal, state, path + [text]);
      assert At(state.nodes, path + [text]).Some?;
    }
  }

  /** What the child row says of the target's path. */
  lemma {:induction false} TargetRow(legal: iset<string>, state: State, path: seq<string>, parent: nat, plan: Plan)
    requires Grounded(legal, state, path, parent) && Seen(state.nodes, parent, plan) && !plan.Clear?
    ensures var child := Child(state.nodes, parent, plan.name); var at := At(state.nodes, TargetOf(path, plan));
      if child.None? then at.None? else
        && child.value in state.nodes && state.nodes[child.value].id == child.value && child.value != 0
        && at == Some(ItemOf(state.nodes[child.value]))
        && (Occupied(state.nodes, TargetOf(path, plan))
            <==> HasChildren(state.nodes, child.value))
  {
    TargetIsChild(legal, state, path, parent, plan.name);
    var child := Child(state.nodes, parent, plan.name);
    if child.Some? {
      ChildIsRow(legal, state, parent, plan.name);
      NotRoot(legal, state, TargetOf(path, plan));
      OccupiedIff(legal, state, TargetOf(path, plan), child.value);
    }
  }

  /** Refusals are those of the nested directory. */
  lemma {:induction false} RefusedAlike(legal: iset<string>, codec: Name, state: State, path: seq<string>, parent: nat,
      plan: Plan)
    requires Grounded(legal, state, path, parent) && Seen(state.nodes, parent, plan)
    ensures var at := if plan.Clear? then None else At(state.nodes, TargetOf(path, plan));
      var refused := Refused(legal, at, !plan.Clear? && Occupied(state.nodes, TargetOf(path, plan)), plan);
      match Effected(legal, codec, state, parent, plan)
      case Err(refusal) => refused == Some(refusal)
      case Ok(effect) =>
        && refused == None && (effect.NoChange? <==> plan.Delete? && at == None)
        && (effect.Change? ==>
          effect.removed == if plan.Delete? && at.Some? && at.value.LeafItem? then at.value.value else None)
  {
    if !plan.Clear? {
      TargetRow(legal, state, path, parent, plan);
    }
  }

  /** After an accepted plan every path holds what the nested directory says. */
  lemma {:induction false} UpdatedAlike(
      legal: iset<string>, codec: Name, state: State, path: seq<string>, parent: nat, plan: Plan, q: seq<string>)
    requires Grounded(legal, state, path, parent) && Seen(state.nodes, parent, plan) && Clean(q)
    requires NothingHidden(state.nodes, Removes(state.nodes, parent, plan))
    requires Effected(legal, codec, state, parent, plan).Ok?
    requires Effected(legal, codec, state, parent, plan).value.Change?
    ensures var after := Effected(legal, codec, state, parent, plan).value.after;
      Tree(legal, after) && At(after.nodes, q) == Updated(codec, path, plan, q, At(state.nodes, q))
  {
    PlanKeepsTreeIff(legal, codec, state, parent, plan);
    if plan.Clear? {
      ClearAlike(legal, state, path, parent, q);
    } else {
      TargetIsChild(legal, state, path, parent, plan.name);
      var child := Child(state.nodes, parent, plan.name);
      StepLeads(legal, state, parent, plan.name.text);
      if plan.Mkdir? {
        AtInserted(legal, state, Node(state.nextId, parent, plan.name, Directory, [], codec, None), path, q);
      } else if plan.Set? && child.None? {
        var node := Node(state.nextId, parent, plan.name, Leaf, plan.bytes, codec, Some(plan.value));
        AtInserted(legal, state, node, path, q);
      } else {
        ChildIsRow(legal, state, parent, plan.name);
        if plan.Set? {
          ReplaceAlike(legal, codec, state, child.value, TargetOf(path, plan), plan.value, plan.bytes, q);
        } else {
          RemoveAlike(legal, state, child.value, TargetOf(path, plan), q);
        }
      }
    }
  }

  lemma {:induction false} ReplaceAlike(
      legal: iset<string>, codec: Name, state: State, id: nat, target: seq<string>, value: nat, bytes: seq<nat>,
      q: seq<string>)
    requires Tree(legal, state) && Clean(target) && Clean(q)
    requires id in state.nodes && state.nodes[id].kind == Leaf && Resolve(state.nodes, target) == Some(id)
    ensures var n := state.nodes[id].(bytes := bytes, codec := codec, value := Some(value));
      At(state.nodes[id := n], q) ==
        if q == target then Some(LeafItem(bytes, codec, Some(value))) else At(state.nodes, q)
  {
    AtReplaced(legal, state, id, state.nodes[id].(bytes := bytes, codec := codec, value := Some(value)), q);
    if Resolve(state.nodes, q) == Some(id) {
      PathsApart(legal, state, q, target);
    }
  }

  lemma {:induction false} AtReplaced(legal: iset<string>, state: State, id: nat, n: Node, q: seq<string>)
    requires Tree(legal, state) && id in state.nodes
    requires n.id == state.nodes[id].id && n.parent == state.nodes[id].parent && n.name == state.nodes[id].name
    ensures At(state.nodes[id := n], q) ==
      if Resolve(state.nodes, q) == Some(id) then Some(ItemOf(n)) else At(state.nodes, q)
  {
    ResolveReplaced(state.nodes, id, n, q);
  }

  lemma {:induction false} RemoveAlike(legal: iset<string>, state: State, id: nat, target: seq<string>, q: seq<string>)
    requires Tree(legal, state) && Clean(target) && Clean(q) && target != [] && NothingHidden(state.nodes, {id})
    requires id in state.nodes && Resolve(state.nodes, target) == Some(id)
    requires state.nodes[id].kind == Leaf || !HasChildren(state.nodes, id)
    ensures At(Without(state, {id}).nodes, q) == if q == target then None else At(state.nodes, q)
  {
    NotRoot(legal, state, target);
    forall i | i in state.nodes
      ensures state.nodes[i].parent != id
    {
      assert RowOk(legal, state, i);
      if state.nodes[id].kind == Leaf {
        LeafIsBare(legal, state, id);
      }
    }
    AtWithout(legal, state, {id}, q);
    if Resolve(state.nodes, q) == Some(id) {
      PathsApart(legal, state, q, target);
    }
  }

  lemma {:induction false} RootIsDirectory(legal: iset<string>, state: State)
    requires Tree(legal, state)
    ensures 0 in state.nodes && state.nodes[0].kind == Directory
  {
    assert RowOk(legal, state, 0);
  }

  lemma {:induction false} ClearAlike(legal: iset<string>, state: State, path: seq<string>, parent: nat, q: seq<string>)
    requires Grounded(legal, state, path, parent) && Clean(q) && NothingHidden(state.nodes, Leaves(state.nodes, parent))
    ensures At(Without(state, Leaves(state.nodes, parent)).nodes, q)
      == Updated(ROOT_NAME, path, Clear, q, At(state.nodes, q))
  {
    hide Tree, NothingHidden, Removable;
    LeavesRemovable(legal, state, parent);
    AtWithout(legal, state, Leaves(state.nodes, parent), q);
    if Resolve(state.nodes, q).Some? {
      ResolvedExists(legal, state, q);
      if q == [] {
        RootIsDirectory(legal, state);
      } else {
        LeafUnder(legal, state, path, parent, q);
      }
    }
  }

  lemma {:induction false} LeavesRemovable(legal: iset<string>, state: State, parent: nat)
    requires Tree(legal, state) && NothingHidden(state.nodes, Leaves(state.nodes, parent))
    ensures Removable(legal, state, Leaves(state.nodes, parent))
  {
    assert RowOk(legal, state, 0);
    forall i | i in state.nodes
      ensures state.nodes[i].parent !in Leaves(state.nodes, parent)
    {
      assert RowOk(legal, state, i);
    }
  }

  lemma {:induction false} LeafUnder(legal: iset<string>, state: State, path: seq<string>, parent: nat, q: seq<string>)
    requires Grounded(legal, state, path, parent) && Clean(q) && q != [] && Resolve(state.nodes, q).Some?
    requires Resolve(state.nodes, q).value in state.nodes
    ensures state.nodes[Resolve(state.nodes, q).value].parent == parent <==> q[..|q| - 1] == path
  {
    var r, id := q[..|q| - 1], Resolve(state.nodes, q).value;
    StepLeads(legal, state, Resolve(state.nodes, r).value, q[|q| - 1]);
    if Resolve(state.nodes, r).value == parent {
      PathsApart(legal, state, r, path);
    }
  }
}
