/** Runs of plans over one relation: the tree stays a tree and the published head stays in step. */
module RelationRuns {
  import opened Wrappers
  import opened Keys
  import opened RelationDir
  import opened RelationLaws
  import opened RelationPaths

  datatype Op = Op(path: seq<string>, plan: Plan)

  /** State and slot after a run of plans. */
  ghost function RunOf(legal: iset<string>, codec: Name, attached: bool, state: State, slot: Option<nat>, ops: seq<Op>)
    : (State, Option<nat>)
    decreases |ops|
  {
    if ops == [] then (state, slot)
    else
      var (after, published, _) := Executed(legal, codec, attached, state, slot, ops[0].path, ops[0].plan);
      RunOf(legal, codec, attached, after, published, ops[1..])
  }

  /** An insertion is only asked for where the path leads to a directory, or to nothing. */
  ghost predicate Guarded(state: State, op: Op) {
    (op.plan.Set? || op.plan.Mkdir?) && Resolve(state.nodes, op.path).Some? ==>
      var parent := Resolve(state.nodes, op.path).value; parent in state.nodes && state.nodes[parent].kind == Directory
  }

  ghost predicate AllGuarded(
      legal: iset<string>, codec: Name, attached: bool, state: State, slot: Option<nat>, ops: seq<Op>)
    decreases |ops|
  {
    ops == [] ||
    (&& Guarded(state, ops[0])
     && var (after, published, _) := Executed(legal, codec, attached, state, slot, ops[0].path, ops[0].plan);
        AllGuarded(legal, codec, attached, after, published, ops[1..]))
  }

  /** A plan that is guarded keeps the tree, whether it is accepted or not. */
  lemma {:induction false} GuardedKeepsTree(
      legal: iset<string>, codec: Name, attached: bool, state: State, slot: Option<nat>, op: Op)
    requires Tree(legal, state) && Guarded(state, op)
    ensures Tree(legal, Executed(legal, codec, attached, state, slot, op.path, op.plan).0)
  {
    if Resolve(state.nodes, op.path).Some? {
      ResolvedExists(legal, state, op.path);
      var parent := Resolve(state.nodes, op.path).value;
      var effect := Effected(legal, codec, state, parent, op.plan);
      if effect.Ok? && effect.value.Change? {
        PlanKeepsTreeIff(legal, codec, state, parent, op.plan);
      }
    }
  }

  /** Every guarded run from an opened relation keeps a tree. */
  lemma {:induction false} RunKeepsTree(
      legal: iset<string>, codec: Name, attached: bool, state: State, slot: Option<nat>, ops: seq<Op>)
    requires Tree(legal, state) && AllGuarded(legal, codec, attached, state, slot, ops)
    ensures Tree(legal, RunOf(legal, codec, attached, state, slot, ops).0)
    decreases |ops|
  {
    if ops != [] {
      GuardedKeepsTree(legal, codec, attached, state, slot, ops[0]);
      var (after, published, _) := Executed(legal, codec, attached, state, slot, ops[0].path, ops[0].plan);
      RunKeepsTree(legal, codec, attached, after, published, ops[1..]);
    }
  }

  // ---------------------------------------------------------------------------------------------
  // The published head

  predicate InStep(state: State, slot: Option<nat>) {
    slot == HeadFor(state.generation)
  }

  lemma {:induction false} ChangeBumps(legal: iset<string>, codec: Name, state: State, parent: nat, plan: Plan)
    ensures var effect := Effected(legal, codec, state, parent, plan);
      effect.Ok? && effect.value.Change? ==> effect.value.after.generation == state.generation + 1
  {
  }

  /** A head in step is never stale and stays in step; one out of step refuses every change for good. */
  lemma {:induction false} HeadStep(legal: iset<string>, codec: Name, state: State, slot: Option<nat>, op: Op)
    ensures var (after, published, r) := Executed(legal, codec, true, state, slot, op.path, op.plan);
      && (InStep(after, published) <==> InStep(state, slot))
      && (InStep(state, slot) ==> r != Err(StaleHead))
      && (!InStep(state, slot) ==> after == state && published == slot)
  {
    if Resolve(state.nodes, op.path).Some? {
      ChangeBumps(legal, codec, state, Resolve(state.nodes, op.path).value, op.plan);
    }
  }

  /** The plan finds its parent, is not refused there, and has something to do. */
  ghost predicate Changes(legal: iset<string>, codec: Name, state: State, op: Op) {
    && Resolve(state.nodes, op.path).Some?
    && var effect := Effected(legal, codec, state, Resolve(state.nodes, op.path).value, op.plan);
    && effect.Ok? && effect.value.Change?
  }

  /** A stale head is reported exactly when the attached head is out of step and something would change. */
  lemma {:induction false} StaleIff(
      legal: iset<string>, codec: Name, attached: bool, state: State, slot: Option<nat>, op: Op)
    ensures var (after, published, r) := Executed(legal, codec, attached, state, slot, op.path, op.plan);
      && (r == Err(StaleHead) <==> attached && !InStep(state, slot) && Changes(legal, codec, state, op))
      && (r == Err(MissingPath) <==> Resolve(state.nodes, op.path).None?)
      && (r.Err? || !Changes(legal, codec, state, op) ==> after == state && published == slot)
      && (r.Ok? && Changes(legal, codec, state, op) ==> after.generation == state.generation + 1)
      && (r.Ok? && Changes(legal, codec, state, op) && attached ==> published == HeadFor(after.generation))
      && (!attached ==> published == slot)
  {
    if Resolve(state.nodes, op.path).Some? {
      ChangeBumps(legal, codec, state, Resolve(state.nodes, op.path).value, op.plan);
    }
  }

  /** A head attached to an empty slot at generation zero equals the generation after every run. */
  lemma {:induction false} HeadFollows(legal: iset<string>, codec: Name, state: State, slot: Option<nat>, ops: seq<Op>)
    ensures var (after, published) := RunOf(legal, codec, true, state, slot, ops);
      && (InStep(after, published) <==> InStep(state, slot))
      && (!InStep(state, slot) ==> after == state && published == slot)
    decreases |ops|
  {
    if ops != [] {
      HeadStep(legal, codec, state, slot, ops[0]);
      var (after, published, _) := Executed(legal, codec, true, state, slot, ops[0].path, ops[0].plan);
      HeadFollows(legal, codec, after, published, ops[1..]);
    }
  }

  /** An opened relation keeps its head in step over every run exactly when the slot was empty; else it is stuck. */
  lemma {:induction false} OpenedFollows(legal: iset<string>, codec: Name, slot: Option<nat>, ops: seq<Op>)
    ensures var (after, published) := RunOf(legal, codec, true, Opened(codec), slot, ops);
      && (published == HeadFor(after.generation) <==> slot == None)
      && (slot != None ==> after == Opened(codec) && published == slot)
  {
    HeadFollows(legal, codec, Opened(codec), slot, ops);
  }

  // ---------------------------------------------------------------------------------------------
  // Reading

  /** What a key holds is what the nested directory holds there, if it is the name `resolve_id` would step to. */
  lemma {:induction false} GetReadsAt(legal: iset<string>, codec: Name, state: State, path: seq<string>, parent: nat,
      name: Name, decode: seq<nat> -> Option<nat>)
    requires Grounded(legal, state, path, parent) && name.text != ""
    requires Step(state.nodes, parent, name.text) == Child(state.nodes, parent, name)
    ensures Got(codec, state, path, name, decode) ==
      match At(state.nodes, path + [name.text])
      case None => Ok(None)
      case Some(DirItem) => Err(NameIsDirectory)
      case Some(LeafItem(bytes, stored, _)) => if stored == codec then Ok(decode(bytes)) else Err(CodecMismatch)
  {
    TargetIsChild(legal, state, path, parent, name);
    if Child(state.nodes, parent, name).Some? {
      ChildIsRow(legal, state, parent, name);
    }
  }

  /** A key of a missing path cannot be read, and one that names no row of the parent reads as nothing. */
  lemma {:induction false} GetMissing(
      codec: Name, state: State, path: seq<string>, name: Name, decode: seq<nat> -> Option<nat>)
    ensures Got(codec, state, path, name, decode) == Err(MissingPath) <==> Resolve(state.nodes, path).None?
    ensures (exists parent :: Resolve(state.nodes, path) == Some(parent) && Child(state.nodes, parent, name).None?) ==>
      Got(codec, state, path, name, decode) == Ok(None)
  {
  }

  /** The empty name finds the root itself under the root: no plan inserts, replaces or removes it. */
  lemma {:induction false} RootStays(legal: iset<string>, codec: Name, state: State, value: nat, bytes: seq<nat>)
    requires Tree(legal, state)
    ensures Child(state.nodes, 0, ROOT_NAME) == Some(0)
    ensures Effected(legal, codec, state, 0, Rmdir(ROOT_NAME)) == Err(RootRemoved)
    ensures Effected(legal, codec, state, 0, Delete(ROOT_NAME)) == Err(DeleteOfDirectory)
    ensures Effected(legal, codec, state, 0, Mkdir(ROOT_NAME)) == Err(IllegalName)
    ensures Effected(legal, codec, state, 0, Set(ROOT_NAME, value, bytes)) == Err(IllegalName)
  {
    assert RowOk(legal, state, 0);
    assert 0 in Named(state.nodes, 0, ROOT_NAME);
    LeastIff(Named(state.nodes, 0, ROOT_NAME), 0);
  }

  /** A new row is the youngest, so what was resolved before still is. */
  lemma {:induction false} OldPathsStay(legal: iset<string>, state: State, node: Node, q: seq<string>)
    requires Tree(legal, state) && node.id == state.nextId
    requires Resolve(state.nodes, q).Some?
    ensures Resolve(Inserted(state, node).nodes, q) == Resolve(state.nodes, q)
    decreases |q|
  {
    if q != [] {
      var r, text := q[..|q| - 1], q[|q| - 1];
      OldPathsStay(legal, state, node, r);
      var id := Resolve(state.nodes, r).value;
      StepLeads(legal, state, id, text);
      OldStepStays(legal, state, node, id, text);
    }
  }

  lemma {:induction false} OldStepStays(legal: iset<string>, state: State, node: Node, id: nat, text: string)
    requires Tree(legal, state) && node.id == state.nextId
    requires Rows(state.nodes, id, text) != {}
    ensures Step(Inserted(state, node).nodes, id, text) == Step(state.nodes, id, text)
  {
    forall i | i in state.nodes
      ensures i < node.id
    {
      OldRows(legal, state, i);
    }
    hide Tree;
    YoungestNeverLeast(state.nodes, node, id, text);
  }

  lemma {:induction false} YoungestNeverLeast(nodes: map<nat, Node>, node: Node, id: nat, text: string)
    requires (forall i :: i in nodes ==> i < node.id) && Rows(nodes, id, text) != {}
    ensures Step(nodes[node.id := node], id, text) == Step(nodes, id, text)
  {
    var rows, after := Rows(nodes, id, text), Rows(nodes[node.id := node], id, text);
    var least := LeastKey(rows);
    assert forall i :: i in after ==> i == node.id || i in rows;
    assert least in after;
    LeastIff(after, least);
  }

  /** What was set under a directory is read back, whatever the name and whatever hides it. */
  lemma {:induction false} GetAfterSet(legal: iset<string>, codec: Name, state: State, path: seq<string>, parent: nat,
      name: Name, value: nat, bytes: seq<nat>, decode: seq<nat> -> Option<nat>)
    requires Tree(legal, state) && Resolve(state.nodes, path) == Some(parent) && decode(bytes) == Some(value)
    requires Effected(legal, codec, state, parent, Set(name, value, bytes)).Ok?
    ensures var after := Effected(legal, codec, state, parent, Set(name, value, bytes)).value;
      after.Change? && Got(codec, after.after, path, name, decode) == Ok(Some(value))
  {
    var child := Child(state.nodes, parent, name);
    if child.Some? {
      ChildIsRow(legal, state, parent, name);
      var n := state.nodes[child.value].(bytes := bytes, codec := codec, value := Some(value));
      ResolveReplaced(state.nodes, child.value, n, path);
      SameNamed(state.nodes, child.value, n, parent, name);
    } else {
      var node := Node(state.nextId, parent, name, Leaf, bytes, codec, Some(value));
      OldPathsStay(legal, state, node, path);
      NewNamed(legal, state, node);
    }
  }

  lemma {:induction false} SameNamed(nodes: map<nat, Node>, id: nat, n: Node, parent: nat, name: Name)
    requires id in nodes && n.parent == nodes[id].parent && n.name == nodes[id].name
    ensures Child(nodes[id := n], parent, name) == Child(nodes, parent, name)
  {
    assert Named(nodes[id := n], parent, name) == Named(nodes, parent, name);
  }

  lemma {:induction false} NewNamed(legal: iset<string>, state: State, node: Node)
    requires Tree(legal, state) && node.id == state.nextId && Child(state.nodes, node.parent, node.name).None?
    ensures Child(Inserted(state, node).nodes, node.parent, node.name) == Some(node.id)
  {
    assert Named(Inserted(state, node).nodes, node.parent, node.name)
        == Named(state.nodes, node.parent, node.name) + {node.id};
  }

  // ---------------------------------------------------------------------------------------------
  // Runs as updates of a nested directory

  /** A nested directory: what every path holds. */
  type Nested = seq<string> -> Option<Item>

  ghost predicate OccupiedIn(held: Nested, path: seq<string>) {
    exists text :: text != "" && held(path + [text]).Some?
  }

  /** The nested directory after a plan at `path`: unchanged if there is no directory or the plan is refused. */
  ghost function Stepped(legal: iset<string>, codec: Name, held: Nested, op: Op): Nested {
    var at := if op.plan.Clear? then None else held(TargetOf(op.path, op.plan));
    var occupied := !op.plan.Clear? && OccupiedIn(held, TargetOf(op.path, op.plan));
    if held(op.path) != Some(DirItem) || Refused(legal, at, occupied, op.plan).Some? then held
    else q => Updated(codec, op.path, op.plan, q, held(q))
  }

  /** What the nested directory answers: its refusal, or what a delete took away. */
  ghost function NestedReply(legal: iset<string>, held: Nested, op: Op): Result<Option<nat>, Refusal> {
    var at := if op.plan.Clear? then None else held(TargetOf(op.path, op.plan));
    var occupied := !op.plan.Clear? && OccupiedIn(held, TargetOf(op.path, op.plan));
    if held(op.path).None? then Err(MissingPath)
    else if held(op.path).value.LeafItem? then if op.plan.Rmdir? then Err(DirectoryAbsent) else Ok(None)
    else if Refused(legal, at, occupied, op.plan).Some? then Err(Refused(legal, at, occupied, op.plan).value)
    else Ok(if op.plan.Delete? && at.Some? && at.value.LeafItem? then at.value.value else None)
  }

  /** The plan has something to do: all that is not refused, but deleting what is not there. */
  ghost predicate Effective(legal: iset<string>, held: Nested, op: Op) {
    && NestedReply(legal, held, op).Ok?
    && (op.plan.Delete? ==> held(op.path) == Some(DirItem) && held(TargetOf(op.path, op.plan)).Some?)
  }

  /** The replies of a run of plans, on the rows and in the nested directory. */
  ghost function RepliesOf(
      legal: iset<string>, codec: Name, attached: bool, state: State, slot: Option<nat>, ops: seq<Op>)
    : seq<Result<Option<nat>, Refusal>>
    decreases |ops|
  {
    if ops == [] then []
    else
      var (after, published, r) := Executed(legal, codec, attached, state, slot, ops[0].path, ops[0].plan);
      [r] + RepliesOf(legal, codec, attached, after, published, ops[1..])
  }

  ghost function NestedReplies(legal: iset<string>, codec: Name, held: Nested, ops: seq<Op>)
    : seq<Result<Option<nat>, Refusal>>
    decreases |ops|
  {
    if ops == [] then []
    else [NestedReply(legal, held, ops[0])] + NestedReplies(legal, codec, Stepped(legal, codec, held, ops[0]), ops[1..])
  }

  ghost function NestedRun(legal: iset<string>, codec: Name, held: Nested, ops: seq<Op>): Nested
    decreases |ops|
  {
    if ops == [] then held else NestedRun(legal, codec, Stepped(legal, codec, held, ops[0]), ops[1..])
  }

  /** The rows spell the nested directory. */
  ghost predicate Spells(nodes: map<nat, Node>, held: Nested) {
    forall q :: Clean(q) ==> At(nodes, q) == held(q)
  }

  /** No name of the plan is shared with a sibling of another namespace, and no row is inserted under a value. */
  ghost predicate Apart(state: State, op: Op) {
    && Clean(op.path) && (!op.plan.Clear? ==> op.plan.name.text != "")
    && (Resolve(state.nodes, op.path).Some? ==>
          var parent := Resolve(state.nodes, op.path).value;
          && (!op.plan.Clear? ==> OwnPart(state.nodes, parent, op.plan.name)))
  }

  ghost predicate AllApart(
      legal: iset<string>, codec: Name, attached: bool, state: State, slot: Option<nat>, ops: seq<Op>)
    decreases |ops|
  {
    ops == [] ||
    (&& Guarded(state, ops[0]) && Apart(state, ops[0])
     && var (after, published, _) := Executed(legal, codec, attached, state, slot, ops[0].path, ops[0].plan);
        AllApart(legal, codec, attached, after, published, ops[1..]))
  }

  /** Where no two siblings share a name part nothing is hidden behind a row. */
  lemma {:induction false} ApartHidesNothing(legal: iset<string>, state: State, ids: set<nat>)
    requires Tree(legal, state) && PartsApart(state.nodes) && 0 !in ids
    ensures NothingHidden(state.nodes, ids)
  {
  }

  lemma {:induction false} StaysApart(legal: iset<string>, codec: Name, state: State, parent: nat, plan: Plan)
    requires Tree(legal, state) && PartsApart(state.nodes)
    requires !plan.Clear? ==> OwnPart(state.nodes, parent, plan.name)
    requires Effected(legal, codec, state, parent, plan).Ok?
    requires Effected(legal, codec, state, parent, plan).value.Change?
    ensures PartsApart(Effected(legal, codec, state, parent, plan).value.after.nodes)
  {
    var after := Effected(legal, codec, state, parent, plan).value.after;
    assert RowOk(legal, state, 0);
    if Inserts(state, parent, plan) {
      forall i | i in state.nodes
        ensures i < state.nextId
      {
        OldRows(legal, state, i);
      }
      hide Tree;
      assert Named(state.nodes, parent, plan.name) == {};
      NewStaysApart(state.nodes, after.nodes[state.nextId]);
    } else if plan.Set? {
      ChildIsRow(legal, state, parent, plan.name);
    }
  }

  lemma {:induction false} NewStaysApart(nodes: map<nat, Node>, node: Node)
    requires PartsApart(nodes) && Rows(nodes, node.parent, node.name.text) == {} && node.id !in nodes
    ensures PartsApart(nodes[node.id := node])
  {
    forall i | i in nodes
      ensures !(nodes[i].parent == node.parent && nodes[i].name.text == node.name.text)
    {
      assert i !in Rows(nodes, node.parent, node.name.text);
    }
  }

  /** Nothing is there to remove under a value. */
  lemma {:induction false} NothingUnderLeaf(legal: iset<string>, codec: Name, state: State, parent: nat, plan: Plan)
    requires Tree(legal, state) && parent in state.nodes && state.nodes[parent].kind == Leaf
    requires plan.Delete? || plan.Rmdir? || plan.Clear?
    ensures match Effected(legal, codec, state, parent, plan)
      case Err(refusal) => plan.Rmdir? && refusal == DirectoryAbsent
      case Ok(NoChange) => plan.Delete?
      case Ok(Change(after, removed)) => plan.Clear? && after.nodes == state.nodes && removed == None
  {
    LeafIsBare(legal, state, parent);
    if plan.Clear? {
      assert Leaves(state.nodes, parent) == {};
    } else {
      assert Named(state.nodes, parent, plan.name) == {};
    }
  }

  /** What the rows and the nested directory say of the plan's target. */
  lemma {:induction false} TargetAlike(nodes: map<nat, Node>, held: Nested, target: seq<string>)
    requires Spells(nodes, held) && Clean(target)
    ensures At(nodes, target) == held(target) && (Occupied(nodes, target) <==> OccupiedIn(held, target))
  {
    forall text: string | text != ""
      ensures At(nodes, target + [text]) == held(target + [text])
    {
      assert Clean(target + [text]);
    }
  }

  /** A plan under a directory: refused alike, and otherwise every path is updated alike. */
  lemma {:induction false} PlanAlike(legal: iset<string>, codec: Name, state: State, parent: nat, op: Op, held: Nested)
    requires Grounded(legal, state, op.path, parent) && PartsApart(state.nodes) && Apart(state, op)
    requires Spells(state.nodes, held)
    ensures var next, reply := Stepped(legal, codec, held, op), NestedReply(legal, held, op);
      match Effected(legal, codec, state, parent, op.plan)
      case Err(refusal) => next == held && reply == Err(refusal)
      case Ok(NoChange) => Spells(state.nodes, next) && reply == Ok(None) && !Effective(legal, held, op)
      case Ok(Change(after, removed)) =>
        && Tree(legal, after) && PartsApart(after.nodes) && Spells(after.nodes, next)
        && reply == Ok(removed) && Effective(legal, held, op)
  {
    var plan := op.plan;
    assert held(op.path) == At(state.nodes, op.path) == Some(DirItem);
    if !plan.Clear? {
      OwnPartAgrees(legal, state, parent, plan.name);
      TargetIsChild(legal, state, op.path, parent, plan.name);
      TargetAlike(state.nodes, held, TargetOf(op.path, plan));
    }
    RefusedAlike(legal, codec, state, op.path, parent, plan);
    var effect := Effected(legal, codec, state, parent, plan);
    if effect.Ok? && effect.value.Change? {
      RemovesNotRoot(legal, state, parent, plan);
      ApartHidesNothing(legal, state, Removes(state.nodes, parent, plan));
      StaysApart(legal, codec, state, parent, plan);
      forall q | Clean(q)
        ensures At(effect.value.after.nodes, q) == Updated(codec, op.path, plan, q, held(q))
      {
        UpdatedAlike(legal, codec, state, op.path, parent, plan, q);
      }
      UpdatedAlike(legal, codec, state, op.path, parent, plan, op.path);
    }
  }

  lemma {:induction false} RemovesNotRoot(legal: iset<string>, state: State, parent: nat, plan: Plan)
    requires Tree(legal, state) && (!plan.Clear? ==> plan.name.text != "")
    ensures 0 !in Removes(state.nodes, parent, plan)
  {
    assert RowOk(legal, state, 0);
    if !plan.Clear? && Child(state.nodes, parent, plan.name).Some? {
      ChildIsRow(legal, state, parent, plan.name);
    }
  }

  /** Without looking at the head, a plan does on the rows one step of the nested directory, reply included. */
  lemma {:induction false} EffectAlike(legal: iset<string>, codec: Name, state: State, op: Op, held: Nested)
    requires Tree(legal, state) && PartsApart(state.nodes) && Guarded(state, op) && Apart(state, op)
    requires Spells(state.nodes, held)
    ensures var next, reply := Stepped(legal, codec, held, op), NestedReply(legal, held, op);
      && (Resolve(state.nodes, op.path).None? ==> next == held && reply == Err(MissingPath))
      && (Resolve(state.nodes, op.path).Some? ==>
            match Effected(legal, codec, state, Resolve(state.nodes, op.path).value, op.plan)
            case Err(refusal) => Spells(state.nodes, next) && reply == Err(refusal)
            case Ok(NoChange) => Spells(state.nodes, next) && reply == Ok(None)
            case Ok(Change(after, removed)) =>
              Spells(after.nodes, next) && PartsApart(after.nodes) && reply == Ok(removed))
      && (Effective(legal, held, op) <==> Changes(legal, codec, state, op))
  {
    assert held(op.path) == At(state.nodes, op.path);
    if Resolve(state.nodes, op.path).Some? {
      ResolvedExists(legal, state, op.path);
      var parent := Resolve(state.nodes, op.path).value;
      if state.nodes[parent].kind == Directory {
        PlanAlike(legal, codec, state, parent, op, held);
      } else {
        NothingUnderLeaf(legal, codec, state, parent, op.plan);
      }
    }
  }

  /**
   * One plan on the rows is one step of the nested directory, and the caller is told what the nested directory
   * answers. Only when an attached head is out of step nothing happens, and a plan that has something to do is told so.
   */
  lemma {:induction false} StepAlike(legal: iset<string>, codec: Name, attached: bool, state: State, slot: Option<nat>,
      op: Op, held: Nested)
    requires Tree(legal, state) && PartsApart(state.nodes) && Guarded(state, op) && Apart(state, op)
    requires Spells(state.nodes, held)
    ensures var (after, published, r) := Executed(legal, codec, attached, state, slot, op.path, op.plan);
      if attached && !InStep(state, slot) then
        && after == state && published == slot
        && r == if Effective(legal, held, op) then Err(StaleHead) else NestedReply(legal, held, op)
      else
        && Tree(legal, after) && PartsApart(after.nodes) && (attached ==> InStep(after, published))
        && Spells(after.nodes, Stepped(legal, codec, held, op)) && r == NestedReply(legal, held, op)
  {
    hide Effected, Tree, PartsApart, Spells, Stepped, NestedReply, Effective, Guarded, Apart;
    GuardedKeepsTree(legal, codec, attached, state, slot, op);
    EffectAlike(legal, codec, state, op, held);
    if attached {
      HeadStep(legal, codec, state, slot, op);
    }
  }

  /** A whole run of plans is the run of updates of the nested directory that the rows spelled at the start. */
  lemma {:induction false} RunAlike(legal: iset<string>, codec: Name, attached: bool, state: State, slot: Option<nat>,
      ops: seq<Op>, held: Nested)
    requires Tree(legal, state) && PartsApart(state.nodes) && AllApart(legal, codec, attached, state, slot, ops)
    requires (attached ==> InStep(state, slot)) && Spells(state.nodes, held)
    ensures var (after, published) := RunOf(legal, codec, attached, state, slot, ops);
      Tree(legal, after) && PartsApart(after.nodes) && Spells(after.nodes, NestedRun(legal, codec, held, ops))
    ensures RepliesOf(legal, codec, attached, state, slot, ops) == NestedReplies(legal, codec, held, ops)
    decreases |ops|
  {
    if ops != [] {
      StepAlike(legal, codec, attached, state, slot, ops[0], held);
      var (after, published, _) := Executed(legal, codec, attached, state, slot, ops[0].path, ops[0].plan);
      RunAlike(legal, codec, attached, after, published, ops[1..], Stepped(legal, codec, held, ops[0]));
    }
  }

  /** An opened relation spells the empty directory. */
  lemma {:induction false} OpenedSpells(legal: iset<string>, codec: Name)
    requires "" !in legal
    ensures Tree(legal, Opened(codec)) && PartsApart(Opened(codec).nodes)
    ensures Spells(Opened(codec).nodes, q => if q == [] then Some(DirItem) else None)
  {
    OpenedIsTree(legal, codec);
    forall q | Clean(q) && q != []
      ensures Resolve(Opened(codec).nodes, q) == None
    {
      assert q[..1][..0] == [] && q[..1][0] != "";
      assert Rows(Opened(codec).nodes, 0, q[0]) == {};
      ResolveNoneStays(Opened(codec).nodes, q, 1);
    }
  }

  // ---------------------------------------------------------------------------------------------
  // What does not hold

  /** A directory is made and removed, a value takes its name, and a view of the directory sets a key. */
  lemma {:induction false} StaleViewSteps(legal: iset<string>, codec: Name, a: Name, x: Name)
    returns (s1: State, s2: State, s3: State, s4: State)
    requires legal == iset{"a", "x"} && a == Name(None, "a") && x == Name(None, "x")
    ensures Effected(legal, codec, Opened(codec), 0, Mkdir(a)) == Ok(Change(s1, None))
    ensures Effected(legal, codec, s1, 0, Rmdir(a)) == Ok(Change(s2, None))
    ensures Effected(legal, codec, s2, 0, Set(a, 7, [])) == Ok(Change(s3, None))
    ensures Effected(legal, codec, s3, 2, Set(x, 8, [])) == Ok(Change(s4, None))
    ensures 1 in s1.nodes && s1.nodes[1].kind == Directory && Rows(s1.nodes, 0, "a") == {1} && s1.nodes[1].id == 1
    ensures 2 in s3.nodes && s3.nodes[2].kind == Leaf && Rows(s3.nodes, 0, "a") == {2} && s3.nodes[2].id == 2
    ensures 0 in s1.nodes && 0 in s2.nodes && Inserts(s3, 2, Set(x, 8, []))
    ensures s1.nodes[0].kind == Directory && s2.nodes[0].kind == Directory
  {
    var s0 := Opened(codec);
    s1 := Inserted(s0, Node(1, 0, a, Directory, [], codec, None));
    s2 := Without(s1, {1});
    s3 := Inserted(s2, Node(2, 0, a, Leaf, [], codec, Some(7)));
    s4 := Inserted(s3, Node(3, 2, x, Leaf, [], codec, Some(8)));
    assert Named(s0.nodes, 0, a) == {} && Named(s1.nodes, 0, a) == {1} && Named(s2.nodes, 0, a) == {};
    assert Rows(s1.nodes, 0, "a") == {1} && Rows(s3.nodes, 0, "a") == {2} && Named(s3.nodes, 2, x) == {};
  }

  /**
   * A view of a directory that has been removed, and whose name now holds a value, inserts a row under that
   * value: the view is opened after the first plan and used for the last.
   */
  lemma {:induction false} StaleViewBreaksTree(codec: Name)
    ensures var legal: iset<string> := iset{"a", "x"};
      var a, x := Name(None, "a"), Name(None, "x");
      var s1 := Executed(legal, codec, false, Opened(codec), None, [], Mkdir(a)).0;
      var s2 := Executed(legal, codec, false, s1, None, [], Rmdir(a)).0;
      var s3 := Executed(legal, codec, false, s2, None, [], Set(a, 7, [])).0;
      var s4 := Executed(legal, codec, false, s3, None, ["a"], Set(x, 8, [])).0;
      At(s1.nodes, ["a"]) == Some(DirItem) && Tree(legal, s3) && !Tree(legal, s4)
  {
    var legal: iset<string> := iset{"a", "x"};
    var a, x := Name(None, "a"), Name(None, "x");
    var s1, s2, s3, s4 := StaleViewSteps(legal, codec, a, x);
    hide Effected, Tree, Inserts;
    OpenedIsTree(legal, codec);
    PlanKeepsTreeIff(legal, codec, Opened(codec), 0, Mkdir(a));
    PlanKeepsTreeIff(legal, codec, s1, 0, Rmdir(a));
    PlanKeepsTreeIff(legal, codec, s2, 0, Set(a, 7, []));
    PlanKeepsTreeIff(legal, codec, s3, 2, Set(x, 8, []));
    assert ["a"][..0] == [];
    LeastIff({1}, 1);
    LeastIff({2}, 2);
  }

  /** Two siblings may share the name part; then only the older one is ever resolved. */
  lemma {:induction false} QualifiedHides(codec: Name)
    ensures var legal: iset<string> := iset{"x"};
      var s1 := Effected(legal, codec, Opened(codec), 0, Set(Name(Some("n"), "x"), 7, []));
      && s1.Ok? && s1.value.Change?
      && var s2 := Effected(legal, codec, s1.value.after, 0, Mkdir(Name(None, "x")));
      && s2.Ok? && s2.value.Change? && Tree(legal, s2.value.after)
      && Child(s2.value.after.nodes, 0, Name(None, "x")) == Some(2)
      && Resolve(s2.value.after.nodes, ["x"]) == Some(1)
  {
    var legal: iset<string> := iset{"x"};
    var empty := Opened(codec);
    var a, b := Name(Some("n"), "x"), Name(None, "x");
    OpenedIsTree(legal, codec);
    assert Named(empty.nodes, 0, a) == {};
    PlanKeepsTreeIff(legal, codec, empty, 0, Set(a, 7, []));
    var s1 := Effected(legal, codec, empty, 0, Set(a, 7, [])).value.after;
    assert Named(s1.nodes, 0, b) == {};
    PlanKeepsTreeIff(legal, codec, s1, 0, Mkdir(b));
    var s2 := Effected(legal, codec, s1, 0, Mkdir(b)).value.after;
    assert Named(s2.nodes, 0, b) == {2} && Rows(s2.nodes, 0, "x") == {1, 2};
    assert ["x"][..0] == [] && Resolve(s2.nodes, []) == Some(0);
  }
}
