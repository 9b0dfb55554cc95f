/**
 * A directory tree kept as flat rows with parent pointers, changed by atomic plans.
 *
 * `legal` are the path segments the table core accepts; all that matters is that the empty one is not.
 */
module RelationDir {
  import opened Wrappers
  import opened Keys

  datatype Name = Name(namespace: Option<string>, text: string)

  datatype Kind = Directory | Leaf

  datatype Node = Node(id: nat, parent: nat, name: Name, kind: Kind, bytes: seq<nat>, codec: Name, value: Option<nat>)

  datatype State = State(nodes: map<nat, Node>, nextId: nat, generation: nat)

  datatype Plan =
    | Set(name: Name, value: nat, bytes: seq<nat>)
    | Delete(name: Name)
    | Mkdir(name: Name)
    | Rmdir(name: Name)
    | Clear

  datatype Refusal =
    | MissingPath | IllegalName | NameIsDirectory | DeleteOfDirectory | DuplicateSibling
    | DirectoryAbsent | RootRemoved | NotDirectory | NotEmpty | StaleHead | CodecMismatch

  const ROOT_NAME := Name(None, "")

  /** `open`: only the root row. */
  function Opened(codec: Name): State {
    State(map[0 := Node(0, 0, ROOT_NAME, Directory, [], codec, None)], 1, 0)
  }

  // ---------------------------------------------------------------------------------------------
  // Looking rows up

  function Rows(nodes: map<nat, Node>, parent: nat, text: string): set<nat> {
    set i | i in nodes && nodes[i].parent == parent && nodes[i].name.text == text
  }

  /** One step of `resolve_id`: the first row by id under `parent` whose name part is `text`. */
  function Step(nodes: map<nat, Node>, parent: nat, text: string): Option<nat> {
    var rows := Rows(nodes, parent, text);
    if rows == {} then None else Some(nodes[LeastKey(rows)].id)
  }

  function Named(nodes: map<nat, Node>, parent: nat, name: Name): set<nat> {
    set i | i in nodes && nodes[i].parent == parent && nodes[i].name == name
  }

  /** `child`: the first row by id under `parent` with the whole name. */
  function Child(nodes: map<nat, Node>, parent: nat, name: Name): Option<nat> {
    var rows := Named(nodes, parent, name);
    if rows == {} then None else Some(LeastKey(rows))
  }

  ghost function Resolve(nodes: map<nat, Node>, path: seq<string>): Option<nat>
    decreases |path|
  {
    if path == [] then Some(0)
    else
      match Resolve(nodes, path[..|path| - 1])
      case None => None
      case Some(id) => Step(nodes, id, path[|path| - 1])
  }

  lemma {:induction false} ResolveNoneStays(nodes: map<nat, Node>, path: seq<string>, k: nat)
    requires k <= |path| && Resolve(nodes, path[..k]).None?
    ensures Resolve(nodes, path).None?
    decreases |path| - k
  {
    if k == |path| {
      assert path[..k] == path;
    } else {
      assert path[..k + 1][..k] == path[..k];
      ResolveNoneStays(nodes, path, k + 1);
    }
  }

  /** `resolve_id` */
  method ResolveId(nodes: map<nat, Node>, path: seq<string>) returns (r: Option<nat>)
    ensures r == Resolve(nodes, path)
  {
    var id := 0;
    for k := 0 to |path|
      invariant Resolve(nodes, path[..k]) == Some(id)
    {
      assert path[..k + 1][..k] == path[..k];
      var next := Step(nodes, id, path[k]);
      if next.None? {
        ResolveNoneStays(nodes, path, k + 1);
        return None;
      }
      id := next.value;
    }
    assert path[..|path|] == path;
    return Some(id);
  }

  // ---------------------------------------------------------------------------------------------
  // Plans

  datatype Effect = NoChange | Change(after: State, removed: Option<nat>)

  /** Some row other than the row itself hangs under it. */
  predicate HasChildren(nodes: map<nat, Node>, id: nat) {
    exists c :: c in nodes && nodes[c].parent == id && nodes[c].id != id
  }

  /** The direct children that `clear` removes. */
  function Leaves(nodes: map<nat, Node>, parent: nat): set<nat> {
    set i | i in nodes && nodes[i].parent == parent && nodes[i].kind == Leaf
  }

  function Inserted(state: State, node: Node): State {
    State(state.nodes[state.nextId := node], state.nextId + 1, state.generation + 1)
  }

  function Without(state: State, ids: set<nat>): State {
    State(state.nodes - ids, state.nextId, state.generation + 1)
  }

  /** What a plan does under a resolved parent, before the head is published. */
  function Effected(legal: iset<string>, codec: Name, state: State, parent: nat, plan: Plan): Result<Effect, Refusal> {
    match plan
    case Set(name, value, bytes) =>
      if name.text !in legal then Err(IllegalName)
      else
        (match Child(state.nodes, parent, name)
         case None =>
           Ok(Change(Inserted(state, Node(state.nextId, parent, name, Leaf, bytes, codec, Some(value))), None))
         case Some(id) =>
           var n := state.nodes[id];
           if n.kind == Directory then Err(NameIsDirectory)
           else
             var after := state.nodes[id := n.(bytes := bytes, codec := codec, value := Some(value))];
             Ok(Change(State(after, state.nextId, state.generation + 1), None)))
    case Delete(name) =>
      (match Child(state.nodes, parent, name)
       case None => Ok(NoChange)
       case Some(id) =>
         if state.nodes[id].kind == Directory then Err(DeleteOfDirectory)
         else Ok(Change(Without(state, {id}), state.nodes[id].value)))
    case Mkdir(name) =>
      if name.text !in legal then Err(IllegalName)
      else if Child(state.nodes, parent, name).Some? then Err(DuplicateSibling)
      else Ok(Change(Inserted(state, Node(state.nextId, parent, name, Directory, [], codec, None)), None))
    case Rmdir(name) =>
      (match Child(state.nodes, parent, name)
       case None => Err(DirectoryAbsent)
       case Some(id) =>
         if state.nodes[id].id == 0 then Err(RootRemoved)
         else if state.nodes[id].kind != Directory then Err(NotDirectory)
         else if HasChildren(state.nodes, id) then Err(NotEmpty)
         else Ok(Change(Without(state, {id}), None)))
    case Clear =>
      Ok(Change(Without(state, Leaves(state.nodes, parent)), None))
  }

  /** The head slot that publishes a generation. */
  function HeadFor(generation: nat): Option<nat> {
    if generation == 0 then None else Some(generation)
  }

  /** The state and slot after a plan, and what the caller is told: all of it happens, or nothing. */
  ghost function Executed(
      legal: iset<string>, codec: Name, attached: bool, state: State, slot: Option<nat>, path: seq<string>, plan: Plan)
    : (State, Option<nat>, Result<Option<nat>, Refusal>)
  {
    match Resolve(state.nodes, path)
    case None => (state, slot, Err(MissingPath))
    case Some(parent) =>
      (match Effected(legal, codec, state, parent, plan)
       case Err(refusal) => (state, slot, Err(refusal))
       case Ok(NoChange) => (state, slot, Ok(None))
       case Ok(Change(after, removed)) =>
         if attached && slot != HeadFor(state.generation) then (state, slot, Err(StaleHead))
         else (after, if attached then Some(after.generation) else slot, Ok(removed)))
  }

  class Relation {
    var state: State
    /** The attached head slot, holding the generation it publishes. */
    var slot: Option<nat>
    const attached: bool
    const codec: Name
    const legal: iset<string>

    constructor (codec: Name, legal: iset<string>, attached: bool, slot: Option<nat>)
      ensures state == Opened(codec) && this.slot == slot
      ensures this.codec == codec && this.legal == legal && this.attached == attached
    {
      this.state, this.slot := Opened(codec), slot;
      this.codec, this.legal, this.attached := codec, legal, attached;
    }

    /** `execute`: a copy is edited, the head is exchanged, and only then is the state replaced. */
    method Execute(path: seq<string>, plan: Plan) returns (r: Result<Option<nat>, Refusal>)
      modifies this
      ensures (state, slot, r) == Executed(legal, codec, attached, old(state), old(slot), path, plan)
    {
      var parent := ResolveId(state.nodes, path);
      if parent.None? {
        return Err(MissingPath);
      }
      var edited := state;
      var removed: Option<nat> := None;
      match plan {
        case Set(name, value, bytes) =>
          if name.text !in legal {
            return Err(IllegalName);
          }
          var child := Child(edited.nodes, parent.value, name);
          if child.Some? {
            var n := edited.nodes[child.value];
            if n.kind == Directory {
              return Err(NameIsDirectory);
            }
            var replaced := n.(bytes := bytes, codec := codec, value := Some(value));
            edited := edited.(nodes := edited.nodes[child.value := replaced]);
          } else {
            var id := edited.nextId;
            edited := edited.(nextId := id + 1);
            var inserted := Node(id, parent.value, name, Leaf, bytes, codec, Some(value));
            edited := edited.(nodes := edited.nodes[id := inserted]);
          }
        case Delete(name) =>
          var child := Child(edited.nodes, parent.value, name);
          if child.None? {
            return Ok(None);
          }
          if edited.nodes[child.value].kind == Directory {
            return Err(DeleteOfDirectory);
          }
          removed := edited.nodes[child.value].value;
          edited := edited.(nodes := edited.nodes - {child.value});
        case Mkdir(name) =>
          if name.text !in legal {
            return Err(IllegalName);
          }
          if Child(edited.nodes, parent.value, name).Some? {
            return Err(DuplicateSibling);
          }
          var id := edited.nextId;
          edited := edited.(nextId := id + 1);
          edited := edited.(nodes := edited.nodes[id := Node(id, parent.value, name, Directory, [], codec, None)]);
        case Rmdir(name) =>
          var child := Child(edited.nodes, parent.value, name);
          if child.None? {
            return Err(DirectoryAbsent);
          }
          if edited.nodes[child.value].id == 0 {
            return Err(RootRemoved);
          }
          if edited.nodes[child.value].kind != Directory {
            return Err(NotDirectory);
          }
          if HasChildren(edited.nodes, child.value) {
            return Err(NotEmpty);
          }
          edited := edited.(nodes := edited.nodes - {child.value});
        case Clear =>
          var nodes := RemoveLeaves(edited.nodes, parent.value);
          edited := edited.(nodes := nodes);
      }
      edited := edited.(generation := edited.generation + 1);
      if attached {
        if slot != HeadFor(state.generation) {
          return Err(StaleHead);
        }
        slot := Some(edited.generation);
      }
      state := edited;
      return Ok(removed);
    }

    /** `get`: nil for an absent key; a value only under the codec it was stored with. */
    method Get(path: seq<string>, name: Name, decode: seq<nat> -> Option<nat>) returns (r: Result<Option<nat>, Refusal>)
      ensures r == Got(codec, state, path, name, decode)
    {
      var parent := ResolveId(state.nodes, path);
      if parent.None? {
        return Err(MissingPath);
      }
      var child := Child(state.nodes, parent.value, name);
      if child.None? {
        return Ok(None);
      }
      var n := state.nodes[child.value];
      if n.kind == Directory {
        return Err(NameIsDirectory);
      }
      if n.codec != codec {
        return Err(CodecMismatch);
      }
      return Ok(decode(n.bytes));
    }
  }

  ghost function Got(codec: Name, state: State, path: seq<string>, name: Name, decode: seq<nat> -> Option<nat>)
    : Result<Option<nat>, Refusal>
  {
    match Resolve(state.nodes, path)
    case None => Err(MissingPath)
    case Some(parent) =>
      (match Child(state.nodes, parent, name)
       case None => Ok(None)
       case Some(id) =>
         if state.nodes[id].kind == Directory then Err(NameIsDirectory)
         else if state.nodes[id].codec != codec then Err(CodecMismatch)
         else Ok(decode(state.nodes[id].bytes)))
  }

  /** The loop of `clear`: the ids are collected first and removed one at a time. */
  method RemoveLeaves(nodes: map<nat, Node>, parent: nat) returns (r: map<nat, Node>)
    ensures r == nodes - Leaves(nodes, parent)
  {
    r := nodes;
    var ids := Leaves(nodes, parent);
    ghost var gone: set<nat> := {};
    while ids != {}
      invariant ids + gone == Leaves(nodes, parent) && r == nodes - gone
      decreases |ids|
    {
      var id :| id in ids;
      r := r - {id};
      gone := gone + {id};
      ids := ids - {id};
    }
  }
}
