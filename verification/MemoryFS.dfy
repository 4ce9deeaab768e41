/** The memory file system itself: nodes on the heap, an id-to-node map, and a shared id counter. */
module MemoryFileSystem {
  import opened Wrappers
  import opened Paths
  import opened Namespace
  import opened Operations
  import opened Renaming
  import opened Handles
  import opened Runs
  import opened Links
  import opened Listing

  // The process-wide counter every file system draws node ids from.
  class NodeIds {
    var next: NodeId

    constructor ()
      ensures next == 1
    {
      next := 1;
    }

    method FetchAdd() returns (id: NodeId)
      modifies this
      ensures id == old(next) && next == old(next) + 1
    {
      id := next;
      next := next + 1;
    }
  }

  class Node {
    const id: NodeId
    const kind: Kind
    var parent: Option<NodeId>
    var mode: nat
    var links: nat
    var entries: map<Name, NodeId>

    constructor (id: NodeId, kind: Kind, parent: NodeId, mode: nat)
      ensures this.id == id && this.kind == kind && this.parent == Some(parent)
      ensures this.mode == mode && links == 1 && entries == map[]
    {
      this.id, this.kind, this.parent := id, kind, Some(parent);
      this.mode, links, entries := mode, 1, map[];
    }
  }

  datatype StatBuf = StatBuf(ino: NodeId, kind: Kind, mode: nat, nlink: nat)

  function IdOf(n: Option<Node>): Option<NodeId> {
    if n.Some? then Some(n.value.id) else None
  }

  class MemoryFS {
    const root: NodeId
    const ids: NodeIds
    // Whether the kernel can create the backing file of the node drawn with a given id.
    const memfd: NodeId -> bool
    var nodes: map<NodeId, Node>
    ghost var all: map<NodeId, Node>  // every node ever allocated

    ghost var state: State            // the value of the whole file system

    ghost predicate Valid()
      reads this, all.Values, ids
    {
      && root in nodes
      && (forall i :: i in nodes ==> i in all && nodes[i] == all[i])
      && (forall i :: i in all ==> all[i].id == i && i < ids.next)
      && state.root == root && state.inodes == Inodes()
    }

    ghost function Inodes(): map<NodeId, Inode>
      reads this, all.Values
    {
      map i | i in all :: At(i)
    }

    ghost function At(i: NodeId): Inode
      requires i in all
      reads this, all.Values
    {
      var n := all[i];
      Inode(n.kind, n.parent, n.mode, n.links, n.entries, i in nodes)
    }

    ghost function Now(): Sys
      reads this, ids
    {
      Sys(state, ids.next)
    }

    // The heap agrees with its value, and the value is a tree.
    ghost predicate Good()
      reads this, all.Values, ids
    {
      Valid() && Tree(state)
    }

    ghost predicate Owns(n: Node)
      reads this
    {
      n.id in all && all[n.id] == n
    }

    // No node is forgotten, nodes are only added by allocation, and ids only go up.
    twostate predicate Grows()
      reads this, all.Values, ids
    {
      && old(ids.next) <= ids.next
      && (forall i :: i in old(all) ==> i in all && all[i] == old(all)[i])
      && (forall i :: i in all && i !in old(all) ==> fresh(all[i]))
    }

    constructor (ids: NodeIds, memfd: NodeId -> bool)
      modifies ids
      ensures Good() && this.ids == ids && this.memfd == memfd && fresh(all.Values)
      ensures Now() == Sys(Initial(old(ids.next)), old(ids.next) + 1)
    {
      var id := ids.FetchAdd();
      var node := new Node(id, Dir, id, 0x1ED);
      this.ids, this.memfd, root := ids, memfd, id;
      nodes, all, state := map[id := node], map[id := node], Initial(id);
      new;
      InitialIsTree(id);
    }

    // ----- resolution

    method Resolve(path: Parts) returns (r: Option<Node>)
      requires Good()
      ensures IdOf(r) == Lookup(state, Names(path))
      ensures r.Some? ==> Owns(r.value)
    {
      var node := nodes[root];
      for i := 0 to |path|
        invariant Owns(node) && Lookup(state, Names(path[..i])) == Some(node.id)
      {
        assert Init(path[..i + 1]) == path[..i];
        if path[i].Normal? {
          var name := path[i].name;
          WalkSnoc(state, root, Names(path[..i]), name);
          NamesPrefix(path, i + 1);
          if Lookup(state, Names(path)).Some? {
            WalkPrefix(state, root, Names(path[..i + 1]), Names(path));
          }
          if node.kind.File? || name !in node.entries {
            return None;
          }
          var child := node.entries[name];
          if child !in nodes {
            return None;
          }
          node := nodes[child];
        }
      }
      assert path[..|path|] == path;
      return Some(node);
    }

    method ResolveRelative(start: Node, path: Parts) returns (r: Option<Node>)
      requires Good() && Owns(start)
      ensures IdOf(r) == RelWalk(state, start.id, path)
      ensures r.Some? ==> Owns(r.value)
    {
      var node := start;
      for i := 0 to |path|
        invariant Owns(node) && RelWalk(state, node.id, path[i..]) == RelWalk(state, start.id, path)
      {
        assert path[i..][1..] == path[i + 1..];
        match path[i] {
          case CurDir =>
          case Normal(name) =>
            if node.kind.File? || name !in node.entries || node.entries[name] !in nodes {
              return None;
            }
            node := nodes[node.entries[name]];
          case ParentDir =>
            if node.parent.None? || node.parent.value !in nodes {
              return None;
            }
            node := nodes[node.parent.value];
        }
      }
      return Some(node);
    }

    // ----- creation

    method CreateNodeInDir(parent: Node, name: Name, kind: Kind, mode: nat) returns (r: Option<Node>)
      requires Good() && Owns(parent)
      modifies this, parent, ids
      ensures Good() && Grows() && (r.Some? ==> Owns(r.value))
      ensures var made := CreateIn(old(state), parent.id, name, kind, mode, old(ids.next), memfd(old(ids.next)));
              IdOf(r) == made.node && state == made.state
              && ids.next == (if made.drawn then old(ids.next) + 1 else old(ids.next))
    {
      if parent.kind.File? || name in parent.entries {
        return None;
      }
      var id := ids.FetchAdd();
      if !memfd(id) {
        return None;
      }
      CreateKeepsTree(state, parent.id, name, kind, mode, id, true);
      var node := AddNode(parent, name, kind, mode, id);
      return Some(node);
    }

    // The updates of a creation that has passed its checks.
    method AddNode(parent: Node, name: Name, kind: Kind, mode: nat, id: NodeId) returns (node: Node)
      requires Valid() && Owns(parent) && parent.kind.Dir? && name !in parent.entries
      requires id !in all && id < ids.next
      modifies this, parent
      ensures Valid() && Grows() && Owns(node) && node.id == id
      ensures state == CreateIn(old(state), parent.id, name, kind, mode, id, true).state
    {
      CreateInBySteps(state, parent.id, name, kind, mode, id);
      node := new Node(id, kind, parent.id, mode % 4096);
      Register(node);
      SetEntries(parent, parent.entries[name := id]);
    }

    // Put a new node in the id map.
    method Register(node: Node)
      requires Valid() && node.id !in all && node.id < ids.next && forall i :: i in all ==> all[i] != node
      modifies this
      ensures Valid() && all == old(all)[node.id := node]
      ensures state == old(Put(state, node.id,
                               Inode(node.kind, node.parent, node.mode, node.links, node.entries, true)))
    {
      nodes := nodes[node.id := node];
      all := all[node.id := node];
      state := Put(state, node.id, Inode(node.kind, node.parent, node.mode, node.links, node.entries, true));
      assert state.inodes[node.id] == At(node.id);
      assert state.inodes == Inodes();
    }

    method CreateNode(path: Parts, kind: Kind, mode: nat) returns (r: Option<Node>)
      requires Good()
      modifies this, all.Values, ids
      ensures Good() && Grows() && (r.Some? ==> Owns(r.value))
      ensures var made := CreateAt(old(state), path, kind, mode, old(ids.next), memfd(old(ids.next)));
              IdOf(r) == made.node && state == made.state
              && ids.next == (if made.drawn then old(ids.next) + 1 else old(ids.next))
    {
      if path == [] || !Last(path).Normal? {
        return None;
      }
      var parent := Resolve(Init(path));
      if parent.None? {
        return None;
      }
      r := CreateNodeInDir(parent.value, Last(path).name, kind, mode);
    }

    method CreateRelativeNode(start: Node, path: Parts, kind: Kind, mode: nat) returns (r: Option<Node>)
      requires Good() && Owns(start)
      modifies this, all.Values, ids
      ensures Good() && Grows() && (r.Some? ==> Owns(r.value))
      ensures var made := CreateFrom(old(state), start.id, path, kind, mode, old(ids.next), memfd(old(ids.next)));
              IdOf(r) == made.node && state == made.state
              && ids.next == (if made.drawn then old(ids.next) + 1 else old(ids.next))
    {
      if path == [] || !Last(path).Normal? {
        return None;
      }
      var parent := ResolveRelative(start, Init(path));
      if parent.None? {
        return None;
      }
      r := CreateNodeInDir(parent.value, Last(path).name, kind, mode);
    }

    // ----- removal

    method RemoveNodeAt(path: Parts, kind: Kind) returns (rc: int)
      requires Good()
      modifies this`nodes, this`state, all.Values
      ensures Good()
      ensures var r := RemoveAt(old(state), path, kind); rc == Rc(r.0) && state == r.1
    {
      RemoveKeepsTree(state, path, kind);
      if path == [] || !Last(path).Normal? {
        return -1;
      }
      var parent := Resolve(Init(path));
      if parent.None? {
        return -1;
      }
      EntriesAreMapped(parent.value, Last(path).name);
      rc := RemoveEntry(parent.value, Last(path).name, kind);
    }

    // Under the invariant no entry dangles, so the source's repairs of dangling entries are never reached.
    lemma EntriesAreMapped(dir: Node, name: Name)
      requires Good() && Owns(dir)
      ensures name in dir.entries ==> NamesMapped(dir, name)
    {
      assert EntriesOk(state, dir.id);
    }

    lemma ChildNow(dir: Node, name: Name)
      requires Valid() && Owns(dir) && (name in dir.entries ==> NamesMapped(dir, name))
      ensures Child(state, dir.id, name) == if name in dir.entries then Some(dir.entries[name]) else None
    {
    }

    ghost predicate NamesMapped(dir: Node, name: Name)
      requires name in dir.entries
      reads this, dir, all.Values
    {
      && dir.kind.Dir?
      && dir.entries[name] in nodes && dir.entries[name] != root
      && dir.entries[name] in all && all[dir.entries[name]].parent == Some(dir.id)
    }

    method RemoveEntry(dir: Node, name: Name, kind: Kind) returns (rc: int)
      requires Valid() && Owns(dir) && (name in dir.entries ==> NamesMapped(dir, name))
      modifies this`nodes, this`state, all.Values
      ensures Valid()
      ensures var r := RemoveFrom(old(state), dir.id, name, kind); rc == Rc(r.0) && state == r.1
    {
      if dir.kind.File? || name !in dir.entries {
        return -1;
      }
      var node := nodes[dir.entries[name]];
      if node.kind != kind || (kind.Dir? && node.entries != map[]) {
        return -1;
      }
      DetachEntry(dir, name, node);
      return 0;
    }

    method DetachEntry(dir: Node, name: Name, node: Node)
      requires Valid() && Owns(dir) && Owns(node) && dir.id != node.id && node.id != root
      modifies this`nodes, this`state, dir`entries, node`parent, node`links
      ensures Valid() && state == Unlinked(old(state), dir.id, name, node.id)
    {
      SetEntries(dir, dir.entries - {name});
      Drop(node);
    }

    // ----- single updates of the heap, and what each does to the value

    method SetEntries(dir: Node, entries: map<Name, NodeId>)
      requires Valid() && Owns(dir)
      modifies dir`entries, this`state
      ensures Valid() && dir.entries == entries
      ensures state == old(Put(state, dir.id, state.inodes[dir.id].(entries := entries)))
    {
      dir.entries := entries;
      state := Put(state, dir.id, state.inodes[dir.id].(entries := entries));
      assert state.inodes == Inodes();
    }

    method SetParent(node: Node, parent: NodeId)
      requires Valid() && Owns(node)
      modifies node`parent, this`state
      ensures Valid() && state == old(Put(state, node.id, state.inodes[node.id].(parent := Some(parent))))
    {
      node.parent := Some(parent);
      state := Put(state, node.id, state.inodes[node.id].(parent := Some(parent)));
      assert state.inodes == Inodes();
    }

    // Clear a node's parent and links and take its id out of the map.
    method Drop(node: Node)
      requires Valid() && Owns(node) && node.id != root
      modifies this`nodes, this`state, node`parent, node`links
      ensures Valid() && nodes == old(nodes) - {node.id}
      ensures state == old(Put(state, node.id, Dropped(state.inodes[node.id])))
    {
      node.parent := None;
      node.links := 0;
      nodes := nodes - {node.id};
      state := Put(state, node.id, Dropped(state.inodes[node.id]));
      assert state.inodes[node.id] == At(node.id);
      assert state.inodes == Inodes();
    }

    // ----- renaming

    method RenameNodeAt(oldPath: Parts, newPath: Parts) returns (rc: int)
      requires Good()
      modifies this`nodes, this`state, all.Values
      ensures Valid()
      ensures var r := RenameAt(old(state), oldPath, newPath); rc == Rc(r.0) && state == r.1
      ensures IsNormal(oldPath) && IsNormal(newPath) ==> Good()
    {
      if IsNormal(oldPath) && IsNormal(newPath) {
        RenameKeepsTree(state, oldPath, newPath);
      }
      if oldPath == [] || newPath == [] {
        return -1;
      }
      if oldPath == newPath {
        return 0;
      }
      if !Last(oldPath).Normal? {
        return -1;
      }
      if !Last(newPath).Normal? {
        return -1;
      }
      RenameAtByParents(state, oldPath, newPath);
      var oldParent := Resolve(Init(oldPath));
      if oldParent.None? {
        return -1;
      }
      var newParent := Resolve(Init(newPath));
      if newParent.None? || oldParent.value.kind.File? || newParent.value.kind.File? {
        return -1;
      }
      EntriesAreMapped(oldParent.value, Last(oldPath).name);
      EntriesAreMapped(newParent.value, Last(newPath).name);
      rc := RenameEntry(oldParent.value, Last(oldPath).name, newParent.value, Last(newPath).name, oldPath <= newPath);
    }

    // The part of a rename after both directories are found.
    method RenameEntry(od: Node, o: Name, nd: Node, n: Name, blocked: bool) returns (rc: int)
      requires Valid() && Owns(od) && Owns(nd) && od.kind.Dir? && nd.kind.Dir?
      requires (o in od.entries ==> NamesMapped(od, o)) && (n in nd.entries ==> NamesMapped(nd, n))
      modifies this`nodes, this`state, all.Values
      ensures Valid()
      ensures var r := RenameBetween(old(state), od.id, o, nd.id, n, blocked); rc == Rc(r.0) && state == r.1
    {
      ChildNow(od, o);
      ChildNow(nd, n);
      if o !in od.entries {
        return -1;
      }
      var oldId := od.entries[o];
      var node := nodes[oldId];
      if node.kind.Dir? && blocked {
        return -1;
      }
      if n in nd.entries && nd.entries[n] == oldId {
        return 0;
      }
      if n in nd.entries {
        var replaced := nodes[nd.entries[n]];
        if !(node.kind == replaced.kind && (replaced.kind.Dir? ==> replaced.entries == map[])) {
          return -1;
        }
      }
      if od.id == nd.id {
        RenameWithin(od, o, n, node);
      } else {
        RenameAcross(od, o, nd, n, node);
      }
      return 0;
    }

    method RenameWithin(dir: Node, o: Name, n: Name, node: Node)
      requires Valid() && Owns(dir) && Owns(node) && o in dir.entries && dir.entries[o] == node.id
      requires node.parent == Some(dir.id)
      requires n in dir.entries ==> dir.entries[n] in nodes && dir.entries[n] != root && dir.entries[n] != node.id
      modifies this`nodes, this`state, all.Values
      ensures Valid()
      ensures state == old(Relink(state, dir.id, o, dir.id, n, node.id,
                                   if n in dir.entries then Some(dir.entries[n]) else None))
    {
      RelinkWithin(state, dir.id, o, n, node.id, if n in dir.entries then Some(dir.entries[n]) else None);
      if n in dir.entries {
        Drop(nodes[dir.entries[n]]);
      }
      SetEntries(dir, dir.entries - {o});
      SetEntries(dir, dir.entries[n := node.id]);
    }

    method RenameAcross(od: Node, o: Name, nd: Node, n: Name, node: Node)
      requires Valid() && Owns(od) && Owns(nd) && Owns(node) && od.id != nd.id
      requires n in nd.entries ==> nd.entries[n] in nodes && nd.entries[n] != root && nd.entries[n] != node.id
      modifies this`nodes, this`state, all.Values
      ensures Valid()
      ensures state == old(Relink(state, od.id, o, nd.id, n, node.id,
                                   if n in nd.entries then Some(nd.entries[n]) else None))
    {
      var displaced := if n in nd.entries then Some(nd.entries[n]) else None;
      RelinkAcross(state, od.id, o, nd.id, n, node.id, displaced);
      MoveEntry(od, o, nd, n, node.id);
      if displaced.Some? {
        Drop(nodes[displaced.value]);
      }
      SetParent(node, nd.id);
    }

    method MoveEntry(od: Node, o: Name, nd: Node, n: Name, id: NodeId)
      requires Valid() && Owns(od) && Owns(nd) && od.id != nd.id
      modifies this`state, od`entries, nd`entries
      ensures Valid()
      ensures var was := old(state.inodes[od.id]);
              var s1 := Put(old(state), od.id, was.(entries := was.entries - {o}));
              state == Put(s1, nd.id, s1.inodes[nd.id].(entries := s1.inodes[nd.id].entries[n := id]))
    {
      SetEntries(od, od.entries - {o});
      SetEntries(nd, nd.entries[n := id]);
    }

    // ----- modes, status and listings

    method Chmod(path: Parts, mode: nat) returns (rc: int)
      requires Good()
      modifies this`state, all.Values
      ensures Good()
      ensures var r := ChmodAt(old(state), path, mode); rc == Rc(r.0) && state == r.1
    {
      ChmodKeepsTree(state, path, mode);
      var node := Resolve(path);
      if node.None? {
        return -1;
      }
      SetMode(node.value, mode);
      return 0;
    }

    method SetMode(node: Node, mode: nat)
      requires Valid() && Owns(node)
      modifies node`mode, this`state
      ensures Valid() && state == old(Put(state, node.id, state.inodes[node.id].(mode := mode % 4096)))
    {
      node.mode := mode % 4096;
      state := Put(state, node.id, state.inodes[node.id].(mode := mode % 4096));
      assert state.inodes == Inodes();
    }

    method StatNode(node: Node) returns (st: StatBuf)
      requires Valid() && Owns(node)
      ensures st == StatBuf(node.id, node.kind, node.mode, LinkCount(state, node.id))
    {
      if node.links == 0 {
        return StatBuf(node.id, node.kind, node.mode, 0);
      }
      if node.kind.File? {
        return StatBuf(node.id, node.kind, node.mode, 1);
      }
      var subdirs := set n | n in node.entries && node.entries[n] in nodes && nodes[node.entries[n]].kind.Dir?;
      assert subdirs == SubdirNames(state, node.id);
      return StatBuf(node.id, node.kind, node.mode, 2 + |subdirs|);
    }

    method Access(path: Parts) returns (rc: int)
      requires Good()
      ensures rc == Rc(Lookup(state, Names(path)).Some?)
    {
      var node := Resolve(path);
      return if node.Some? then 0 else -1;
    }

    method ReadNodeDir(node: Node) returns (r: Option<seq<DirEntry>>)
      requires Good() && Owns(node)
      ensures Listable(state, node.id)
      ensures r == if node.kind.Dir? then Some(ListingOf(state, node.id)) else None
    {
      TreeIsListable(state, node.id);
      if node.kind.File? {
        return None;
      }
      forall n | n in node.entries
        ensures NamesMapped(node, n)
      {
        EntriesAreMapped(node, n);
      }
      var es := ReadEntries(node);
      return Some(es);
    }

    // The entries in name order, as iterating an ordered map gives them.
    method ReadEntries(node: Node) returns (es: seq<DirEntry>)
      requires Valid() && Owns(node) && Listable(state, node.id)
      requires forall n :: n in node.entries ==> node.entries[n] in nodes
      ensures es == ListingOf(state, node.id)
    {
      var names := OrderedKeys(node.entries.Keys);
      SortedIsAscendingAndComplete(node.entries.Keys);
      es := seq(|names|, i requires 0 <= i < |names| && names[i] in node.entries && node.entries[names[i]] in nodes
                           reads this, node =>
        DirEntry(names[i], nodes[node.entries[names[i]]].kind, Some(node.entries[names[i]])));
      ListingByEntries(state, node.id, es);
    }

    method ReadDir(path: Parts) returns (r: Option<seq<DirEntry>>)
      requires Good()
      ensures var d := Lookup(state, Names(path));
              (d.Some? ==> Listable(state, d.value)) &&
              r == if d.Some? && IsDir(state, d.value) then Some(ListingOf(state, d.value)) else None
    {
      var node := Resolve(path);
      if node.None? {
        return None;
      }
      r := ReadNodeDir(node.value);
    }

    ghost function Footprint(): set<object>
      reads this
    {
      {this, ids} + all.Values
    }

    // What an open may change: nothing, unless it may create.
    ghost function Creatable(flags: Flags): set<object>
      reads this
    {
      if flags.creat then Footprint() else {}
    }

    // ----- opening; `backing` is the descriptor the kernel returns for the node's backing file

    method OpenNode(path: Parts, flags: Flags, mode: nat, backing: int)
      returns (fd: int, handle: Option<Node>)
      requires Good()
      modifies Creatable(flags)
      ensures Good() && Grows() && (handle.Some? ==> Owns(handle.value))
      ensures var o := OpenAt(old(state), path, flags, mode, old(ids.next), memfd(old(ids.next)), backing);
              fd == o.fd && IdOf(handle) == o.node && state == o.state
              && ids.next == (if o.drawn then old(ids.next) + 1 else old(ids.next))
    {
      var node := FindNode(path, flags, mode);
      fd, handle := FinishOpen(node, flags, backing);
    }

    method FindNode(path: Parts, flags: Flags, mode: nat) returns (node: Option<Node>)
      requires Good()
      modifies Creatable(flags)
      ensures Good() && Grows() && (node.Some? ==> Owns(node.value))
      ensures var made := CreateAt(old(state), path, File, mode, old(ids.next), memfd(old(ids.next)));
              var m := Found(old(state), Lookup(old(state), Names(path)), made, flags);
              IdOf(node) == m.node && state == m.state
              && ids.next == (if m.drawn then old(ids.next) + 1 else old(ids.next))
    {
      node := Resolve(path);
      if node.Some? {
        if flags.creat && flags.excl {
          node := None;
        }
      } else if flags.creat {
        node := CreateNode(path, File, mode);
      }
    }

    method OpenNodeRelative(start: Node, path: Parts, flags: Flags, mode: nat, backing: int)
      returns (fd: int, handle: Option<Node>)
      requires Good() && Owns(start)
      modifies Creatable(flags)
      ensures Good() && Grows() && (handle.Some? ==> Owns(handle.value))
      ensures var o := OpenFrom(old(state), start.id, path, flags, mode, old(ids.next), memfd(old(ids.next)), backing);
              fd == o.fd && IdOf(handle) == o.node && state == o.state
              && ids.next == (if o.drawn then old(ids.next) + 1 else old(ids.next))
    {
      var node := FindNodeRelative(start, path, flags, mode);
      fd, handle := FinishOpen(node, flags, backing);
    }

    method FindNodeRelative(start: Node, path: Parts, flags: Flags, mode: nat) returns (node: Option<Node>)
      requires Good() && Owns(start)
      modifies Creatable(flags)
      ensures Good() && Grows() && (node.Some? ==> Owns(node.value))
      ensures var made := CreateFrom(old(state), start.id, path, File, mode, old(ids.next), memfd(old(ids.next)));
              var m := Found(old(state), RelWalk(old(state), start.id, path), made, flags);
              IdOf(node) == m.node && state == m.state
              && ids.next == (if m.drawn then old(ids.next) + 1 else old(ids.next))
    {
      node := ResolveRelative(start, path);
      if node.Some? {
        if flags.creat && flags.excl {
          node := None;
        }
      } else if flags.creat {
        node := CreateRelativeNode(start, path, File, mode);
      }
    }

    method FinishOpen(node: Option<Node>, flags: Flags, backing: int) returns (fd: int, handle: Option<Node>)
      requires Valid() && (node.Some? ==> Owns(node.value))
      ensures var bad := node.None? || (flags.directory && !IsDir(state, node.value.id));
              fd == (if bad then -1 else backing) && handle == (if bad || backing < 0 then None else node)
    {
      if node.None? || (flags.directory && node.value.kind.File?) {
        return -1, None;
      }
      if backing < 0 {
        return backing, None;
      }
      return backing, node;
    }

    // ----- the file-system interface: each call is one step of a run

    method Mkdir(path: Parts, mode: nat) returns (rc: int)
      requires Good()
      modifies this, all.Values, ids
      ensures Good() && Grows()
      ensures Outcome(rc, None, Now()) == Step(old(Now()), Op.Mkdir(path, mode), memfd)
    {
      var node := CreateNode(path, Dir, mode);
      return if node.Some? then 0 else -1;
    }

    method MkdirChild(start: Node, path: Parts, mode: nat) returns (rc: int)
      requires Good() && Owns(start)
      modifies this, all.Values, ids
      ensures Good() && Grows()
      ensures Outcome(rc, None, Now()) == Step(old(Now()), MkdirVia(start.id, path, mode), memfd)
    {
      var node := CreateRelativeNode(start, path, Dir, mode);
      return if node.Some? then 0 else -1;
    }

    method OpenWithHandle(path: Parts, flags: Flags, mode: nat, backing: int) returns (fd: int, handle: Option<Node>)
      requires Good()
      modifies Creatable(flags)
      ensures Good() && Grows() && (handle.Some? ==> Owns(handle.value))
      ensures Outcome(fd, IdOf(handle), Now()) == Step(old(Now()), Op.Open(path, flags, mode, backing), memfd)
    {
      fd, handle := OpenNode(path, flags, mode, backing);
    }

    method OpenChild(start: Node, path: Parts, flags: Flags, mode: nat, backing: int)
      returns (fd: int, handle: Option<Node>)
      requires Good() && Owns(start)
      modifies Creatable(flags)
      ensures Good() && Grows() && (handle.Some? ==> Owns(handle.value))
      ensures Outcome(fd, IdOf(handle), Now()) == Step(old(Now()), OpenVia(start.id, path, flags, mode, backing), memfd)
    {
      fd, handle := OpenNodeRelative(start, path, flags, mode, backing);
    }

    method Unlink(path: Parts) returns (rc: int)
      requires Good()
      modifies this`nodes, this`state, all.Values
      ensures Good() && Grows()
      ensures Outcome(rc, None, Now()) == Step(old(Now()), Op.Unlink(path), memfd)
    {
      rc := RemoveNodeAt(path, File);
    }

    method Rmdir(path: Parts) returns (rc: int)
      requires Good()
      modifies this`nodes, this`state, all.Values
      ensures Good() && Grows()
      ensures Outcome(rc, None, Now()) == Step(old(Now()), Op.Rmdir(path), memfd)
    {
      rc := RemoveNodeAt(path, Dir);
    }

    method Rename(oldPath: Parts, newPath: Parts) returns (rc: int)
      requires Good()
      modifies this`nodes, this`state, all.Values
      ensures Valid() && Grows() && (IsNormal(oldPath) && IsNormal(newPath) ==> Good())
      ensures Outcome(rc, None, Now()) == Step(old(Now()), Op.Rename(oldPath, newPath), memfd)
    {
      rc := RenameNodeAt(oldPath, newPath);
    }

    // What another object's updates leave alone stays good.
    twostate lemma StaysGood()
      requires old(Good()) && unchanged(this) && unchanged(old(all.Values)) && old(ids.next) <= ids.next
      ensures Good() && state == old(state)
    {
    }

    // Growth keeps two file systems apart.
    twostate lemma StaysApart(other: MemoryFS)
      requires Grows() && unchanged(other) && old(all.Values !! other.all.Values)
      ensures all.Values !! other.all.Values
    {
      forall n | n in all.Values
        ensures n !in other.all.Values
      {
        var i :| i in all && all[i] == n;
        if i in old(all) {
          assert n in old(all.Values);
        }
      }
    }
  }

  lemma {:induction false} NamesPrefix(p: Parts, i: nat)
    requires i <= |p|
    ensures Names(p[..i]) <= Names(p)
    decreases |p|
  {
    if i < |p| {
      NamesPrefix(Init(p), i);
      assert Init(p)[..i] == p[..i];
    } else {
      assert p[..i] == p;
    }
  }
}
