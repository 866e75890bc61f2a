/** store.go, node.go and watcher.go: a tree of mutable nodes linked both ways, and the
    watchers hanging on it. */
module Stores {
  import opened Paths
  import opened Events
  import opened Trees
  import opened Values
  import opened Accounts
  import Flatmap
  import Helpers
  import Invariants
  import Machine
  import Refinement
  import Visibility

  class Watcher {
    const node: Node
    ghost const start: nat  // length of the store's log when the watch began
    var eventChan: seq<Event>  // everything sent so far
    var closed: bool
    var removed: bool

    constructor (node: Node, ghost start: nat)
      ensures this.node == node && this.start == start
      ensures eventChan == [] && !closed && !removed
    {
      this.node, this.start := node, start;
      eventChan, closed, removed := [], false, false;
    }

    /** Sending on a closed channel panics. */
    method Send(e: Event)
      requires !closed
      modifies this`eventChan
      ensures eventChan == old(eventChan) + [e]
    {
      eventChan := eventChan + [e];
    }

    /** `watcher.Remove`: the channel is closed and the watcher leaves its node's list; after the
        last one the node's path is queued for cleaning. Closing a channel twice panics. */
    method Remove()
      requires node.store.Valid() && this in node.store.live
      modifies this, node, node.store
      ensures node.store.Valid() && closed && removed && eventChan == old(eventChan)
      ensures node.store.live == old(node.store.live) - {this}
      ensures node.store.log == old(node.store.log) && node.store.nodes == old(node.store.nodes)
      ensures node.store.known == old(node.store.known) && node.store.root == old(node.store.root)
      ensures node.store.ops ==
                old(node.store.ops) + if node.watchers == [] then [Machine.Unwatch(node.path)] else []
      ensures node.store.State() ==
                if node.watchers == [] then Machine.Apply(old(node.store.State()), Machine.Unwatch(node.path))
                else old(node.store.State())
      ensures node.watchers == [] <==> forall w :: w in old(node.store.live) && w.node == node ==> w == this
    {
      hide Store.NodesLinked, Store.Shows, Store.WatchersLinked, Store.Routed, Store.Synced, Node.Linked;
      hide Machine.Run, Machine.Apply;
      node.store.LiveAt(this);
      closed := true;
      if !removed {
        node.Forget(this);
        if node.watchers == [] {
          node.store.RecordOne(Machine.Unwatch(node.path));
        }
      }
    }
  }

  class Node {
    const name: string
    const parent: Node?
    const store: Store
    ghost const path: Path
    ghost const chain: set<Node>  // this node and its ancestors
    var value: string
    var isDir: bool  // a leaf's children map is nil, which reads as empty
    var children: map<string, Node>
    var watchers: seq<Watcher>

    constructor (store: Store, name: string, value: string, isDir: bool, parent: Node?)
      ensures this.store == store && this.name == name && this.parent == parent
      ensures parent == null || parent.Linked() ==> Linked()
      ensures path == if parent == null then [] else parent.path + [name]
      ensures this.value == value && this.isDir == isDir && children == map[] && watchers == []
    {
      this.store, this.name, this.parent := store, name, parent;
      path := if parent == null then [] else parent.path + [name];
      chain := if parent == null then {this} else {this} + parent.chain;
      this.value, this.isDir, children, watchers := value, isDir, map[], [];
    }

    /** The parent pointers lead up to a root, one component at a time. */
    ghost predicate Linked()
      decreases |path|
    {
      if parent == null then path == [] && chain == {this}
      else
        && path == parent.path + [name] && this !in parent.chain && chain == {this} + parent.chain
        && parent.Linked()
    }

    lemma ChainUp(end: Node)
      requires Linked() && end in chain
      ensures end.path <= path && end.Linked()
      ensures end.chain <= chain
      decreases |path|
    {
      if this != end {
        parent.ChainUp(end);
      }
    }

    function RelativePath(end: Node): (r: Path)
      requires Linked() && end in chain
      ensures end.path <= path && r == path[|end.path|..]
      decreases |path|
    {
      if parent == null || this == end then [] else parent.RelativePath(end) + [name]
    }

    // ---- Notifying -----------------------------------------------------------------------

    method HasWatcher() returns (r: bool)
      ensures r == (watchers != [])
    {
      r := |watchers| > 0;
    }

    /** The loop of `internalNotify`: each watcher in this node's list is sent the event once. */
    method Broadcast(event: Event)
      requires forall i :: 0 <= i < |watchers| ==> !watchers[i].closed
      requires NoRepeats(watchers)
      modifies (set w | w in watchers)`eventChan
      ensures forall w :: w in watchers ==> w.eventChan == old(w.eventChan) + [event]
    {
      var i := 0;
      while i < |watchers|
        invariant 0 <= i <= |watchers|
        invariant forall j :: 0 <= j < i ==> watchers[j].eventChan == old(watchers[j].eventChan) + [event]
        invariant forall j :: i <= j < |watchers| ==> watchers[j].eventChan == old(watchers[j].eventChan)
      {
        watchers[i].Send(event);
        i := i + 1;
      }
    }

    ghost function Audience(): set<Watcher>
      requires Linked()
      reads chain`watchers
    {
      set n, w | n in chain && w in n.watchers :: w
    }

    /** No list on the way to the root repeats a watcher or holds a closed one. */
    ghost predicate ListsOk()
      requires Linked()
      reads chain`watchers, Audience()`closed
    {
      forall n :: n in chain ==> NoRepeats(n.watchers) && forall w :: w in n.watchers ==> !w.closed && w.node == n
    }

    /** The watchers of this node and of its ancestors are sent the event, its path taken
        relative to the node each of them watches. */
    method InternalNotify(action: Action, eventNode: Node)
      requires Linked() && ListsOk() && eventNode.Linked() && this in eventNode.chain
      modifies Audience()`eventChan
      ensures forall w :: w in old(Audience()) ==>
                && w.node.path <= eventNode.path
                && w.eventChan == old(w.eventChan) + [Event(action, eventNode.path[|w.node.path|..], eventNode.value)]
      decreases |path|
    {
      eventNode.ChainUp(this);
      var has := HasWatcher();
      if has {
        Broadcast(Event(action, eventNode.RelativePath(this), eventNode.value));
      }
      if parent != null {
        parent.InternalNotify(action, eventNode);
        assert forall w :: w in Audience() ==> w in watchers || w in parent.Audience();
      }
    }

    method Notify(action: Action)
      requires store.Shape() && store.CanSend(this)
      modifies store`log, store.live`eventChan
      ensures store.Shape()
      ensures store.log == old(store.log) + [Event(action, path, value)]
    {
      hide Store.NodesLinked, Store.Shows, Store.WatchersLinked;
      store.AudienceOf(this);
      InternalNotify(action, this);
      ghost var e := Event(action, path, value);
      store.log := store.log + [e];
      forall w | w in store.live
        ensures w.start <= |store.log| && w.eventChan == Route(store.log[w.start..], w.node.path)
      {
        RouteOne(old(store.log), e, w.start, w.node.path);
      }
    }

    // ---- One node, one link ----------------------------------------------------------------

    method AsDir()
      requires store.Shape() && InPlace(store.nodes, this)
      modifies this`isDir, this`children, store`tree, store`log, store.live`eventChan
      ensures store.Shape()
      ensures store.tree == old(store.tree)[path := old(store.tree)[path].(dir := true)]
      ensures store.log == old(store.log) + [Event(Delete, path, value)] && isDir
    {
      hide Store.Shape, Store.NodesLinked, Store.Shows, Store.WatchersLinked, Store.Routed;
      store.Local(this);
      if !isDir {
        isDir, children := true, map[];
      }
      store.tree := store.tree[path := store.tree[path].(dir := true)];
      store.KindSet(this);
      Notify(Delete);
    }

    method AsLeaf()
      requires store.Shape() && InPlace(store.nodes, this) && path != [] && children == map[]
      modifies this`isDir, this`children, store`tree, store`log, store.live`eventChan
      ensures store.Shape()
      ensures store.tree == old(store.tree)[path := old(store.tree)[path].(dir := false)]
      ensures store.log == old(store.log) + [Event(Update, path, value)]
    {
      hide Store.Shape, Store.NodesLinked, Store.Shows, Store.WatchersLinked, Store.Routed;
      store.Local(this);
      if isDir {
        isDir, children := false, map[];
      }
      store.tree := store.tree[path := store.tree[path].(dir := false)];
      store.KindSet(this);
      Notify(Update);
    }

    method SetValue(v: string)
      requires store.Shape() && InPlace(store.nodes, this) && (path != [] || v == "")
      modifies this`value, store`tree
      ensures store.Shape() && value == v
      ensures store.tree == old(store.tree)[path := old(store.tree)[path].(value := v)]
    {
      hide Store.Shape, Store.NodesLinked, Store.Shows, Store.WatchersLinked, Store.Routed;
      store.Local(this);
      value := v;
      store.tree := store.tree[path := store.tree[path].(value := v)];
      store.ValueSet(this);
    }

    /** The children map gains an entry. */
    method Link(child: Node)
      requires store.Shape() && InPlace(store.nodes, this) && isDir
      requires child.parent == this && child.store == store && child.Linked()
      requires child.path !in store.nodes && child !in store.known
      requires child.children == map[] && child.watchers == []
      modifies this`children, store`nodes, store`tree, store`known
      ensures store.Shape()
      ensures store.nodes == old(store.nodes)[child.path := child]
      ensures store.tree == old(store.tree)[child.path := Cell(child.isDir, child.value, false)]
      ensures store.known == old(store.known) + {child}
    {
      hide Store.Shape, Store.NodesLinked, Store.Shows, Store.WatchersLinked, Store.Routed;
      store.Local(this);
      children := children[child.name := child];
      store.nodes := store.nodes[child.path := child];
      store.tree := store.tree[child.path := Cell(child.isDir, child.value, false)];
      store.known := store.known + {child};
      store.ChildLinked(this, child);
    }

    /** The parent's children map loses its entry for this node. */
    method Unlink()
      requires store.Shape() && InPlace(store.nodes, this) && parent != null && children == map[] && watchers == []
      modifies parent`children, store`nodes, store`tree
      ensures store.Shape()
      ensures store.nodes == old(store.nodes) - {path}
      ensures store.tree == old(store.tree) - {path}
    {
      hide Store.Shape, Store.NodesLinked, Store.Shows, Store.WatchersLinked, Store.Routed;
      store.Local(this);
      parent.children := parent.children - {name};
      store.nodes := store.nodes - {path};
      store.tree := store.tree - {path};
      store.ChildUnlinked(this);
    }

    // ---- Reading -----------------------------------------------------------------------------

    method GetChild(childName: string) returns (child: Node?)
      requires store.Shape() && InPlace(store.nodes, this)
      ensures child == null <==> path + [childName] !in store.tree
      ensures child != null ==> InPlace(store.nodes, child) && child.store == store && child.path == path + [childName]
    {
      hide Store.Shape, Store.NodesLinked, Store.Shows, Store.WatchersLinked, Store.Routed, Node.Linked;
      store.Kids(this);
      store.Local(this);
      if !isDir {
        return null;
      }
      if childName in children {
        child := children[childName];
        store.Local(child);
      } else {
        child := null;
      }
    }

    /** The nested value below this node: what is visible there, empty directories skipped. */
    method GetValue() returns (v: Val)
      requires store.Shape() && InPlace(store.nodes, this)
      ensures Pruned(v) && v.Dir? == isDir
      ensures forall q :: Lookup(v, q) == Find(Visible(store.tree), path + q)
      decreases Weight(store.tree, path)
    {
      hide Store.Shape, Store.NodesLinked, Store.Shows, Store.WatchersLinked, Store.Routed, Node.Linked;
      hide Closed, Visible, Weight;
      store.Kids(this);
      store.Local(this);
      if isDir {
        var values: map<string, Val> := map[];
        var names := children.Keys;
        while names != {}
          invariant names <= children.Keys
          invariant values.Keys <= children.Keys - names
          invariant forall c :: c in children && c !in names ==>
                      EntryOf(values, c, Visible(store.tree), path)
          decreases names
        {
          var c :| c in names;
          store.ChildBelow(this, c);
          var v := children[c].GetValue();
          names := names - {c};
          if v != Dir(map[]) {
            values := values[c := v];
          }
          assert EntryOf(values, c, Visible(store.tree), path) by {
            forall q ensures path + [c] + q == path + ([c] + q) {}
          }
        }
        v := Dir(values);
        store.DirValue(this, values);
      } else {
        v := Leaf(value);
        store.LeafValue(this);
      }
    }

    // ---- Watching ----------------------------------------------------------------------------

    /** `node.Watch`: one more watcher in this node's list. */
    method Watch() returns (w: Watcher)
      requires store.Shape() && store.Synced() && InPlace(store.nodes, this)
      modifies this`watchers, store`tree, store`live
      ensures store.Shape() && store.Synced()
      ensures fresh(w) && w.node == this && w.start == |store.log| && w.eventChan == []
      ensures store.live == old(store.live) + {w} && watchers == old(watchers) + [w]
      ensures store.tree == old(store.tree)[path := old(store.tree)[path].(watched := true)]
    {
      hide Store.Shape, Store.NodesLinked, Store.Shows, Store.WatchersLinked, Store.Routed, Node.Linked, Visible, Play;
      store.Local(this);
      WatchUnseen(store.tree, path, true);
      w := new Watcher(this, |store.log|);
      watchers := watchers + [w];
      store.live := store.live + {w};
      store.tree := store.tree[path := store.tree[path].(watched := true)];
      store.WatcherAdded(this, w);
    }

    /** What `node.Watch` leaves with a watcher to do at its removal: it leaves the list, and a node
        nobody watches any more is queued for cleaning. */
    method Forget(w: Watcher)
      requires store.NodesLinked() && store.Shows() && store.WatchersLinked() && store.Routed() && store.OpenBut({w})
      requires store.Synced() && w in store.live && w.node == this && w in watchers && NoRepeats(watchers)
      requires InPlace(store.nodes, this) && path in store.tree && store.tree[path].watched && this in store.known
      modifies this`watchers, w`removed, store`tree, store`live, store`cleanChan, store`lost
      ensures store.Whole() && w.removed && store.live == old(store.live) - {w}
      ensures store.State() ==
                if watchers == [] then Machine.Apply(old(store.State()), Machine.Unwatch(path)) else old(store.State())
      ensures watchers == [] <==> forall x :: x in old(watchers) ==> x == w
    {
      hide Store.NodesLinked, Store.Shows, Store.WatchersLinked, Store.Routed, Node.Linked, Visible, Play, NoRepeats;
      hide Machine.Enqueue;
      w.removed := true;
      var i :| 0 <= i < |watchers| && watchers[i] == w;
      Without(watchers, i);
      WatchUnseen(store.tree, path, |watchers| > 1);
      watchers := watchers[..i] + watchers[i + 1..];
      store.live := store.live - {w};
      store.tree := store.tree[path := store.tree[path].(watched := watchers != [])];
      store.WatcherGone(path, w);
      QueueIfBare();
    }

    /** The end of a watcher's removal: a node nobody watches any more is queued for cleaning. */
    method QueueIfBare()
      requires store.Shape() && InPlace(store.nodes, this)
      modifies store`cleanChan, store`lost
      ensures store.State() == if watchers == [] then Machine.Enqueue(old(store.State()), path) else old(store.State())
    {
      hide Store.Shape, Machine.Enqueue;
      store.Local(this);
      if |watchers| == 0 {
        store.Clean(FullPath());
      }
    }

    /** `node.Path`. */
    function FullPath(): (r: Path)
      requires Linked()
      ensures r == path
      decreases |path|
    {
      if parent == null then [] else parent.FullPath() + [name]
    }

    // ---- Adding and writing ----------------------------------------------------------------

    /** node.go's `Add`: a leaf that gets a child becomes a directory, which is reported. */
    method Add(child: Node)
      requires store.Shape() && InPlace(store.nodes, this)
      requires child.parent == this && child.store == store && child.Linked()
      requires child.path !in store.nodes && child !in store.known
      requires child.children == map[] && child.watchers == []
      modifies this`isDir, this`children, store`tree, store`log, store.live`eventChan, store`nodes, store`known
      ensures store.Shape()
      ensures store.tree == old(store.tree)[path := old(store.tree)[path].(dir := true)]
                                            [child.path := Cell(child.isDir, child.value, false)]
      ensures store.nodes == old(store.nodes)[child.path := child] && store.known == old(store.known) + {child}
      ensures store.log == old(store.log) + Opened(old(isDir), path, value)
    {
      hide Store.Shape, Store.NodesLinked, Store.Shows, Store.WatchersLinked, Store.Routed, Store.Fixed;
      hide Closed, Visible, Play, Extends;
      store.Local(this);
      if !isDir {
        AsDir();
      }
      Link(child);
    }

    /** A fresh empty directory below `parent`; only a parent that was a leaf is reported. */
    static method NewDir(store: Store, name: string, parent: Node) returns (n: Node)
      requires store.Shape() && store.Synced() && InPlace(store.nodes, parent) && parent.store == store
      requires parent.path + [name] !in store.tree
      modifies store, store.known, store.live
      ensures store.Shape() && store.Synced()
      ensures InPlace(store.nodes, n) && n.store == store && n.parent == parent && fresh(n)
      ensures n.path == parent.path + [name]
      ensures store.tree == old(store.tree)[parent.path := old(store.tree)[parent.path].(dir := true)]
                                            [n.path := Cell(true, "", false)]
      ensures store.Grown(old(store.Fixed()), n) && Extends(old(store.log), store.log)
      ensures store.log == old(store.log) + Opened(old(parent.isDir), parent.path, old(parent.value))
    {
      hide Store.Shape, Store.NodesLinked, Store.Shows, Store.WatchersLinked, Store.Routed, Store.Fixed;
      hide Closed, Visible, Play, Extends;
      store.Local(parent);
      ghost var t0, log0 := store.tree, store.log;
      n := new Node(store, name, "", true, parent);
      parent.Add(n);
      store.DirAdded(log0, t0, parent.path, n.path);
      store.GrownBy(n);
    }

    /** A fresh leaf below `parent`, reported by one UPDATE, after the DELETE of a parent that was a
        leaf. */
    static method NewKV(store: Store, name: string, value: string, parent: Node) returns (n: Node)
      requires store.Shape() && store.Synced() && InPlace(store.nodes, parent) && parent.store == store
      requires parent.path + [name] !in store.tree
      modifies store, store.known, store.live
      ensures store.Shape() && store.Synced()
      ensures InPlace(store.nodes, n) && n.store == store && n.parent == parent && fresh(n)
      ensures n.path == parent.path + [name]
      ensures store.tree == old(store.tree)[parent.path := old(store.tree)[parent.path].(dir := true)]
                                            [n.path := Cell(false, value, false)]
      ensures store.Grown(old(store.Fixed()), n) && Extends(old(store.log), store.log)
      ensures store.log == old(store.log) + Opened(old(parent.isDir), parent.path, old(parent.value))
                             + [Event(Update, n.path, value)]
    {
      hide Store.Shape, Store.NodesLinked, Store.Shows, Store.WatchersLinked, Store.Routed, Store.Fixed;
      hide Closed, Visible, Play, Extends, Store.Grown, Node.Linked, HasBelow;
      store.Local(parent);
      n := new Node(store, name, value, false, parent);
      parent.Add(n);
      n.Announce(old(store.log), old(store.tree));
      store.GrownBy(n);
    }

    /** The UPDATE that reports a leaf just added. */
    method Announce(ghost log0: seq<Event>, ghost t0: Tree)
      requires store.Shape() && InPlace(store.nodes, this) && Play(map[], log0) == Some(Visible(t0)) && parent != null
      requires parent.path in t0 && path !in t0
      requires store.tree == t0[parent.path := t0[parent.path].(dir := true)][path := Cell(false, value, false)]
      requires store.log == if t0[parent.path].dir then log0
                            else log0 + [Event(Delete, parent.path, t0[parent.path].value)]
      modifies store`log, store.live`eventChan
      ensures store.Shape() && store.Synced() && Extends(log0, store.log)
      ensures store.log == old(store.log) + [Event(Update, path, value)]
    {
      hide Store.Shape, Store.NodesLinked, Store.Shows, Store.WatchersLinked, Store.Routed, Store.Fixed;
      hide Closed, Visible, Play, Extends, Store.Grown, Node.Linked;
      ghost var log1 := store.log;
      store.Local(this);
      Notify(Update);
      store.LeafAdded(log0, log1, t0, parent.path, path, value);
    }

    /** node.go's `Write`: a directory without children becomes a leaf again, one with
        children only hides the value. */
    method Write(v: string)
      requires store.Shape() && store.Synced() && InPlace(store.nodes, this)
      modifies store, store.known, store.live
      ensures store.Shape() && store.Synced()
      ensures store.tree == if path == [] then old(store.tree)
                else var c := old(store.tree)[path];
                     old(store.tree)[path := Cell(c.dir && HasBelow(old(store.tree), path), v, c.watched)]
      ensures store.log == old(store.log) +
                if Find(Visible(store.tree), path) != Find(Visible(old(store.tree)), path) then [Event(Update, path, v)]
                else []
      ensures store.Fixed() == old(store.Fixed()) && Extends(old(store.log), store.log)
    {
      hide Store.Shape, Store.NodesLinked, Store.Shows, Store.WatchersLinked, Store.Routed, Store.Fixed;
      hide HasBelow, Closed, Visible, Play, Extends, Find, Store.Synced;
      store.Local(this);
      Same(store.log, store.nodes);
      OneMore(store.log, Event(Update, path, v));
      assert store.log + [] == store.log;
      if parent == null {
        return;
      }
      WriteDiffers(store.tree, path, v);
      store.KidsBelow(this);
      Rewrite(v);
    }

    /** `Write` for a node other than the root. */
    method Rewrite(v: string)
      requires store.Shape() && store.Synced() && InPlace(store.nodes, this) && path != []
      modifies store, store.known, store.live
      ensures store.Shape() && store.Synced()
      ensures var c := old(store.tree)[path];
              store.tree == old(store.tree)[path := Cell(c.dir && HasBelow(old(store.tree), path), v, c.watched)]
      ensures store.log == old(store.log) +
                if old(isDir && children == map[]) || old(!isDir && value != v) then [Event(Update, path, v)] else []
      ensures store.Fixed() == old(store.Fixed())
    {
      hide Store.Shape, Store.NodesLinked, Store.Shows, Store.WatchersLinked, Store.Routed, Store.Fixed;
      hide HasBelow, Closed, Visible, Play;
      ghost var t0 := store.tree;
      store.Local(this);
      store.WriteStep(this, v);
      store.KidsBelow(this);
      var oldValue := value;
      SetValue(v);
      if isDir {
        if |children| == 0 {
          AsLeaf();
          assert store.tree == t0[path := Cell(false, v, watchers != [])];
        }
      } else if oldValue != v {
        Notify(Update);
      }
    }

    // ---- Removing ----------------------------------------------------------------------------

    /** node.go's `Remove`. Taking the last child out makes `Clean` look at the parent, which
        may take out the very node whose loop is still running, and then its ancestors. */
    method Remove() returns (done: bool)
      requires store.Shape() && store.Synced() && InPlace(store.nodes, this)
      modifies store, store.known, store.live
      ensures store.Shape() && store.Synced()
      ensures store.tree == Trees.Remove(old(store.tree), path)
      ensures done == (!old(isDir) || (old(children) == map[] && watchers == [] && path != []))
      ensures Removes(old(store.tree), path, old(store.log), store.log) && Within(store.nodes, old(store.nodes))
      ensures store.Fixed() == old(store.Fixed()) && store.known == old(store.known) && store.live == old(store.live)
      ensures watchers == old(watchers)
      decreases |store.nodes|, Weight(store.tree, path), 4
    {
      hide Store.Shape, Store.NodesLinked, Store.Shows, Store.WatchersLinked, Store.Routed;
      hide Store.Synced, InPlace;
      hide Store.Fixed;
      hide Node.Linked, Closed, Weight, HasBelow, Visible, Play, EmptyKids, Trees.Remove, Trees.Clean, Extends, Within;
      hide Removes, Cleans;
      if !isDir {
        RemoveLeaf();
        return true;
      }
      done := RemoveDir();
    }

    /** `Remove` for a directory: its value and its children go, then the directory itself unless
        something holds it, or it is gone already. */
    method RemoveDir() returns (done: bool)
      requires store.Shape() && store.Synced() && InPlace(store.nodes, this) && isDir
      modifies store, store.known, store.live
      ensures store.Shape() && store.Synced()
      ensures store.tree == Trees.Remove(old(store.tree), path)
      ensures done == (old(children) == map[] && watchers == [] && path != [])
      ensures Removes(old(store.tree), path, old(store.log), store.log) && Within(store.nodes, old(store.nodes))
      ensures store.Fixed() == old(store.Fixed()) && store.known == old(store.known) && store.live == old(store.live)
      ensures watchers == old(watchers)
      decreases |store.nodes|, Weight(store.tree, path), 3
    {
      hide Store.Shape, Store.NodesLinked, Store.Shows, Store.WatchersLinked, Store.Routed;
      hide Store.Synced, InPlace;
      hide Store.Fixed;
      hide Node.Linked, Closed, Weight, HasBelow, Visible, Play, EmptyKids, Trees.Remove, Trees.Clean, Extends, Within;
      hide Removes, Cleans;
      ghost var t0, kids, log0, nodes0 := store.tree, children.Keys, store.log, store.nodes;
      store.Local(this);
      ClearOut();
      store.Stays(this, nodes0);
      var watched := HasWatcher();
      done := parent != null && name in parent.children && parent.children[name] == this && |children| == 0 && !watched;
      if done {
        ghost var log1, nodes1 := store.log, store.nodes;
        Drop();
        Gone(nodes0, nodes1, store.nodes);
        RemovesLast(t0, path, kids, log0, log1, store.log);
      }
    }

    /** The value is cleared and every child removed; the loop may remove this node as well. What
        is left to do for it is then to go, if nothing holds it. */
    method ClearOut()
      requires store.Shape() && store.Synced() && InPlace(store.nodes, this) && isDir
      modifies store, store.known, store.live
      ensures store.Shape() && store.Synced()
      ensures path in store.tree ==>
                store.tree == EmptyKids(old(store.tree)[path := old(store.tree)[path].(value := "")], path,
                                        old(children.Keys))
      ensures path in store.tree ==> isDir && |store.nodes| <= |old(store.nodes)|
      ensures path in store.tree ==> Weight(store.tree, path) <= Weight(old(store.tree), path)
      ensures Trees.Remove(old(store.tree), path) ==
                if path in store.tree && children == map[] && watchers == [] && parent != null
                then Trees.Clean(store.tree - {path}, parent.path) else store.tree
      ensures path !in store.tree ==> old(children) != map[]
      ensures path in store.tree && old(children) != map[] ==> children != map[] || watchers != [] || path == []
      ensures old(children) == map[] ==> children == map[]
      ensures Removes(old(store.tree), path, old(store.log), store.log) && Within(store.nodes, old(store.nodes))
      ensures store.Fixed() == old(store.Fixed()) && store.known == old(store.known) && store.live == old(store.live)
      ensures watchers == old(watchers)
      decreases |store.nodes|, Weight(store.tree, path), 2
    {
      hide Store.Shape, Store.NodesLinked, Store.Shows, Store.WatchersLinked, Store.Routed;
      hide Store.Fixed;
      hide Node.Linked, Closed, Weight, HasBelow, Visible, Play, EmptyKids, Trees.Remove, Trees.Clean, Extends, Within;
      hide Removes, Cleans;
      ghost var t0, kids, nodes0 := store.tree, children.Keys, store.nodes;
      store.Local(this);
      store.RemovalPlan(this);
      HiddenValue(t0, path, "");
      SetValue("");
      ghost var t1, log0 := store.tree, store.log;
      RemoveChildren(t0);
      RemovesCleared(t0, path, log0, store.log);
      store.Stays(this, nodes0);
      if path in store.tree {
        store.Local(this);
        EmptyKidsTop(t1, path, kids);
        store.KidsBelow(this);
        BelowShrinks(store.tree, t0, path);
      }
    }

    /** The end of `Remove` for a directory: it leaves its parent's map, and the parent is cleaned. */
    method Drop()
      requires store.Shape() && store.Synced() && InPlace(store.nodes, this) && parent != null
      requires isDir && children == map[] && watchers == []
      modifies store, store.known, store.live
      ensures store.Shape() && store.Synced()
      ensures store.tree == Trees.Clean(old(store.tree) - {path}, parent.path)
      ensures Cleans(old(store.tree), parent.path, old(store.log), store.log)
      ensures Within(store.nodes, old(store.nodes))
      ensures store.Fixed() == old(store.Fixed()) && store.known == old(store.known) && store.live == old(store.live)
      ensures watchers == old(watchers)
      decreases |store.nodes|, Weight(store.tree, path), 0
    {
      hide Store.Shape, Store.NodesLinked, Store.Shows, Store.WatchersLinked, Store.Routed;
      hide Store.Fixed;
      hide Node.Linked, Closed, Weight, HasBelow, Visible, Play, EmptyKids, Trees.Remove, Trees.Clean, Extends, Within;
      hide Removes, Cleans;
      store.Local(this);
      ghost var t0, log0, nodes0 := store.tree, store.log, store.nodes;
      HiddenGone(store.tree, path);
      OneLess(nodes0, path);
      Same(log0, nodes0);
      Unlink();
      ghost var nodes1 := store.nodes;
      store.ListKept(this);
      var _ := parent.Clean();
      store.ListKept(this);
      Gone(nodes0, nodes1, store.nodes);
      CleansAbove(t0, path, log0, store.log);
    }

    /** The branch of `Remove` for a leaf: a watched one stays behind as an empty directory. */
    method RemoveLeaf()
      requires store.Shape() && store.Synced() && InPlace(store.nodes, this) && !isDir
      modifies store, store.known, store.live
      ensures store.Shape() && store.Synced()
      ensures store.tree == Trees.Remove(old(store.tree), path)
      ensures Removes(old(store.tree), path, old(store.log), store.log) && Within(store.nodes, old(store.nodes))
      ensures store.Fixed() == old(store.Fixed()) && store.known == old(store.known) && store.live == old(store.live)
      ensures watchers == old(watchers)
      decreases |store.nodes|, Weight(store.tree, path), 0
    {
      hide Store.Shape, Store.NodesLinked, Store.Shows, Store.WatchersLinked, Store.Routed;
      hide Store.Fixed;
      hide Node.Linked, Closed, Weight, HasBelow, Visible, Play, EmptyKids, Trees.Remove, Trees.Clean, Extends, Within;
      hide Removes, Cleans;
      store.Local(this);
      store.BareRemoval(this);
      ghost var t0, log0, nodes0 := store.tree, store.log, store.nodes;
      var watched := HasWatcher();
      if watched {
        Bury();
        RemovesBuried(t0, path, log0);
      } else {
        UnlinkLeaf();
        ghost var nodes1 := store.nodes;
        store.ListKept(this);
        var _ := parent.Clean();
        store.ListKept(this);
        Gone(nodes0, nodes1, store.nodes);
        RemovesUnlinked(t0, path, log0, store.log);
      }
    }

    /** A watched leaf becomes an empty directory. */
    method Bury()
      requires store.Shape() && store.Synced() && InPlace(store.nodes, this) && !isDir && watchers != []
      modifies store, store.known, store.live
      ensures store.Shape() && store.Synced()
      ensures store.tree == old(store.tree)[path := Cell(true, "", true)]
      ensures store.log == old(store.log) + [Event(Delete, path, "")] && Within(store.nodes, old(store.nodes))
      ensures store.Fixed() == old(store.Fixed()) && store.known == old(store.known) && store.live == old(store.live)
      ensures watchers == old(watchers)
    {
      hide Store.Shape, Store.NodesLinked, Store.Shows, Store.WatchersLinked, Store.Routed;
      hide Store.Fixed;
      hide Node.Linked, Closed, Weight, HasBelow, Visible, Play, EmptyKids, Trees.Remove, Trees.Clean, Extends, Within;
      store.Local(this);
      ghost var t0, log0 := store.tree, store.log;
      SetValue("");
      AsDir();
      assert store.tree == t0[path := Cell(true, "", true)];
      LeafGone(log0, t0, Event(Delete, path, value), Some(Cell(true, "", true)));
      OneLess(store.nodes, path);
    }

    /** Only a leaf's going is reported. */
    method UnlinkLeaf()
      requires store.Shape() && store.Synced() && InPlace(store.nodes, this) && !isDir && watchers == []
      modifies store, store.known, store.live
      ensures store.Shape() && store.Synced()
      ensures parent != null && InPlace(store.nodes, parent) && |store.nodes| < |old(store.nodes)|
      ensures store.tree == old(store.tree) - {path}
      ensures store.log == old(store.log) + [Event(Delete, path, old(value))] && Within(store.nodes, old(store.nodes))
      ensures store.Fixed() == old(store.Fixed()) && store.known == old(store.known) && store.live == old(store.live)
      ensures watchers == old(watchers)
    {
      hide Store.Shape, Store.NodesLinked, Store.Shows, Store.WatchersLinked, Store.Routed;
      hide Store.Fixed;
      hide Node.Linked, Closed, Weight, HasBelow, Visible, Play, EmptyKids, Trees.Remove, Trees.Clean, Extends, Within;
      store.Local(this);
      ghost var t0, log0, nodes0 := store.tree, store.log, store.nodes;
      Unlink();
      Notify(Delete);
      LeafGone(log0, t0, Event(Delete, path, value), None);
      OneLess(nodes0, path);
    }

    /** How far the loop of `Remove` has come: the children in `seen` are emptied, or the last of
        them has taken this node with it. `t0` is the tree at the call, `t1` after the value went. */
    ghost predicate Stage(t0: Tree, t1: Tree, seen: set<string>)
      reads this`children, this`watchers, store`tree
    {
      && (path in store.tree ==> store.tree == EmptyKids(t1, path, seen))
      && (path in store.tree && seen != {} ==> children != map[] || watchers != [] || path == [])
      && (path !in store.tree ==> store.tree == Trees.Remove(t0, path) && seen != {})
    }

    /** The loop of `Remove`. */
    method RemoveChildren(ghost t0: Tree)
      requires store.Shape() && store.Synced() && InPlace(store.nodes, this) && isDir
      modifies store, store.known, store.live
      ensures store.Shape() && store.Synced()
      requires path in t0 && store.tree == t0[path := t0[path].(value := "")]
      ensures Stage(t0, old(store.tree), old(children.Keys))
      ensures old(children) == map[] ==> children == map[]
      ensures Removes(old(store.tree), path, old(store.log), store.log) && Within(store.nodes, old(store.nodes))
      ensures store.Fixed() == old(store.Fixed()) && store.known == old(store.known) && store.live == old(store.live)
      ensures watchers == old(watchers)
      decreases |store.nodes|, Weight(t0, path), 1
    {
      hide Store.Shape, Store.NodesLinked, Store.Shows, Store.WatchersLinked, Store.Routed;
      hide Store.Synced, InPlace;
      hide Store.Fixed;
      hide Node.Linked, Closed, Weight, HasBelow, Visible, Play, EmptyKids, Trees.Remove, Trees.Clean, Extends, Within;
      hide Removes, Cleans;
      ghost var t1, log0, nodes0 := store.tree, store.log, store.nodes;
      store.LoopStarts(this, t0);
      Same(log0, nodes0);
      NoEvents(t1, path, log0);
      hide Node.Stage, Listed;
      ghost var kids := children.Keys;
      assert kids - kids == {};
      var names := children.Keys;
      while names != {}
        invariant store.Shape() && store.Synced() && names <= kids && Stage(t0, t1, kids - names)
        invariant Removes(t1, path, log0, store.log) && Within(store.nodes, nodes0)
        invariant names == kids ==> children == old(children)
        invariant watchers == old(watchers)
        invariant store.Fixed() == old(store.Fixed())
        invariant store.known == old(store.known) && store.live == old(store.live)
        decreases names
      {
        var c :| c in names;
        ghost var log1 := store.log;
        RemoveChild(c, t0, t1, kids, kids - names, nodes0);
        RemovesMore(t1, path, log0, log1, store.log);
        OneMoreSeen(kids, names, c);
        names := names - {c};
      }
      assert kids - names == kids;
    }

    /** One round of the loop; a child that is no longer listed is skipped. */
    method RemoveChild(c: string, ghost t0: Tree, ghost t1: Tree, ghost kids: set<string>, ghost seen: set<string>,
      ghost nodes0: map<Path, Node>)
      requires store.Shape() && store.Synced() && this in store.known && (parent != null ==> parent in store.known)
      requires InPlace(nodes0, this) && Within(store.nodes, nodes0) && Within(nodes0, nodes0)
      requires path in t1 && t1[path] == Cell(true, "", watchers != []) && Weight(t1, path) == Weight(t0, path)
      requires Trees.Remove(t1, path) == Trees.Remove(t0, path)
      requires Stage(t0, t1, seen) && Listed(t1, path, kids) && c in kids && c !in seen
      modifies store, store.known, store.live
      ensures store.Shape() && store.Synced() && Stage(t0, t1, seen + {c})
      ensures Removes(t1, path, old(store.log), store.log) && Within(store.nodes, nodes0)
      ensures store.Fixed() == old(store.Fixed()) && store.known == old(store.known) && store.live == old(store.live)
      ensures watchers == old(watchers)
      decreases |nodes0|, Weight(t0, path), 0
    {
      hide Store.Shape, Store.NodesLinked, Store.Shows, Store.WatchersLinked, Store.Routed;
      hide Store.Synced, InPlace;
      hide Store.Fixed;
      hide Node.Linked, Closed, Weight, HasBelow, Visible, Play, EmptyKids, Trees.Remove, Trees.Clean, Extends, Within;
      hide Removes, Cleans;
      store.Stays(this, nodes0);
      Same(store.log, store.nodes);
      NoEvents(t1, path, store.log);
      if path in store.tree {
        store.StillThere(this, t1, seen, c);
      }
      if c in children {
        store.KidStep(this, t1, seen, c);
        ghost var log1, nodes1 := store.log, store.nodes;
        store.ListKept(this);
        var _ := children[c].Remove();
        store.ListKept(this);
        Gone(nodes0, nodes1, store.nodes);
        RemovesKid(t1, path, seen, c, log1, store.log);
        store.Stays(this, nodes0);
        if path in store.tree {
          store.KidsBelow(this);
        }
      }
    }

    /** node.go's `Clean`. */
    method Clean() returns (done: bool)
      requires store.Shape() && store.Synced() && InPlace(store.nodes, this)
      modifies store, store.known, store.live
      ensures store.Shape() && store.Synced()
      ensures store.tree == Trees.Clean(old(store.tree), path)
      ensures done == (old(isDir) && old(children) == map[] && (old(value) != "" || (watchers == [] && path != [])))
      ensures Cleans(old(store.tree), path, old(store.log), store.log) && Within(store.nodes, old(store.nodes))
      ensures store.Fixed() == old(store.Fixed()) && store.known == old(store.known) && store.live == old(store.live)
      ensures watchers == old(watchers)
      decreases |store.nodes|, Weight(store.tree, path), 5
    {
      hide Store.Shape, Store.NodesLinked, Store.Shows, Store.WatchersLinked, Store.Routed;
      hide Store.Fixed;
      hide Node.Linked, Closed, Weight, HasBelow, Visible, Play, EmptyKids, Trees.Remove, Trees.Clean, Extends, Within;
      hide Removes, Cleans;
      store.Local(this);
      store.CleanPlan(this);
      Same(store.log, store.nodes);
      NoEvents(store.tree, path, store.log);
      ghost var t0, log0, nodes0 := store.tree, store.log, store.nodes;
      if !isDir {
        return false;
      }
      if |children| == 0 {
        if value == "" {
          var watched := HasWatcher();
          if !watched {
            store.KidsBelow(this);
            done := Remove();
            CleansBare(t0, path, log0, store.log);
            return;
          }
        } else {
          AsLeaf();
          CleansBack(t0, path, log0);
          OneLess(nodes0, path);
          return true;
        }
      }
      return false;
    }
  }

  datatype Kept = Kept(root: Node?, version: nat, cleanChan: seq<Path>, lost: set<Path>, ops: seq<Machine.Op>,
    known: set<Node>, live: set<Watcher>, lists: map<Node, seq<Watcher>>, flags: map<Watcher, (bool, bool)>)

  class Store {
    var root: Node?
    var version: nat
    var cleanChan: seq<Path>
    ghost var nodes: map<Path, Node>  // the attached nodes
    ghost var tree: Tree  // what they show
    ghost var known: set<Node>  // every node made so far, in the tree or taken out
    ghost var live: set<Watcher>  // watchers not removed yet
    ghost var lost: set<Path>  // clean messages dropped because the channel was full
    ghost var log: seq<Event>  // every event notified so far, with full paths
    ghost var ops: seq<Machine.Op>  // every operation so far

    /** Parent pointers and children maps agree; a node taken out has no children. */
    ghost predicate NodesLinked()
      reads this`nodes, this`root, this`known, known`children
    {
      && [] in nodes && nodes[[]] == root && root.parent == null
      && (forall p {:trigger nodes[p]} :: p in nodes ==>
            nodes[p] in known && nodes[p].path == p && nodes[p].store == this)
      && (forall p {:trigger nodes[p].Linked()} :: p in nodes ==> nodes[p].Linked())
      && (forall p {:trigger nodes[p].parent} :: p in nodes && p != [] ==>
            && nodes[p].parent != null && InPlace(nodes, nodes[p].parent)
            && nodes[p].name in nodes[p].parent.children && nodes[p].parent.children[nodes[p].name] == nodes[p])
      && (forall p, c {:trigger nodes[p].children[c]} :: p in nodes && c in nodes[p].children ==>
            && InPlace(nodes, nodes[p].children[c])
            && nodes[p].children[c].parent == nodes[p] && nodes[p].children[c].name == c)
      && (forall n {:trigger n.children} :: n in known && !InPlace(nodes, n) ==> n.children == map[])
    }

    /** The tree as a value; leaves have no children, and the root is a directory without a value. */
    ghost predicate Shows()
      reads this`nodes, this`tree, this`root, this`known
      reads known`isDir, known`value, known`watchers, known`children
    {
      && tree.Keys == nodes.Keys
      && (forall p {:trigger nodes[p]} :: p in nodes ==>
            && nodes[p] in known && tree[p].dir == nodes[p].isDir
            && tree[p].value == nodes[p].value && tree[p].watched == (nodes[p].watchers != []))
      && (forall p {:trigger nodes[p].children} :: p in nodes && !nodes[p].isDir ==> nodes[p].children == map[])
      && [] in tree && tree[[]].dir && tree[[]].value == ""
    }

    /** Live watchers sit on attached nodes, each in its own node's list once. */
    ghost predicate WatchersLinked()
      reads this`nodes, this`live, this`known, known`watchers, live`removed
    {
      && (forall p {:trigger nodes[p]} :: p in nodes ==> nodes[p] in known)
      && (forall w {:trigger w in live} :: w in live ==>
            !w.removed && InPlace(nodes, w.node) && w in w.node.watchers)
      && (forall p, w {:trigger w in nodes[p].watchers} :: p in nodes && w in nodes[p].watchers ==>
            w in live && w.node == nodes[p])
      && (forall p {:trigger nodes[p].watchers} :: p in nodes ==> NoRepeats(nodes[p].watchers))
      && (forall n {:trigger n.watchers} :: n in known && !InPlace(nodes, n) ==> n.watchers == [])
    }

    /** The channels of the live watchers are open, except those of `closing`. */
    ghost predicate OpenBut(closing: set<Watcher>)
      reads this`live, live`closed
    {
      forall w {:trigger w in live} :: w in live && w !in closing ==> !w.closed
    }

    /** Every live watcher was sent exactly the log since it began, seen from its node. */
    ghost predicate Routed()
      reads this`live, this`log, live`eventChan
    {
      forall w {:trigger w in live} :: w in live ==>
        w.start <= |log| && w.eventChan == Route(log[w.start..], w.node.path)
    }

    ghost predicate Shape()
      reads this`nodes, this`tree, this`root, this`known
      reads known`isDir, known`children, known`value, known`watchers
      reads this`live, live`closed, live`removed, this`log, live`eventChan
    {
      NodesLinked() && Shows() && WatchersLinked() && Routed() && OpenBut({})
    }

    /** The events so far are exactly the changes of what is visible. */
    ghost predicate Synced()
      reads this`tree, this`log
    {
      Play(map[], log) == Some(Visible(tree))
    }

    // ---- Operations ----------------------------------------------------------------------------

    /** What holds of the nodes, the watchers and the log whenever no node is being changed. */
    ghost predicate Whole()
      reads this`nodes, this`tree, this`root, this`known, this`live, this`log
      reads known`isDir, known`children, known`value, known`watchers, live`closed, live`removed, live`eventChan
    {
      Shape() && Synced()
    }

    /** The store is where its operations lead to. */
    ghost predicate Traced()
      reads this`tree, this`version, this`cleanChan, this`lost, this`ops
    {
      State() == Machine.Run(Machine.INIT, ops)
    }

    /** What holds between any two operations. */
    ghost predicate Valid()
      reads this`nodes, this`tree, this`root, this`known, this`live, this`log
      reads known`isDir, known`children, known`value, known`watchers, live`closed, live`removed, live`eventChan
      reads this`version, this`cleanChan, this`lost, this`ops
    {
      Whole() && Traced()
    }

    ghost function State(): Machine.State
      reads this`tree, this`version, this`cleanChan, this`lost
    {
      Machine.State(tree, version, cleanChan, lost)
    }

    ghost function Rest(): (Node?, nat, seq<Path>, set<Path>, set<Watcher>, seq<Machine.Op>)
      reads this`root, this`version, this`cleanChan, this`lost, this`live, this`ops
    {
      (root, version, cleanChan, lost, live, ops)
    }

    constructor ()
      ensures Valid() && State() == Machine.INIT && ops == []
      ensures live == {} && log == [] && fresh(known)
    {
      root, version, cleanChan := null, 0, [];
      nodes, tree, known, live, lost, log, ops := map[], map[], {}, {}, {}, [], [];
      new;
      var r := new Node(this, "/", "", true, null);
      root := r;
      nodes, tree, known := map[[] := r], EMPTY, {r};
      Begun();
    }

    /** `checkDir`: the child of that name, made as an empty directory if there is none. */
    method CheckDir(parent: Node, dirName: string) returns (n: Node)
      requires Whole() && InPlace(nodes, parent) && parent.store == this
      modifies this, known, live
      ensures Whole() && InPlace(nodes, n) && n.store == this && n.path == parent.path + [dirName]
      ensures tree == if n.path in old(tree) then old(tree)
                      else old(tree)[parent.path := old(tree)[parent.path].(dir := true)]
                                    [n.path := Cell(true, "", false)]
      ensures Rest() == old(Rest()) && parent.path in old(tree)
      ensures log == old(log) + Stepping(old(tree), parent.path, n.path)
      ensures old(known) <= known && fresh(known - old(known))
    {
      hide Shape, NodesLinked, Shows, WatchersLinked, Routed, Fixed, Grown;
      hide HasBelow, Closed, Visible, Play, Extends, Node.Linked, Trees.Remove, Trees.Clean, Reach, PutAt;
      hide Trees.Bulk, Rooted;
      Same(log, nodes);
      Local(parent);
      var node := parent.GetChild(dirName);
      if node != null {
        return node;
      }
      ghost var f := Fixed();
      RestOf(f);
      n := Node.NewDir(this, dirName, parent);
      GrownRest(f, n);
    }

    /** `walk` with `checkDir`: the directories on the way to `p`, and `p` itself. */
    method WalkDirs(p: Path) returns (d: Node)
      requires Whole()
      modifies this, known, live
      ensures Whole() && InPlace(nodes, d) && d.store == this && d.path == p
      ensures tree == Reach(old(tree), p)
      ensures Rest() == old(Rest()) && log == old(log) + Opening(old(tree), p)
      ensures old(known) <= known && fresh(known - old(known))
    {
      hide Shape, NodesLinked, Shows, WatchersLinked, Routed, Fixed, Grown;
      hide Closed, Visible, Play, Extends, Node.Linked, Trees.Remove, Trees.Clean, Reach, PutAt, Trees.Bulk, Rooted;
      hide Opening, Stepping;
      RootAt();
      TreeRooted();
      ghost var t0, log0 := tree, log;
      OpeningNone(t0);
      ReachRoot(t0);
      d := root;
      var i := 0;
      assert p[..0] == [];
      while i < |p|
        invariant 0 <= i <= |p|
        invariant Whole() && InPlace(nodes, d) && d.store == this && d.path == p[..i]
        invariant tree == Reach(t0, p[..i])
        invariant Rest() == old(Rest()) && log == log0 + Opening(t0, p[..i])
        invariant old(known) <= known && fresh(known - old(known))
      {
        ReachNext(t0, p[..i], p[i]);
        assert p[..i] + [p[i]] == p[..i + 1];
        OpeningStep(t0, p[..i], p[i]);
        d := CheckDir(d, p[i]);
        i := i + 1;
      }
      assert p[..i] == p;
    }

    /** `internalGet`: the node at `p`, if there is one. */
    method InternalGet(p: Path) returns (n: Node?)
      requires Whole()
      ensures n == null <==> p !in tree
      ensures n != null ==> InPlace(nodes, n) && n.store == this && n.path == p
    {
      hide Shape, NodesLinked, Shows, WatchersLinked, Routed, Fixed, Grown;
      hide Closed, Visible, Play, Extends, Node.Linked, Trees.Remove, Trees.Clean, Reach, PutAt, Trees.Bulk, Rooted;
      RootAt();
      TreeRooted();
      n := root;
      var i := 0;
      while i < |p|
        invariant 0 <= i <= |p|
        invariant n != null && InPlace(nodes, n) && n.store == this && n.path == p[..i]
      {
        assert p[..i] + [p[i]] == p[..i + 1];
        n := n.GetChild(p[i]);
        if n == null {
          MissingBelow(tree, p[..i + 1], p);
          return;
        }
        i := i + 1;
      }
      assert p[..i] == p;
      AtIn(n);
    }

    /** `internalPut`: one string written at `p`. */
    method InternalPut(p: Path, v: string)
      requires Whole()
      modifies this, known, live
      ensures Whole() && State() == Machine.Apply(old(State()), Machine.Put(p, v))
      ensures root == old(root) && live == old(live) && ops == old(ops)
      ensures log == old(log) + Writing(old(tree), p, v)
      ensures old(known) <= known && fresh(known - old(known))
    {
      hide Shape, NodesLinked, Shows, WatchersLinked, Routed, Fixed, Grown;
      hide Closed, Visible, Play, Extends, Node.Linked, Trees.Remove, Trees.Clean, Reach, PutAt, Trees.Bulk, Rooted;
      hide HasBelow, Writing, Opening, Ending;
      version := version + 1;
      RootPut(tree, v);
      WritingNone(tree, v);
      if p == [] {
        return;
      }
      TreeRooted();
      PutSteps(tree, p, v);
      WritingSteps(tree, p, v);
      var d := WalkDirs(Parent(p));
      assert p == d.path + [Last(p)];
      PutChild(d, Last(p), v);
    }

    /** The end of `internalPut`: the value is written to a child of the last directory, or to a new
        one. */
    method PutChild(d: Node, name: string, v: string)
      requires Whole() && InPlace(nodes, d) && d.store == this
      modifies this, known, live
      ensures Whole() && Rest() == old(Rest()) && d.path in old(tree)
      ensures log == old(log) + Ending(old(tree), d.path, d.path + [name], v)
      ensures var t, p := old(tree), d.path + [name];
              tree == if p in t then t[p := Cell(t[p].dir && HasBelow(t, p), v, t[p].watched)]
                      else t[d.path := t[d.path].(dir := true)][p := Cell(false, v, false)]
      ensures old(known) <= known && fresh(known - old(known))
    {
      hide Shape, NodesLinked, Shows, WatchersLinked, Routed, Fixed, Grown;
      hide Closed, Visible, Play, Extends, Node.Linked, Trees.Remove, Trees.Clean, Reach, PutAt, Trees.Bulk, Rooted;
      hide HasBelow;
      AtIn(d);
      Local(d);
      ghost var f := Fixed();
      RestOf(f);
      var n := d.GetChild(name);
      if n != null {
        WriteDiffers(tree, n.path, v);
        n.Write(v);
        RestOf(f);
      } else {
        ghost var log0, step := log, Stepping(tree, d.path, d.path + [name]);
        n := Node.NewKV(this, name, v, d);
        assert log0 + step + [Event(Update, n.path, v)] == log0 + (step + [Event(Update, n.path, v)]);
        GrownRest(f, n);
      }
    }

    /** `internalPutBulk`: the keys of a flat map written below `p` one by one, in any order. */
    method InternalPutBulk(p: Path, values: map<string, string>) returns (ghost order: seq<string>)
      requires Whole()
      modifies this, known, live
      ensures Machine.Orders(order, values.Keys)
      ensures Whole() && State() == Machine.Run(old(State()), Machine.Puts(p, values, order))
      ensures root == old(root) && live == old(live) && ops == old(ops)
      ensures log == old(log) + WritingAll(old(State()), p, values, order)
      ensures old(known) <= known && fresh(known - old(known))
    {
      hide Shape, NodesLinked, Shows, WatchersLinked, Routed, Fixed, Grown;
      hide Machine.Apply, Machine.Run, Machine.Puts, Machine.Target, Machine.Orders;
      hide Closed, Visible, Play, Extends, Node.Linked, Trees.Remove, Trees.Clean, Reach, PutAt, Trees.Bulk, Rooted;
      hide Writing, WritingAll;
      ghost var s0, log0 := State(), log;
      order := [];
      Machine.NoPuts(s0, p, values);
      WritingNothing(s0, p, values, log0);
      var keys := values.Keys;
      assert values.Keys - keys == {};
      while keys != {}
        invariant keys <= values.Keys && Machine.Orders(order, values.Keys - keys)
        invariant forall k :: k in order ==> k in values
        invariant Whole() && State() == Machine.Run(s0, Machine.Puts(p, values, order))
        invariant root == old(root) && live == old(live) && ops == old(ops)
        invariant log == log0 + WritingAll(s0, p, values, order)
        invariant old(known) <= known && fresh(known - old(known))
        decreases keys
      {
        var k :| k in keys;
        InternalPut(Machine.Target(p, k), values[k]);
        WritingOne(s0, p, values, order, k);
        Machine.OrdersOne(order, values.Keys - keys, k);
        Machine.PutsOne(p, values, order, k);
        Machine.RunOneMore(s0, Machine.Puts(p, values, order), Machine.Put(Machine.Target(p, k), values[k]));
        assert values.Keys - (keys - {k}) == values.Keys - keys + {k};
        keys := keys - {k};
        order := order + [k];
      }
      assert values.Keys - keys == values.Keys;
    }

    /** The operations that were carried out are added to the history. */
    ghost method Record(more: seq<Machine.Op>)
      requires Whole() && State() == Machine.Run(Machine.Run(Machine.INIT, ops), more)
      modifies this`ops
      ensures Valid() && ops == old(ops) + more && State() == old(State())
    {
      hide Shape, Synced, Machine.Run;
      Machine.RunConcat(Machine.INIT, ops, more);
      ops := ops + more;
    }

    /** `Put` of a string, a map or a slice; anything else panics. */
    method Put(p: Path, value: Flatmap.Thing)
      requires Valid() && (value.Text? || value.Table? || value.Slice?)
      modifies this, known, live
      ensures Valid()
      ensures value.Text? ==> ops == old(ops) + [Machine.Put(p, value.text)]
      ensures value.Text? ==> State() == Machine.Apply(old(State()), Machine.Put(p, value.text))
      ensures !value.Text? ==> exists m: map<string, string>, order ::
                Flatmap.Flattened(value, m) && Machine.Orders(order, m.Keys) &&
                ops == old(ops) + Machine.Puts(p, m, order) &&
                log == old(log) + WritingAll(old(State()), p, m, order)
      ensures !value.Text? && Flatmap.ProperNames(value) ==>
                State() == Machine.Apply(old(State()), Machine.PutBulk(p, Flatten(Flatmap.Norm(value))))
      ensures value.Text? ==> log == old(log) + Writing(old(tree), p, value.text)
      ensures value.Text? ==> Account(old(tree), tree, log[|old(log)|..])
      ensures root == old(root) && live == old(live) && Extends(old(log), log)
      ensures old(known) <= known && fresh(known - old(known))
    {
      hide Shape, Synced, Extends, Flatmap.Flattened, Flatmap.ProperNames, Flatmap.Norm, Flatten;
      hide Machine.Apply, Machine.Run, Machine.Puts, Machine.Orders, Writing, WritingAll, Account, Play, Visible;
      hide Rooted, PutAt;
      if value.Text? {
        InSync();
        ghost var t0, log0 := tree, log;
        InternalPut(p, value.text);
        Added(log0, Writing(t0, p, value.text));
        InSync();
        PutTree(State(), old(State()), p, value.text);
        WriteAccount(t0, p, value.text, log0);
        RecordOne(Machine.Put(p, value.text));
      } else {
        var flatValues := Flatmap.Flatten(value);
        PutBulk(p, flatValues);
        if Flatmap.ProperNames(value) {
          Flatmap.FlatCleaned(value, flatValues);
        }
      }
    }

    ghost method RecordOne(op: Machine.Op)
      requires Whole() && State() == Machine.Apply(Machine.Run(Machine.INIT, ops), op)
      modifies this`ops
      ensures Valid() && ops == old(ops) + [op] && State() == old(State())
    {
      hide Shape, Synced, Machine.Run, Machine.Apply;
      Machine.RunOneMore(Machine.INIT, ops, op);
      ops := ops + [op];
    }

    /** `PutBulk`. */
    method PutBulk(p: Path, values: map<string, string>)
      requires Valid()
      modifies this, known, live
      ensures Valid()
      ensures exists order ::
                && Machine.Orders(order, values.Keys) && ops == old(ops) + Machine.Puts(p, values, order)
                && log == old(log) + WritingAll(old(State()), p, values, order)
      ensures Helpers.Separate(values) ==>
                State() == Machine.Apply(old(State()), Machine.PutBulk(p, Helpers.Cleaned(values)))
      ensures root == old(root) && live == old(live) && Extends(old(log), log)
      ensures old(known) <= known && fresh(known - old(known))
    {
      hide Shape, Synced, Extends, Helpers.Separate, Rooted;
      hide Machine.Apply, Machine.Run, Machine.Puts, WritingAll;
      TreeRooted();
      ghost var s0, log0 := State(), log;
      ghost var order := InternalPutBulk(p, values);
      if Helpers.Separate(values) {
        Machine.PutsBulk(s0, p, values, order);
      }
      Added(log0, WritingAll(s0, p, values, order));
      Record(Machine.Puts(p, values, order));
    }

    /** `Delete`. The DELETE of a leaf carries its value, or nothing if it stays behind because it is
        watched. */
    method Delete(p: Path)
      requires Valid()
      modifies this, known, live
      ensures Valid() && ops == old(ops) + [Machine.Delete(p)]
      ensures State() == Machine.Apply(old(State()), Machine.Delete(p))
      ensures forall i :: |old(log)| <= i < |log| ==> log[i].path in old(tree)
      ensures forall i :: |old(log)| <= i < |log| && log[i].action == Action.Delete ==>
                var cell := old(tree)[log[i].path];
                p <= log[i].path && !cell.dir && log[i].value == if cell.watched then "" else cell.value
      ensures forall i :: |old(log)| <= i < |log| && log[i].action == Update ==>
                var cell := old(tree)[log[i].path];
                log[i].path < p && cell.dir && log[i].value == cell.value != ""
      ensures root == old(root) && live == old(live) && known == old(known) && Extends(old(log), log)
      ensures Account(old(tree), tree, log[|old(log)|..])
    {
      hide Shape, Synced, Machine.Run, Account, Play, Visible, Rooted, Trees.Remove;
      InSync();
      ghost var t0, log0 := tree, log;
      InternalDelete(p);
      InSync();
      if p in t0 {
        RemovalAccount(t0, p, log0, log);
      } else {
        NoChange(t0, log0);
      }
      RecordOne(Machine.Delete(p));
    }

    method InternalDelete(p: Path)
      requires Whole()
      modifies this, known, live
      ensures Whole() && State() == Machine.Apply(old(State()), Machine.Delete(p))
      ensures root == old(root) && live == old(live) && known == old(known) && ops == old(ops)
      ensures p in old(tree) ==> Removes(old(tree), p, old(log), log)
      ensures p !in old(tree) ==> log == old(log)
    {
      hide Shape, NodesLinked, Shows, WatchersLinked, Routed, Fixed, Grown;
      hide Closed, Visible, Play, Extends, Node.Linked, Trees.Remove, Trees.Clean, Reach, PutAt, Trees.Bulk, Rooted;
      Same(log, nodes);
      var n := InternalGet(p);
      if n == null {
        return;
      }
      version := version + 1;
      ghost var f := Fixed();
      RestOf(f);
      var _ := n.Remove();
      RestOf(f);
    }

    /** `Get`: the version and the value at `p`; an empty directory other than the root counts as
        absent. */
    method Get(p: Path) returns (currentVersion: nat, val: Option<Val>)
      requires Valid()
      ensures currentVersion == version
      ensures val == None || Pruned(val.value)
      ensures forall q :: (if val == None then None else Lookup(val.value, q)) == Find(Visible(tree), p + q)
      ensures Refinement.Keeping(ops) && Visibility.Unhidden(State(), Refinement.FlatRun(ops)) ==>
                forall q :: (if val == None then None else Lookup(val.value, q)) ==
                  Find(Refinement.Maximal(Refinement.FlatRun(ops)), p + q)
      ensures val == None ==> p != []
      ensures val == Some(Dir(map[])) ==> p == []
    {
      hide Shape, NodesLinked, Shows, WatchersLinked, Routed, Fixed, Grown;
      hide Closed, Visible, Play, Extends, Node.Linked, Pruned, Synced;
      hide Visibility.Unhidden, Refinement.FlatRun, Refinement.Maximal, Refinement.Keeping, Machine.Run;
      if Refinement.Keeping(ops) {
        Visibility.RunReads(ops);
      }
      currentVersion, val := version, None;
      RootAt();
      var n := InternalGet(p);
      if n != null {
        Local(n);
        var v := n.GetValue();
        if v == Dir(map[]) && n.parent != null {
          return;
        }
        val := Some(v);
      } else {
        NothingThere(p);
      }
    }

    /** `Watch`: the path is made as empty directories where it does not exist. */
    method Watch(p: Path) returns (w: Watcher)
      requires Valid()
      modifies this, known, live
      ensures Valid() && ops == old(ops) + [Machine.Watch(p)]
      ensures State() == Machine.Apply(old(State()), Machine.Watch(p))
      ensures fresh(w) && w in live && live == old(live) + {w} && w.node.path == p && w.node.store == this
      ensures w.start == |log| && w.eventChan == []
      ensures log == old(log) + Opening(old(tree), p) && Account(old(tree), tree, log[|old(log)|..])
      ensures root == old(root) && Extends(old(log), log)
      ensures old(known) <= known && fresh(known - old(known))
    {
      hide Shape, Synced, Extends, Machine.Run, Account, Play, Visible, Rooted, Opening, WatchAt;
      InSync();
      ghost var t0, log0 := tree, log;
      w := InternalWatch(p);
      Added(log0, Opening(t0, p));
      InSync();
      WatchAccount(t0, p, log0);
      RecordOne(Machine.Watch(p));
    }

    method InternalWatch(p: Path) returns (w: Watcher)
      requires Whole()
      modifies this, known, live
      ensures Whole() && State() == Machine.Apply(old(State()), Machine.Watch(p)) && ops == old(ops)
      ensures fresh(w) && w in live && live == old(live) + {w} && w.node.path == p && w.node.store == this
      ensures w.start == |log| && w.eventChan == []
      ensures root == old(root) && log == old(log) + Opening(old(tree), p)
      ensures old(known) <= known && fresh(known - old(known))
    {
      hide Shape, NodesLinked, Shows, WatchersLinked, Routed, Fixed, Grown;
      hide Closed, Visible, Play, Extends, Node.Linked, Trees.Remove, Trees.Clean, Reach, PutAt, Trees.Bulk, Rooted;
      hide WatchAt, Opening, Stepping;
      RootAt();
      TreeRooted();
      ghost var t0 := tree;
      OpeningNone(t0);
      var n: Node?;
      if p == [] {
        ReachRoot(t0);
        n := root;
      } else {
        ReachNext(t0, Parent(p), Last(p));
        assert p == Parent(p) + [Last(p)];
        OpeningStep(t0, Parent(p), Last(p));
        var d := WalkDirs(Parent(p));
        n := CheckDir(d, Last(p));
      }
      AtIn(n);
      Watched(t0, p);
      w := n.Watch();
    }

    /** `store.Clean`: the path is put on the clean channel, or dropped if that is full. */
    method Clean(nodePath: Path)
      modifies this`cleanChan, this`lost
      ensures State() == Machine.Enqueue(old(State()), nodePath)
      ensures |old(cleanChan)| < 100 ==> cleanChan == old(cleanChan) + [nodePath] && lost == old(lost)
      ensures |old(cleanChan)| >= 100 ==> cleanChan == old(cleanChan) && lost == old(lost) + {nodePath}
    {
      if |cleanChan| < Machine.CLEAN_BUFFER {
        cleanChan := cleanChan + [nodePath];
      } else {
        lost := lost + {nodePath};
      }
    }

    /** One round of the background cleaner. */
    method CleanStep()
      requires Valid() && cleanChan != []
      modifies this, known, live
      ensures Valid() && ops == old(ops) + [Machine.CleanStep]
      ensures State() == Machine.Apply(old(State()), Machine.CleanStep)
      ensures cleanChan == old(cleanChan)[1..] && tree == Trees.Clean(old(tree), old(cleanChan)[0])
      ensures root == old(root) && live == old(live) && known == old(known) && Extends(old(log), log)
      ensures Account(old(tree), tree, log[|old(log)|..])
    {
      hide Shape, Synced, Machine.Run, Account, Play, Visible, Rooted, Trees.Clean, Rises;
      InSync();
      ghost var t0, log0, h := tree, log, cleanChan[0];
      CleanNext();
      InSync();
      if h in t0 {
        CleaningAccount(t0, h, log0, log);
      } else {
        CleanAbsent(t0, h);
        NoChange(t0, log0);
      }
      RecordOne(Machine.CleanStep);
    }

    method CleanNext()
      requires Whole() && cleanChan != []
      modifies this, known, live
      ensures Whole() && State() == Machine.Apply(old(State()), Machine.CleanStep)
      ensures root == old(root) && live == old(live) && known == old(known) && ops == old(ops)
      ensures old(cleanChan)[0] in old(tree) ==> Cleans(old(tree), old(cleanChan)[0], old(log), log)
      ensures old(cleanChan)[0] !in old(tree) ==> log == old(log)
    {
      hide Shape, NodesLinked, Shows, WatchersLinked, Routed, Fixed, Grown;
      hide Closed, Visible, Play, Extends, Node.Linked, Trees.Remove, Trees.Clean, Reach, PutAt, Trees.Bulk, Rooted;
      Same(log, nodes);
      var nodePath := cleanChan[0];
      CleanAbsent(tree, nodePath);
      cleanChan := cleanChan[1..];
      var n := InternalGet(nodePath);
      if n != null {
        ghost var f := Fixed();
        RestOf(f);
        var _ := n.Clean();
        RestOf(f);
      }
    }

    /** What the log and a watcher's channel have to do with each other and with the tree. */
    lemma Told(w: Watcher)
      requires Valid() && w in live
      ensures w.start <= |log| && w.eventChan == Route(log[w.start..], w.node.path)
    {
      hide Route, Machine.Run;
    }

    lemma Leaves()
      requires Valid()
      ensures Play(map[], log) == Some(Visible(tree)) && Rooted(tree)
    {
      hide Shape, Play, Visible, Rooted, Machine.Run;
      InSync();
    }

    /** No visible leaf lies below another. */
    lemma LeavesApart()
      requires Valid()
      ensures PrefixFree(Visible(tree))
    {
      hide Visible, PrefixFree, Shape, Synced, Machine.Run;
      TreeClosed();
      VisiblePrefixFree(tree);
    }

    /** The log accounts for what is visible. */
    lemma InSync()
      requires Whole()
      ensures Play(map[], log) == Some(Visible(tree)) && Rooted(tree)
    {
      hide Shape, Play, Visible, Rooted;
      TreeRooted();
    }

    /** The state is what the operations carried out so far lead to. */
    lemma History()
      requires Valid()
      ensures State() == Machine.Run(Machine.INIT, ops)
    {
      hide Shape, Synced, Machine.Run;
    }

    // ---- What one change of a field keeps ----------------------------------------------------

    /** What the shape says of one attached node. */
    lemma Local(n: Node)
      requires Shape() && InPlace(nodes, n)
      ensures n in known && n.store == this && n.Linked()
      ensures tree.Keys == nodes.Keys && tree[n.path] == Cell(n.isDir, n.value, n.watchers != [])
      ensures n.path == [] ==> n.isDir && n.value == ""
      ensures !n.isDir ==> n.children == map[]
      ensures n.path == [] <==> n.parent == null
      ensures n.parent != null ==>
                && n.parent.path == Parent(n.path) && n.parent.path != n.path && n.parent.store == this
                && InPlace(nodes, n.parent) && n.parent in known
                && n.name in n.parent.children && n.parent.children[n.name] == n
    {
    }

    /** The subtree of a child is strictly inside the one of its parent. */
    lemma ChildBelow(n: Node, c: string)
      requires Shape() && InPlace(nodes, n) && c in n.children
      ensures InPlace(nodes, n.children[c]) && n.children[c].store == this && n.children[c].path == n.path + [c]
      ensures Weight(tree, n.path + [c]) < Weight(tree, n.path)
    {
      Kids(n);
      Local(n.children[c]);
      assert n.path in nodes;
      assert n.path in Below(tree, n.path) && n.path !in Below(tree, n.path + [c]);
      Fewer(Below(tree, n.path + [c]) + {n.path}, Below(tree, n.path));
    }

    lemma DirValue(n: Node, values: map<string, Val>)
      requires Shape() && InPlace(nodes, n) && n.isDir && values.Keys <= n.children.Keys
      requires forall c :: c in n.children ==> EntryOf(values, c, Visible(tree), n.path)
      ensures Pruned(Dir(values))
      ensures forall q :: Lookup(Dir(values), q) == Find(Visible(tree), n.path + q)
    {
      hide Lookup, Visible, EntryOf;
      Local(n);
      Kids(n);
      TreeClosed();
      VisibleLeaves(tree);
      forall q
        ensures Lookup(Dir(values), q) == Find(Visible(tree), n.path + q)
      {
        DirAnswers(tree, Visible(tree), n.path, values, q);
      }
      AllPruned(Visible(tree), n.path, values);
    }

    lemma LeafValue(n: Node)
      requires Shape() && InPlace(nodes, n) && !n.isDir
      ensures forall q :: Lookup(Leaf(n.value), q) == Find(Visible(tree), n.path + q)
    {
      Local(n);
      Kids(n);
      forall q
        ensures Lookup(Leaf(n.value), q) == Find(Visible(tree), n.path + q)
      {
        assert n.path + [] == n.path;
        assert q != [] ==> n.path < n.path + q;
      }
    }

    lemma LiveAt(w: Watcher)
      requires Shape() && w in live
      ensures InPlace(nodes, w.node) && w.node.store == this && w.node.Linked() && w.node in known
      ensures !w.closed && !w.removed && w in w.node.watchers && NoRepeats(w.node.watchers)
      ensures forall x :: x in live && x.node == w.node <==> x in w.node.watchers
      ensures w.node.path in tree && tree[w.node.path].watched
    {
    }

    /** A store that was only given clean paths shows only clean paths. */
    lemma PathsProper()
      requires Valid() && Machine.ProperOps(ops)
      ensures forall q :: q in Visible(tree) ==> Helpers.Proper(q)
    {
      hide Helpers.Proper, Machine.Run, Machine.ProperOps, Whole;
      Machine.RunProper(ops);
    }

    lemma Begun()
      requires root != null && root.path == [] && root.parent == null && root.store == this && root.Linked()
      requires root.isDir && root.value == "" && root.children == map[] && root.watchers == []
      requires nodes == map[[] := root] && tree == EMPTY && known == {root} && live == {} && log == []
      ensures Shape() && Synced()
    {
    }

    lemma RootAt()
      requires Shape()
      ensures root != null && InPlace(nodes, root) && root.store == this && root.path == []
    {
    }

    lemma AtIn(n: Node)
      requires Shape() && InPlace(nodes, n)
      ensures n.path in tree && n in known
    {
    }

    lemma TreeRooted()
      requires Shape()
      ensures Rooted(tree)
    {
      TreeClosed();
    }

    lemma NothingThere(p: Path)
      requires Shape() && p !in tree
      ensures p != [] && forall q :: Find(Visible(tree), p + q) == None
    {
      TreeClosed();
      RootAt();
      forall q
        ensures p + q !in tree
      {
        assert q != [] ==> p < p + q;
        assert p + [] == p;
      }
    }

    lemma RestOf(f: Kept)
      requires f == Fixed()
      ensures Rest() == (f.root, f.version, f.cleanChan, f.lost, f.live, f.ops) && f.known == known
    {
    }

    lemma GrownRest(f: Kept, n: Node)
      requires Grown(f, n)
      ensures Rest() == (f.root, f.version, f.cleanChan, f.lost, f.live, f.ops) && known == f.known + {n}
    {
    }

    /** What writing a node other than the root shows and reports. */
    lemma WriteStep(n: Node, v: string)
      requires Shape() && Synced() && InPlace(nodes, n) && n.path != []
      ensures n.isDir ==> Visible(tree[n.path := tree[n.path].(value := v)]) == Visible(tree)
      ensures !n.isDir && n.value == v ==> tree[n.path := tree[n.path].(value := v)] == tree
      ensures (n.isDir && n.children == map[]) || (!n.isDir && n.value != v) ==>
                Play(map[], log + [Event(Update, n.path, v)])
                == Some(Visible(tree[n.path := Cell(false, v, n.watchers != [])]))
    {
      Local(n);
      Kids(n);
      TreeClosed();
      if n.isDir {
        HiddenValue(tree, n.path, v);
      }
      if n.children == map[] {
        if !(!n.isDir && n.value == v) {
          LeafShown(log, tree, Event(Update, n.path, v), n.watchers != []);
        }
      }
    }

    lemma DirAdded(log0: seq<Event>, t: Tree, p: Path, q: Path)
      requires Play(map[], log0) == Some(Visible(t)) && p in t && q !in t
      requires tree == t[p := t[p].(dir := true)][q := Cell(true, "", false)]
      requires log == if t[p].dir then log0 else log0 + [Event(Action.Delete, p, t[p].value)]
      ensures Synced() && Extends(log0, log)
    {
      if t[p].dir {
        assert t[p := t[p].(dir := true)] == t;
      } else {
        LeafGone(log0, t, Event(Action.Delete, p, t[p].value), Some(t[p].(dir := true)));
      }
      assert Visible(tree) == Visible(t[p := t[p].(dir := true)]);
    }

    lemma LeafAdded(log0: seq<Event>, log1: seq<Event>, t: Tree, p: Path, q: Path, v: string)
      requires Shape() && Play(map[], log0) == Some(Visible(t)) && p in t && q !in t
      requires tree == t[p := t[p].(dir := true)][q := Cell(false, v, false)]
      requires log1 == if t[p].dir then log0 else log0 + [Event(Action.Delete, p, t[p].value)]
      requires log == log1 + [Event(Update, q, v)]
      ensures Synced() && Extends(log0, log)
    {
      if t[p].dir {
        assert t[p := t[p].(dir := true)] == t;
      } else {
        LeafGone(log0, t, Event(Action.Delete, p, t[p].value), Some(t[p].(dir := true)));
      }
      TreeClosed();
      LeafShown(log1, t[p := t[p].(dir := true)], Event(Update, q, v), false);
    }

    /** What removing a node without children amounts to. */
    lemma BareRemoval(n: Node)
      requires Shape() && InPlace(nodes, n) && n.children == map[]
      ensures n.watchers != [] || n.parent == null ==>
                Trees.Remove(tree, n.path) == tree[n.path := Cell(true, "", n.watchers != [])]
      ensures n.watchers == [] && n.parent != null ==>
                Trees.Remove(tree, n.path) == Trees.Clean(tree - {n.path}, n.parent.path)
    {
      Local(n);
      Kids(n);
      TreeClosed();
      RemoveBare(tree, n.path);
    }

    /** What removing a directory amounts to: its children emptied and, when nothing is left to
        hold it, the directory itself gone and its parent cleaned. */
    lemma RemovalPlan(n: Node)
      requires Shape() && InPlace(nodes, n) && n.isDir
      ensures var p := n.path;
              var e := EmptyKids(tree[p := tree[p].(value := "")], p, n.children.Keys);
              Trees.Remove(tree, p) ==
                if HasBelow(e, p) || n.watchers != [] || n.parent == null then e
                else Trees.Clean(e - {p}, n.parent.path)
    {
      Local(n);
      Kids(n);
      TreeClosed();
      var p := n.path;
      var t1 := tree[p := tree[p].(value := "")];
      RemoveIgnoresTop(tree, p, t1[p]);
      EmptyKidsAll(t1, p, n.children.Keys);
    }

    lemma KidsBelow(n: Node)
      requires Shape() && InPlace(nodes, n)
      ensures n.children != map[] ==> HasBelow(tree, n.path)
      ensures n.children == map[] ==> !HasBelow(tree, n.path)
    {
      Kids(n);
    }

    /** One round of the removal loop: the child is in place, its subtree is smaller, and its
        removal leads to the next stage or, the last child gone, to the end of it all. */
    lemma KidStep(n: Node, t: Tree, seen: set<string>, c: string)
      requires Shape() && InPlace(nodes, n) && c in n.children && c !in seen
      requires tree == EmptyKids(t, n.path, seen) && n.path in t && t[n.path] == Cell(true, "", n.watchers != [])
      ensures InPlace(nodes, n.children[c]) && n.children[c].store == this && n.children[c].path == n.path + [c]
      ensures Weight(tree, n.path + [c]) < Weight(t, n.path)
      ensures var e := EmptyKids(t, n.path, seen + {c});
              var r := Trees.Remove(tree, n.path + [c]);
              if HasBelow(e, n.path) || n.watchers != [] || n.path == [] then r == e && n.path in r
              else r == Trees.Remove(t, n.path) && n.path !in r
    {
      hide NodesLinked, Shows, WatchersLinked, Routed, EmptyKids, HasBelow, Weight, Trees.Remove, Trees.Clean;
      Kids(n);
      Local(n.children[c]);
      EmptyKidsTop(t, n.path, seen + {c});
      KidRemoved(t, n.path, seen, c);
      KidLighter(t, n.path, seen, c);
    }

    lemma LoopStarts(n: Node, t0: Tree)
      requires Shape() && InPlace(nodes, n) && n.isDir && n.path in t0
      requires tree == t0[n.path := t0[n.path].(value := "")]
      ensures n.Stage(t0, tree, {})
      ensures tree[n.path] == Cell(true, "", n.watchers != []) && Weight(tree, n.path) == Weight(t0, n.path)
      ensures Trees.Remove(tree, n.path) == Trees.Remove(t0, n.path)
      ensures Listed(tree, n.path, n.children.Keys)
      ensures n in known && (n.parent != null ==> n.parent in known)
    {
      Local(n);
      Kids(n);
      RemoveIgnoresTop(t0, n.path, tree[n.path]);
      EmptyKidsNone(tree, n.path);
    }

    /** A child the removal loop has not come to is still there. */
    lemma StillThere(n: Node, t: Tree, seen: set<string>, c: string)
      requires Shape() && InPlace(nodes, n) && tree == EmptyKids(t, n.path, seen)
      requires c !in seen && n.path + [c] in t
      ensures c in n.children
    {
      Kids(n);
    }

    /** What cleaning a node amounts to. */
    lemma CleanPlan(n: Node)
      requires Shape() && Synced() && InPlace(nodes, n)
      ensures var bare := n.isDir && n.children == map[];
              Trees.Clean(tree, n.path) ==
                if bare && n.value != "" then tree[n.path := tree[n.path].(dir := false)]
                else if bare && n.watchers == [] then Trees.Remove(tree, n.path)
                else tree
      ensures n.isDir && n.children == map[] && n.value != "" ==>
                && n.path != []
                && Play(map[], log + [Event(Update, n.path, n.value)])
                   == Some(Visible(tree[n.path := tree[n.path].(dir := false)]))
    {
      Local(n);
      Kids(n);
      TreeClosed();
      if n.isDir && n.children == map[] {
        RemoveBare(tree, n.path);
        if n.value != "" {
          LeafBack(log, tree, n.path);
        }
      }
    }

    /** A node is where its path says, or it is out of the tree, has no children, and its parent
        does not list it. */
    lemma Stays(n: Node, nodes0: map<Path, Node>)
      requires Shape() && n in known && (n.parent != null ==> n.parent in known)
      requires Within(nodes, nodes0) && InPlace(nodes0, n)
      ensures n.path in tree ==> InPlace(nodes, n)
      ensures n.path !in tree ==> n.children == map[]
      ensures |nodes| <= |nodes0| && tree.Keys == nodes.Keys && (tree.Keys <= nodes0.Keys)
      ensures n.parent != null ==>
                (n.name in n.parent.children && n.parent.children[n.name] == n <==> n.path in tree)
    {
      assert nodes.Keys <= nodes0.Keys;
      Fewer(nodes.Keys, nodes0.Keys);
      if n.path in nodes {
        Local(n);
      } else if n.parent != null && InPlace(nodes, n.parent) && n.name in n.parent.children {
        assert InPlace(nodes, nodes[n.parent.path].children[n.name]);
      }
    }

    /** The children map names exactly the nodes one component further down. */
    lemma Kids(n: Node)
      requires Shape() && InPlace(nodes, n)
      ensures forall c :: c in n.children <==> n.path + [c] in tree
      ensures forall c :: c in n.children ==> InPlace(nodes, n.children[c]) && n.children[c].path == n.path + [c]
      ensures HasBelow(tree, n.path) <==> n.children != map[]
    {
      forall c | c in n.children
        ensures InPlace(nodes, n.children[c]) && n.children[c].path == n.path + [c]
      {
        var k := nodes[n.path].children[c];
        assert nodes[k.path].Linked();
      }
      forall c | n.path + [c] in tree
        ensures c in n.children
      {
        var k := nodes[n.path + [c]];
        assert nodes[n.path + [c]].Linked() && k.parent != null;
        SameChild(n.path, c, k.parent.path, k.name);
      }
      TreeClosed();
      if HasBelow(tree, n.path) {
        var q :| q in tree && n.path < q;
        ChildOnTheWay(tree, n.path, q);
        assert q[|n.path|] in n.children;
      }
      if n.children != map[] {
        var c :| c in n.children;
        assert n.path < n.path + [c];
      }
    }

    twostate lemma LinksSame()
      requires old(NodesLinked())
      requires unchanged(`nodes, `root, `known) && unchanged(known`children)
      ensures NodesLinked()
    {
    }

    twostate lemma WatchersSame()
      requires old(WatchersLinked()) && old(Routed()) && old(OpenBut({}))
      requires unchanged(`nodes, `known, `live, `log) && unchanged(known`watchers, live)
      ensures WatchersLinked() && Routed() && OpenBut({})
    {
    }

    twostate lemma ValueSet(n: Node)
      requires old(Shape()) && InPlace(nodes, n) && (n.path != [] || n.value == "")
      requires unchanged(`nodes, `root, `known, `live, `log)
      requires tree == old(tree)[n.path := old(tree)[n.path].(value := n.value)]
      requires unchanged(known`isDir, known`children, known`watchers, live)
      requires unchanged((known - {n})`value)
      ensures Shape()
    {
      hide NodesLinked, WatchersLinked, Routed;
      LinksSame();
      WatchersSame();
    }

    twostate lemma KindSet(n: Node)
      requires old(Shape()) && InPlace(nodes, n)
      requires unchanged(`nodes, `root, `known, `live, `log)
      requires tree == old(tree)[n.path := old(tree)[n.path].(dir := n.isDir)]
      requires n.isDir || (n.path != [] && n.children == map[])
      requires unchanged(known`value, known`children, known`watchers, live)
      requires unchanged((known - {n})`isDir)
      ensures Shape()
    {
      hide NodesLinked, WatchersLinked, Routed;
      LinksSame();
      WatchersSame();
    }

    twostate lemma ChildLinked(n: Node, new child: Node)
      requires old(Shape()) && InPlace(old(nodes), n) && child.parent == n && n.isDir
      requires child.store == this && child.Linked() && child.path !in old(nodes) && child !in old(known)
      requires child.children == map[] && child.watchers == []
      requires unchanged(`root, `live, `log)
      requires nodes == old(nodes)[child.path := child] && known == old(known) + {child}
      requires tree == old(tree)[child.path := Cell(child.isDir, child.value, false)]
      requires unchanged(old(known)`value, old(known)`isDir, old(known)`watchers, live)
      requires unchanged((old(known) - {n})`children)
      requires n.children == old(n.children)[child.name := child]
      ensures Shape()
    {
      ChildLinkedNodes(n, child);
      ChildLinkedShows(n, child);
      ChildLinkedWatchers(child);
      hide Store.NodesLinked, Store.Shows, Store.WatchersLinked;
    }

    twostate lemma ChildLinkedWatchers(new child: Node)
      requires old(WatchersLinked()) && child.path !in old(nodes) && child !in old(known) && child.watchers == []
      requires unchanged(`live)
      requires nodes == old(nodes)[child.path := child] && known == old(known) + {child}
      requires unchanged(old(known)`watchers, live)
      ensures WatchersLinked()
    {
      assert forall p :: p in nodes && p != child.path ==> nodes[p] == old(nodes)[p] && nodes[p] in old(known);
    }

    twostate lemma ChildLinkedShows(n: Node, new child: Node)
      requires old(Shows()) && InPlace(old(nodes), n) && child.parent == n && n.isDir
      requires child.Linked() && child.path !in old(nodes) && child.children == map[] && child.watchers == []
      requires nodes == old(nodes)[child.path := child] && known == old(known) + {child}
      requires tree == old(tree)[child.path := Cell(child.isDir, child.value, false)]
      requires unchanged(old(known)`value, old(known)`isDir, old(known)`watchers)
      requires unchanged((old(known) - {n})`children)
      ensures Shows()
    {
      assert forall p :: p in nodes && p != child.path ==> nodes[p] == old(nodes)[p] && nodes[p] in old(known);
    }

    twostate lemma ChildLinkedNodes(n: Node, new child: Node)
      requires old(NodesLinked()) && InPlace(old(nodes), n) && child.parent == n
      requires child.store == this && child.Linked() && child.path !in old(nodes) && child !in old(known)
      requires child.children == map[]
      requires unchanged(`root)
      requires nodes == old(nodes)[child.path := child] && known == old(known) + {child}
      requires unchanged((old(known) - {n})`children)
      requires n.children == old(n.children)[child.name := child]
      ensures NodesLinked()
    {
      assert child.path == n.path + [child.name];
      assert forall m :: InPlace(nodes, m) <==> m == child || InPlace(old(nodes), m);
      forall p | p in nodes && p != []
        ensures nodes[p].parent != null && InPlace(nodes, nodes[p].parent)
        ensures nodes[p].name in nodes[p].parent.children && nodes[p].parent.children[nodes[p].name] == nodes[p]
      {
        assert nodes[p].Linked();
      }
      forall p, c | p in nodes && c in nodes[p].children
        ensures InPlace(nodes, nodes[p].children[c])
        ensures nodes[p].children[c].parent == nodes[p] && nodes[p].children[c].name == c
      {
        assert p != child.path && nodes[p] == old(nodes)[p];
      }
    }

    twostate lemma ChildUnlinked(child: Node)
      requires old(Shape()) && child.parent != null && InPlace(old(nodes), child)
      requires child.children == map[] && child.watchers == []
      requires unchanged(`root, `live, `log, `known)
      requires nodes == old(nodes) - {child.path} && tree == old(tree) - {child.path}
      requires unchanged(known`value, known`isDir, known`watchers, live)
      requires unchanged((known - {child.parent})`children)
      requires child.parent.children == old(child.parent.children) - {child.name}
      ensures Shape()
    {
      hide NodesLinked, Routed;
      ChildUnlinkedNodes(child);
    }

    twostate lemma ChildUnlinkedNodes(child: Node)
      requires old(NodesLinked()) && child.parent != null && InPlace(old(nodes), child)
      requires child.children == map[]
      requires unchanged(`root, `known)
      requires nodes == old(nodes) - {child.path}
      requires unchanged((known - {child.parent})`children)
      requires child.parent.children == old(child.parent.children) - {child.name}
      ensures NodesLinked()
    {
      assert old(nodes)[child.path].Linked() && child != child.parent;
      assert child.children == old(child.children);
      forall p | p in nodes && p != []
        ensures nodes[p].parent != null && InPlace(nodes, nodes[p].parent)
        ensures nodes[p].name in nodes[p].parent.children && nodes[p].parent.children[nodes[p].name] == nodes[p]
      {
        assert nodes[p] == old(nodes)[p];
        assert old(nodes)[p].parent != child;
        assert nodes[p].parent == child.parent ==> nodes[p].name != child.name;
      }
    }

    twostate lemma WatcherAdded(n: Node, new w: Watcher)
      requires old(Shape()) && InPlace(nodes, n) && n in known && w.node == n && w.start == |log| && w.eventChan == []
      requires !w.closed && !w.removed && w !in old(live)
      requires unchanged(`nodes, `root, `known, `log)
      requires live == old(live) + {w} && n.watchers == old(n.watchers) + [w]
      requires tree == old(tree)[n.path := old(tree)[n.path].(watched := true)]
      requires unchanged(known`isDir, known`children, known`value, old(live))
      requires unchanged((known - {n})`watchers)
      ensures Shape()
    {
      hide Store.Shows, Store.NodesLinked, Store.WatchersLinked, Store.Routed;
      ListChangedShows(n);
      ListChangedNodes(n);
      WatcherAddedList(n, w);
      WatcherAddedRoute(w);
    }

    twostate lemma WatcherAddedList(n: Node, new w: Watcher)
      requires old(WatchersLinked()) && InPlace(nodes, n) && n in known && w.node == n
      requires !w.closed && !w.removed && w !in old(live)
      requires unchanged(`nodes, `known)
      requires live == old(live) + {w} && n.watchers == old(n.watchers) + [w]
      requires unchanged(old(live), (known - {n})`watchers)
      ensures WatchersLinked()
    {
      assert forall x :: x in n.watchers <==> x in old(n.watchers) || x == w;
      assert w !in old(n.watchers);
      assert NoRepeats(n.watchers);
    }

    twostate lemma WatcherAddedRoute(new w: Watcher)
      requires old(Routed()) && w.start == |log| && w.eventChan == []
      requires unchanged(`log)
      requires live == old(live) + {w}
      requires unchanged(old(live))
      ensures Routed()
    {
      assert log[w.start..] == [];
    }

    twostate lemma ListChangedShows(n: Node)
      requires old(Shows()) && old(NodesLinked()) && InPlace(nodes, n)
      requires unchanged(`nodes, `root, `known)
      requires tree == old(tree)[n.path := old(tree)[n.path].(watched := n.watchers != [])]
      requires unchanged(known`isDir, known`children, known`value, (known - {n})`watchers)
      ensures Shows()
    {
    }

    twostate lemma ListChangedNodes(n: Node)
      requires old(NodesLinked())
      requires unchanged(`nodes, `root, `known)
      requires unchanged(known`children)
      ensures NodesLinked()
    {
      hide Store.NodesLinked;
    }

    twostate lemma WatcherGone(p: Path, new w: Watcher)
      requires old(NodesLinked()) && old(Shows()) && old(WatchersLinked()) && old(Routed())
      requires forall x :: x in old(live) && x != w ==> !old(x.closed)
      requires p in nodes && w.node == nodes[p] && w in old(live)
      requires unchanged(`nodes, `root, `known, `log)
      requires live == old(live) - {w} && NoRepeats(nodes[p].watchers)
      requires forall x :: x in nodes[p].watchers ==> x in old(nodes[p].watchers) && x != w
      requires forall x :: x in old(nodes[p].watchers) && x != w ==> x in nodes[p].watchers
      requires tree == old(tree)[p := old(tree)[p].(watched := nodes[p].watchers != [])]
      requires unchanged(known`isDir, known`children, known`value)
      requires unchanged(live, (known - {nodes[p]})`watchers)
      ensures Shape()
    {
      hide Store.Shows, Store.NodesLinked;
      PathAt(p);
      ListChangedShows(nodes[p]);
      ListChangedNodes(nodes[p]);
    }

    twostate lemma PathAt(p: Path)
      requires old(NodesLinked()) && p in nodes && unchanged(`nodes, `known)
      ensures nodes[p].path == p && nodes[p] in known && p in old(nodes)
    {
    }

    /** In a linked tree the ancestors of an attached node are the nodes at its path's prefixes. */
    lemma ChainOf(n: Node)
      requires NodesLinked() && InPlace(nodes, n) && n.Linked()
      ensures forall a :: a in n.chain ==> InPlace(nodes, a) && a.path <= n.path
      ensures forall q :: q <= n.path ==> q in nodes && nodes[q] in n.chain
      decreases |n.path|
    {
      var p := n.path;
      assert nodes[p].parent == n.parent;
      if p != [] {
        ChainOf(n.parent);
        forall q | q <= p
          ensures q in nodes && nodes[q] in n.chain
        {
          PrefixOfChild(q, n.parent.path, n.name);
        }
      }
    }

    lemma AudienceOf(n: Node)
      requires NodesLinked() && WatchersLinked() && OpenBut({}) && CanSend(n)
      ensures n.ListsOk() && n.Audience() <= live
      ensures forall w :: w in live ==> (w in n.Audience() <==> w.node.path <= n.path)
    {
      if InPlace(nodes, n) {
        ChainOf(n);
      } else {
        ChainOf(n.parent);
        forall w | w in live
          ensures w in n.Audience() <==> w.node.path <= n.path
        {
          PrefixOfChild(w.node.path, n.parent.path, n.name);
        }
      }
    }

    lemma TreeClosed()
      requires Shape()
      ensures Closed(tree)
    {
      hide NodesLinked, WatchersLinked, Routed;
      forall p, q | q in tree && p < q
        ensures p in tree && tree[p].dir
      {
        DirAbove(p, q);
      }
    }

    /** The strict ancestors of an attached node are directories. */
    lemma DirAbove(p: Path, q: Path)
      requires NodesLinked() && Shows() && q in nodes && p < q
      ensures p in nodes && nodes[p].isDir
    {
      assert nodes[q].Linked();
      ChainOf(nodes[q]);
      var r := q[..|p| + 1];
      assert r <= q && p == Parent(r) && r != [];
      LinkUp(r);
    }

    lemma LinkUp(r: Path)
      requires NodesLinked() && Shows() && r in nodes && r != []
      ensures Parent(r) in nodes && nodes[Parent(r)].isDir
    {
      assert nodes[r].Linked() && nodes[r].path == r;
      var n := nodes[r].parent;
      assert InPlace(nodes, n) && n.path == Parent(r);
      assert n.children != map[];
    }

    /** What removing nodes leaves alone. */
    ghost function Fixed(): Kept
      reads this`root, this`version, this`cleanChan, this`lost, this`ops, this`known, this`live
      reads known`watchers, live`closed, live`removed
    {
      Kept(root, version, cleanChan, lost, ops, known, live, map n | n in known :: n.watchers,
           map w | w in live :: (w.closed, w.removed))
    }

    /** Nothing but the new node was added to what removals leave alone. */
    ghost predicate Grown(f: Kept, n: Node)
      reads this`root, this`version, this`cleanChan, this`lost, this`ops, this`known, this`live
      reads known`watchers, live`closed, live`removed
    {
      Fixed() == f.(known := f.known + {n}, lists := f.lists[n := []])
    }

    twostate lemma GrownBy(new n: Node)
      requires unchanged(`root, `version, `cleanChan, `lost, `ops, `live)
      requires unchanged(live`closed, live`removed)
      requires forall m: Node :: m in old(known) ==> m.watchers == old(m.watchers)
      requires n !in old(known) && known == old(known) + {n} && n.watchers == []
      ensures Grown(old(Fixed()), n)
    {
    }

    lemma ListKept(n: Node)
      requires n in known
      ensures n in Fixed().lists && Fixed().lists[n] == n.watchers && Fixed().live == live && Fixed().known == known
    {
    }

    /** A node that events can be sent from: in the tree, or just taken out of it. */
    ghost predicate CanSend(n: Node)
      reads this`nodes, this`known
    {
      && n in known && n.store == this && n.Linked()
      && (InPlace(nodes, n) || (n.path !in nodes && n.parent != null && InPlace(nodes, n.parent)))
    }
  }

  /** The event of a leaf that gets its first child. */
  ghost function Opened(wasDir: bool, path: Path, value: string): seq<Event> {
    if wasDir then [] else [Event(Delete, path, value)]
  }

  /** `n` is the node in its place. */
  ghost predicate InPlace(nodes: map<Path, Node>, n: Node) {
    n.path in nodes && nodes[n.path] == n
  }

  /** The entry for one child in the value of a directory at `p`: its own value, or nothing if
      nothing is visible there. */
  ghost predicate EntryOf(values: map<string, Val>, c: string, visible: map<Path, string>, p: Path) {
    && (c in values ==> Pruned(values[c]) && values[c] != Dir(map[]))
    && forall q :: (if c in values then Lookup(values[c], q) else None) == Find(visible, p + [c] + q)
  }

  lemma VisibleLeaves(t: Tree)
    ensures forall k :: k in Visible(t) ==> k in t && !t[k].dir
  {
  }

  lemma AllPruned(m: map<Path, string>, p: Path, values: map<string, Val>)
    requires forall c :: c in values ==> EntryOf(values, c, m, p)
    ensures Pruned(Dir(values))
  {
  }

  /** The value of a directory answers for the keys below it, those of `m` being leaves of `t`. */
  lemma DirAnswers(t: Tree, m: map<Path, string>, p: Path, values: map<string, Val>, q: Path)
    requires Closed(t) && p in t && t[p].dir && forall c :: c in values ==> p + [c] in t
    requires forall k :: k in m ==> k in t && !t[k].dir
    requires forall c :: p + [c] in t ==> EntryOf(values, c, m, p)
    ensures Lookup(Dir(values), q) == Find(m, p + q)
  {
    if q == [] {
      assert p + q == p;
    } else {
      assert q == [q[0]] + q[1..] && p + q == p + [q[0]] + q[1..];
      if p + [q[0]] in t {
        assert EntryOf(values, q[0], m, p);
      } else if p + q in t {
        assert p < p + q;
        ChildOnTheWay(t, p, p + q);
      }
    }
  }

  lemma Without<T>(s: seq<T>, i: nat)
    requires NoRepeats(s) && i < |s|
    ensures var r := s[..i] + s[i + 1..];
            NoRepeats(r) && |r| + 1 == |s| && (forall x :: x in r <==> x in s && x != s[i])
            && (r == [] <==> forall x :: x in s ==> x == s[i])
  {
    var r := s[..i] + s[i + 1..];
    forall x
      ensures x in r <==> x in s && x != s[i]
    {
      if x in s && x != s[i] {
        var j :| 0 <= j < |s| && s[j] == x;
        assert x == if j < i then r[j] else r[j - 1];
      }
    }
    if r != [] {
      assert r[0] in r;
    }
  }

  ghost predicate Listed(t: Tree, p: Path, kids: set<string>) {
    forall c :: c in kids ==> p + [c] in t
  }

  lemma OneMoreSeen(kids: set<string>, names: set<string>, c: string)
    requires names <= kids && c in names
    ensures kids - (names - {c}) == kids - names + {c}
  {
  }

  ghost predicate Extends(a: seq<Event>, b: seq<Event>) {
    a <= b
  }

  ghost predicate Within(a: map<Path, Node>, b: map<Path, Node>) {
    forall p :: p in a ==> p in b && a[p] == b[p]
  }

  lemma Same(a: seq<Event>, m: map<Path, Node>)
    ensures Extends(a, a) && Within(m, m)
  {
  }

  lemma OneMore(a: seq<Event>, e: Event)
    ensures Extends(a, a + [e])
  {
  }

  lemma PutTree(u: Machine.State, s: Machine.State, p: Path, v: string)
    requires u == Machine.Apply(s, Machine.Put(p, v))
    ensures u.tree == PutAt(s.tree, p, v)
  {
  }

  lemma Added(a: seq<Event>, b: seq<Event>)
    ensures Extends(a, a + b)
  {
  }

  lemma OneLess(m: map<Path, Node>, p: Path)
    ensures Within(m, m) && Within(m - {p}, m) && (p in m ==> |m - {p}| < |m|)
  {
  }

  lemma Further(a: seq<Event>, b: seq<Event>, c: seq<Event>, l: map<Path, Node>, m: map<Path, Node>, n: map<Path, Node>)
    requires Extends(a, b) && Extends(b, c) && Within(m, l) && Within(n, m)
    ensures Extends(a, c) && Within(n, l)
  {
  }

  lemma Gone(l: map<Path, Node>, m: map<Path, Node>, n: map<Path, Node>)
    requires Within(m, l) && Within(n, m)
    ensures Within(n, l)
  {
  }

  ghost predicate NoRepeats<T>(s: seq<T>) {
    forall i, j :: 0 <= i < j < |s| ==> s[i] != s[j]
  }
}
