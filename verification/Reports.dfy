/** Calls put together: what a watcher is sent. */
module Reports {
  import opened Paths
  import opened Events
  import opened Trees
  import opened Values
  import opened Accounts
  import opened Stores
  import Flatmap
  import Machine
  import Visibility

  /** What a watcher is sent of a leaf whose value is written again and that is then deleted: an UPDATE if
      the value changes, and one DELETE. A watcher elsewhere learns the value that went; one at the leaf
      itself keeps the node in place, as an empty directory, and is told that there is nothing. */
  method WatchLeaf(p: Path, x: string, y: string, here: bool) returns (w: Watcher)
    requires p != []
    ensures w.eventChan ==
              if here then (if x == y then [] else [Event(Update, [], y)]) + [Event(Action.Delete, [], "")]
              else (if x == y then [] else [Event(Update, p, y)]) + [Event(Action.Delete, p, y)]
  {
    hide Store.Valid, Visible, Machine.Run, Account, Play, Writing, Opening, Route, OneLeaf, Rooted;
    hide Trees.Remove, PutAt, WatchAt;
    var store := new Store();
    store.Put(p, Flatmap.Text(x));
    ghost var t0, log0 := store.tree, store.log;
    store.Leaves();
    FirstLeaf(p, x, t0, log0);
    w := store.Watch(if here then p else []);
    ghost var t1, q := store.tree, if here then p else [];
    store.Leaves();
    LeafWatched(p, x, t0, q);
    assert log0 + [] == log0 == store.log;
    store.Put(p, Flatmap.Text(y));
    ghost var t2, log2 := store.tree, store.log;
    store.Leaves();
    LeafWritten(p, x, y, t1, here);
    store.Delete(p);
    store.Told(w);
    LeafDeleted(p, y, t2, store.tree, log2, store.log, here);
    ghost var es := (if x == y then [] else [Event(Update, p, y)]) + [Event(Action.Delete, p, if here then "" else y)];
    assert store.log == log0 + es && store.log[|log0|..] == es;
    LeafRouted(p, x, y, here);
  }

  /** The tree holds one leaf, and nothing is hidden in it. */
  ghost predicate OneLeaf(t: Tree, p: Path, x: string, watched: bool) {
    && Rooted(t) && Visible(t) == map[p := x] && p in t && t[p].watched == watched
    && forall k :: k in t && k != p ==> t[k].value == ""
  }

  lemma FirstLeaf(p: Path, x: string, t: Tree, log: seq<Event>)
    requires p != [] && t == PutAt(EMPTY, p, x) && log == [] + Writing(EMPTY, p, x)
    requires Rooted(t) && Play(map[], log) == Some(Visible(t))
    ensures OneLeaf(t, p, x, false) && log == [Event(Update, p, x)]
  {
    hide Visible, Rooted, PutAt, Play, Opening;
    NoLeafAbove(EMPTY, p);
    var e := Event(Update, p, x);
    assert [] + ([] + [e]) == [e];
    OneUpdate(p, x);
    FirstCells(p, x);
  }

  lemma OneUpdate(p: Path, x: string)
    requires p != []
    ensures var e := Event(Update, p, x); Play(map[], [e]).Some? ==> Play(map[], [e]) == Some(map[p := x])
  {
    var e := Event(Update, p, x);
    assert [e][..0] == [];
    assert Play(map[], []) == Some(map[]);
  }

  lemma FirstCells(p: Path, x: string)
    requires p != []
    ensures var t := PutAt(EMPTY, p, x);
            p in t && !t[p].watched && forall k :: k in t && k != p ==> t[k].value == ""
  {
    assert p in map[p := x];
  }

  lemma NoLeafAbove(t: Tree, p: Path)
    requires forall k :: k in t && k < p ==> t[k].dir
    ensures Opening(t, p) == []
  {
    hide Opening;
    var es := Opening(t, p);
    var first := if es == [] then [] else es[0].path;
    OpeningEvents(t, p);
  }

  lemma LeafAlone(t: Tree, p: Path, x: string, watched: bool)
    requires OneLeaf(t, p, x, watched)
    ensures forall k :: k in t ==> (!t[k].dir <==> k == p)
    ensures t[p].value == x && Opening(t, p) == [] == Opening(t, [])
  {
    hide Rooted;
    forall k | k in t
      ensures !t[k].dir <==> k == p
    {
      assert k in Visible(t) <==> k == p;
    }
    assert p in Visible(t);
    NoLeafAbove(t, p);
  }

  lemma LeafWatched(p: Path, x: string, t: Tree, q: Path)
    requires OneLeaf(t, p, x, false) && (q == p || q == []) && p != []
    requires Rooted(WatchAt(t, q))
    ensures OneLeaf(WatchAt(t, q), p, x, q == p) && Opening(t, q) == []
  {
    hide Rooted;
    LeafAlone(t, p, x, false);
    Visibility.WatchHides(t, q);
    assert forall k :: k in Visible(t) ==> !(k < q);
  }

  lemma LeafWritten(p: Path, x: string, y: string, t: Tree, watched: bool)
    requires OneLeaf(t, p, x, watched) && p != []
    requires Rooted(PutAt(t, p, y))
    ensures OneLeaf(PutAt(t, p, y), p, y, watched) && p in PutAt(t, p, y)
    ensures Writing(t, p, y) == if x == y then [] else [Event(Update, p, y)]
  {
    LeafAlone(t, p, x, watched);
    PutOld(t, p, y);
    var u := PutAt(t, p, y);
    forall k
      ensures k in Visible(u) <==> k == p
    {
    }
    assert Visible(u) == map[p := y];
  }

  lemma LeafDeleted(p: Path, y: string, t: Tree, u: Tree, a: seq<Event>, b: seq<Event>, watched: bool)
    requires OneLeaf(t, p, y, watched) && p != [] && u == Trees.Remove(t, p) && a <= b && Account(t, u, b[|a|..])
    requires forall i :: |a| <= i < |b| ==> b[i].path in t
    requires forall i :: |a| <= i < |b| && b[i].action == Action.Delete ==>
               var cell := t[b[i].path]; !cell.dir && b[i].value == if cell.watched then "" else cell.value
    requires forall i :: |a| <= i < |b| && b[i].action == Update ==>
               b[i].path < p && b[i].value == t[b[i].path].value != ""
    ensures b == a + [Event(Action.Delete, p, if watched then "" else y)]
  {
    hide Trees.Remove, Rooted;
    LeafAlone(t, p, y, watched);
    var es := b[|a|..];
    assert |es| > 1 ==> es[0].path != es[1].path;
    var e := Event(Action.Delete, p, if watched then "" else y);
    forall i | 0 <= i < |es|
      ensures es[i] == e
    {
      assert es[i] == b[|a| + i];
    }
    assert p <= p;
    assert Differs(t, u, p) by { LeafRemoved(t, p, p); }
    var i :| 0 <= i < |es| && es[i].path == p;
    assert b == a + es;
  }

  lemma LeafRouted(p: Path, x: string, y: string, here: bool)
    ensures var e := Event(Action.Delete, p, if here then "" else y);
            var f := Event(Update, p, y);
            Route((if x == y then [] else [f]) + [e], if here then p else []) ==
              if here then (if x == y then [] else [f.(path := [])]) + [e.(path := [])]
              else (if x == y then [] else [f]) + [e]
  {
    var e, f := Event(Action.Delete, p, if here then "" else y), Event(Update, p, y);
    var first := if x == y then [] else [f];
    if here {
      assert p[|p|..] == [];
      RouteSnoc([], f, p);
      assert [] + [f] == [f];
      RouteSnoc(first, e, p);
    } else {
      RouteRoot(first + [e]);
    }
  }
}
