/** The node tree as a value: one cell per node, keyed by the node's path. Each operation of
    node.go and store.go is given here in closed form, saying what becomes of every path; the
    classes of module Stores are proved against these functions. */
module Trees {
  import opened Paths
  import opened Events

  /** What a node shows: whether it has a children map, its value (hidden while it is a
      directory), and whether any watcher hangs on it. */
  datatype Cell = Cell(dir: bool, value: string, watched: bool)

  type Tree = map<Path, Cell>

  ghost const EMPTY: Tree := map[[] := Cell(true, "", false)]

  ghost predicate HasBelow(t: Tree, p: Path) {
    exists q :: q in t && p < q
  }

  ghost function Below(t: Tree, p: Path): set<Path> {
    set q | q in t && p <= q
  }

  /** The number of nodes at and below `p`. */
  ghost function Weight(t: Tree, p: Path): nat {
    |Below(t, p)|
  }

  /** Every strict ancestor of a node is present and is a directory. */
  ghost predicate Closed(t: Tree) {
    forall p, q :: q in t && p < q ==> p in t && t[p].dir
  }

  ghost predicate Rooted(t: Tree) {
    Closed(t) && [] in t && t[[]].dir && t[[]].value == ""
  }

  /** What a reader can see: the leaves. */
  ghost function Visible(t: Tree): map<Path, string> {
    map p | p in t && !t[p].dir :: t[p].value
  }

  /** What is stored: the leaves, and the non-empty values that directories hide. */
  ghost function Contents(t: Tree): map<Path, string> {
    map p | p in t && (!t[p].dir || t[p].value != "") :: t[p].value
  }

  // ---- Writing -------------------------------------------------------------------------

  /** All directories on the way to `p`, and `p` itself (as an empty directory if new). */
  ghost function Reach(t: Tree, p: Path): Tree {
    map q | q in t.Keys + Prefixes(p) ::
      if q in Above(p) then Cell(true, if q in t then t[q].value else "", q in t && t[q].watched)
      else if q in t then t[q]
      else Cell(true, "", false)
  }

  /** Paths at or above some key of `kvs`. */
  ghost function Touched(kvs: map<Path, string>): (r: set<Path>)
    ensures forall q :: q in r <==> exists k :: k in kvs && q <= k
  {
    assert forall k, q | k in kvs && q <= k :: q == k[..|q|];
    set k, i | k in kvs && 0 <= i <= |k| :: k[..i]
  }

  /** A set of key-value pairs written at once. A written node is a leaf exactly when nothing
      lies below it; a key at the root is ignored. */
  ghost function Bulk(t: Tree, kvs: map<Path, string>): Tree {
    map q | q in t.Keys + Touched(kvs) :: BulkCell(t, kvs, q)
  }

  ghost function BulkCell(t: Tree, kvs: map<Path, string>, q: Path): Cell {
    Cell(q == [] || HasBelow(t, q) || (exists k :: k in kvs && q < k) || (q in t && t[q].dir && q !in kvs),
         if q in kvs && q != [] then kvs[q] else if q in t then t[q].value else "",
         q in t && t[q].watched)
  }

  ghost function PutAt(t: Tree, p: Path, v: string): Tree {
    if p == [] then t else Bulk(t, map[p := v])
  }

  ghost function WatchAt(t: Tree, p: Path): Tree {
    var r := Reach(t, p);
    r[p := r[p].(watched := true)]
  }

  // ---- Removing ------------------------------------------------------------------------

  /** The root and the nodes that are watched, or lead to a watched node, cannot be removed. */
  ghost predicate Survives(t: Tree, q: Path) {
    q == [] || exists w :: w in t && q <= w && t[w].watched
  }

  /** The part of the tree at and below `p` loses its values and its leaves. */
  ghost function Empty(t: Tree, p: Path): Tree {
    map q | q in t && (p <= q ==> Survives(t, q)) ::
      if p <= q then t[q].(dir := true, value := "") else t[q]
  }

  /** A directory left without children turns back into a leaf if it hides a value, stays if
      it is watched or the root, and otherwise goes, its parent being looked at next. */
  ghost function Clean(t: Tree, p: Path): Tree
    decreases |p|
  {
    if p !in t || !t[p].dir || HasBelow(t, p) then t
    else if t[p].value != "" then t[p := t[p].(dir := false)]
    else if t[p].watched || p == [] then t
    else Clean(t - {p}, Parent(p))
  }

  ghost function Remove(t: Tree, p: Path): Tree {
    var e := Empty(t, p);
    if p in e || p == [] then e else Clean(e, Parent(p))
  }

  ghost function UnwatchAt(t: Tree, p: Path): Tree {
    if p in t then t[p := t[p].(watched := false)] else t
  }

  // ---- The removal loop ------------------------------------------------------------------

  /** `q` is reached from `p` through one of the children named in `done`. */
  ghost predicate Through(p: Path, done: set<string>, q: Path) {
    p < q && q[|p|] in done
  }

  /** The tree while the loop of `Remove` runs at `p`: the children in `done` were removed. */
  ghost function EmptyKids(t: Tree, p: Path, done: set<string>): Tree {
    map q | q in t && (Through(p, done, q) ==> Survives(t, q)) ::
      if Through(p, done, q) then t[q].(dir := true, value := "") else t[q]
  }

  lemma EmptyKidsNone(t: Tree, p: Path)
    ensures EmptyKids(t, p, {}) == t
  {
  }

  lemma EmptyKidsTop(t: Tree, p: Path, done: set<string>)
    ensures p in EmptyKids(t, p, done) <==> p in t
    ensures p in t ==> EmptyKids(t, p, done)[p] == t[p]
    ensures EmptyKids(t, p, done).Keys <= t.Keys
  {
  }

  lemma BelowShrinks(t: Tree, u: Tree, p: Path)
    requires t.Keys <= u.Keys
    ensures Weight(t, p) <= Weight(u, p)
  {
    Fewer(Below(t, p), Below(u, p));
  }

  lemma KidLighter(t: Tree, p: Path, done: set<string>, c: string)
    requires p in t
    ensures Weight(EmptyKids(t, p, done), p + [c]) < Weight(t, p)
  {
    var u := EmptyKids(t, p, done);
    assert p in Below(t, p) && p !in Below(u, p + [c]);
    Fewer(Below(u, p + [c]) + {p}, Below(t, p));
  }

  lemma EmptyKidsStep(t: Tree, p: Path, done: set<string>, c: string)
    requires c !in done
    ensures Empty(EmptyKids(t, p, done), p + [c]) == EmptyKids(t, p, done + {c})
  {
    var u := EmptyKids(t, p, done);
    forall q | p + [c] <= q
      ensures (q in u <==> q in t) && (q in t ==> u[q] == t[q])
      ensures Survives(u, q) <==> Survives(t, q)
    {
      forall w | q <= w
        ensures w in u <==> w in t
        ensures w in t ==> u[w] == t[w]
      {
        assert w[|p|] == c;
      }
    }
    forall q
      ensures Through(p, done + {c}, q) <==> Through(p, done, q) || p + [c] <= q
    {
      if p < q { assert p + [q[|p|]] <= q; }
    }
  }

  lemma ChildOnTheWay(t: Tree, p: Path, q: Path)
    requires Closed(t) && q in t && p < q
    ensures p + [q[|p|]] in t
  {
    var c := p + [q[|p|]];
    assert c <= q;
    assert c == q || c < q;
  }

  /** Once no child is left to visit, the tree is the emptied one, except that `p` itself is
      still there when it should go. */
  lemma EmptyKidsAll(t: Tree, p: Path, all: set<string>)
    requires Closed(t) && p in t && t[p].dir && t[p].value == ""
    requires forall c :: p + [c] in t ==> c in all
    ensures p in Empty(t, p) ==> EmptyKids(t, p, all) == Empty(t, p)
    ensures p !in Empty(t, p) ==> EmptyKids(t, p, all) - {p} == Empty(t, p)
    ensures HasBelow(EmptyKids(t, p, all), p) || t[p].watched || p == [] <==> p in Empty(t, p)
  {
    forall q | q in t && p < q
      ensures Through(p, all, q)
    {
      ChildOnTheWay(t, p, q);
    }
    assert forall q :: q in t ==> (Through(p, all, q) <==> p <= q && q != p);
    SurvivorBelow(t, p, all);
    if p in Empty(t, p) {
      assert EmptyKids(t, p, all) == Empty(t, p);
    } else {
      assert EmptyKids(t, p, all) - {p} == Empty(t, p);
    }
  }

  lemma SurvivorBelow(t: Tree, p: Path, all: set<string>)
    requires p in t && forall q :: q in t && p < q ==> Through(p, all, q)
    ensures HasBelow(EmptyKids(t, p, all), p) || t[p].watched || p == [] <==> Survives(t, p)
  {
    var k := EmptyKids(t, p, all);
    if HasBelow(k, p) {
      var q :| q in k && p < q;
      assert Survives(t, q);
    }
    if p != [] && Survives(t, p) && !t[p].watched {
      var w :| w in t && p <= w && t[w].watched;
      Strict(p, w);
      assert w in k;
    }
  }

  /** Cleaning takes nodes out and puts none in. */
  lemma CleanShrinks(t: Tree, p: Path)
    ensures Clean(t, p).Keys <= t.Keys
    decreases |p|
  {
  }

  /** One round of the loop: removing the child `c` empties its part, and when that was the last
      child of a node nothing else holds, the node itself goes, and the loop is then over. */
  lemma KidRemoved(t: Tree, p: Path, done: set<string>, c: string)
    requires p in t && t[p].dir && t[p].value == "" && c !in done
    ensures var e := EmptyKids(t, p, done + {c});
            Remove(EmptyKids(t, p, done), p + [c]) ==
              if HasBelow(e, p) || t[p].watched || p == [] then e else Remove(t, p)
    ensures var e := EmptyKids(t, p, done + {c});
            !(HasBelow(e, p) || t[p].watched || p == []) ==> p !in Remove(t, p)
  {
    var e := EmptyKids(t, p, done + {c});
    EmptyKidsStep(t, p, done, c);
    assert Parent(p + [c]) == p;
    assert p + [c] in e ==> p < p + [c];
    if !(HasBelow(e, p) || t[p].watched || p == []) {
      forall w | w in t && p <= w
        ensures !t[w].watched
      {
        assert w in e || w == p || !Survives(t, w);
        assert w != p ==> p < w;
        assert w <= w;
      }
      assert forall q :: q in t && p <= q ==> !Survives(t, q) && (q == p || q !in e);
      assert e - {p} == Empty(t, p);
      CleanShrinks(e - {p}, Parent(p));
    }
  }

  /** The value and the kind of the node itself do not matter to its removal. */
  lemma RemoveIgnoresTop(t: Tree, p: Path, cell: Cell)
    requires p in t && cell.watched == t[p].watched
    ensures Remove(t[p := cell], p) == Remove(t, p) && Weight(t[p := cell], p) == Weight(t, p)
  {
    var u := t[p := cell];
    assert forall q :: q in t ==> u[q].watched == t[q].watched;
    assert forall q :: Survives(u, q) <==> Survives(t, q);
    assert Empty(u, p) == Empty(t, p);
    assert Below(u, p) == Below(t, p);
  }

  lemma ReachNext(t: Tree, p: Path, c: string)
    requires Rooted(t)
    ensures var r := Reach(t, p);
            && p in r
            && Reach(t, p + [c]) ==
                 if p + [c] in r then r else r[p := r[p].(dir := true)][p + [c] := Cell(true, "", false)]
  {
    ReachStep(t, p, c);
  }

  /** Nothing exists below a path that does not exist. */
  lemma MissingBelow(t: Tree, q: Path, p: Path)
    requires Rooted(t) && q !in t && q <= p
    ensures p !in t
  {
    if p in t && p != q {
      Strict(q, p);
    }
  }

  lemma RootPut(t: Tree, v: string)
    ensures PutAt(t, [], v) == t
  {
  }

  lemma Watched(t: Tree, p: Path)
    requires p in Reach(t, p)
    ensures WatchAt(t, p) == Reach(t, p)[p := Reach(t, p)[p].(watched := true)]
  {
  }

  lemma WatchUnseen(t: Tree, p: Path, w: bool)
    requires p in t
    ensures Visible(t[p := t[p].(watched := w)]) == Visible(t)
  {
  }

  lemma CleanAbsent(t: Tree, p: Path)
    ensures p !in t ==> Clean(t, p) == t
  {
  }

  // ---- Bulk writes --------------------------------------------------------------------------

  lemma BulkNone(t: Tree)
    requires Rooted(t)
    ensures Bulk(t, map[]) == t
  {
  }

  lemma BulkBelow(t: Tree, m: map<Path, string>, q: Path)
    ensures HasBelow(Bulk(t, m), q) <==> HasBelow(t, q) || exists k :: k in m && q < k
  {
    var b := Bulk(t, m);
    if HasBelow(b, q) {
      var r :| r in b && q < r;
      if r !in t {
        var k :| k in m && r <= k;
        assert q < k;
      }
    }
    if k :| k in m && q < k {
      assert k <= k && k in Touched(m);
      assert k in b;
    }
    if HasBelow(t, q) {
      var r :| r in t && q < r;
      assert r in b;
    }
  }

  /** One more key written after a set of others is the larger set written at once: the order of
      the writes leaves no trace. */
  lemma BulkStep(t: Tree, m: map<Path, string>, k: Path, v: string)
    requires Rooted(t) && k !in m
    ensures Rooted(Bulk(t, m)) && PutAt(Bulk(t, m), k, v) == Bulk(t, m[k := v])
  {
    hide Rooted, Closed, HasBelow, BulkCell;
    BulkRooted(t, m);
    TouchedStep(m, k, v);
    if k == [] {
      RootIgnored(t, m, v);
    } else {
      var b, one, n := Bulk(t, m), map[k := v], m[k := v];
      assert Touched(one) == Prefixes(k);
      forall q | q in t.Keys + Touched(n)
        ensures BulkCell(b, one, q) == BulkCell(t, n, q)
      {
        BulkCellStep(t, m, k, v, q);
      }
      assert b.Keys + Touched(one) == t.Keys + Touched(n);
      assert Bulk(b, one) == Bulk(t, n);
    }
  }

  lemma TouchedStep(m: map<Path, string>, k: Path, v: string)
    ensures Touched(m[k := v]) == Touched(m) + Prefixes(k)
  {
  }

  lemma RootIgnored(t: Tree, m: map<Path, string>, v: string)
    requires Rooted(t) && [] !in m
    ensures Bulk(t, m[[] := v]) == Bulk(t, m)
  {
    var n := m[[] := v];
    TouchedStep(m, [], v);
    assert Prefixes([]) == {[]};
    forall q | q in t.Keys + Touched(n)
      ensures BulkCell(t, n, q) == BulkCell(t, m, q)
    {
      if k :| k in m && q < k { assert k in n; }
      if k :| k in n && q < k { assert k in m; }
    }
    assert t.Keys + Touched(n) == t.Keys + Touched(m);
  }

  lemma BulkCellStep(t: Tree, m: map<Path, string>, k: Path, v: string, q: Path)
    requires Rooted(t) && k !in m && k != []
    ensures BulkCell(Bulk(t, m), map[k := v], q) == BulkCell(t, m[k := v], q)
  {
    var b, one, n := Bulk(t, m), map[k := v], m[k := v];
    BulkBelow(t, m, q);
    assert k in one && k in n;
    assert (exists r :: r in one && q < r) <==> q < k;
    assert (exists r :: r in n && q < r) <==> q < k || exists r :: r in m && q < r by {
      if r :| r in m && q < r { assert r in n; }
    }
    if q in b {
      assert b[q] == BulkCell(t, m, q);
    } else {
      assert q !in t && q !in m;
    }
  }

  lemma BulkRooted(t: Tree, m: map<Path, string>)
    requires Rooted(t)
    ensures Rooted(Bulk(t, m))
  {
  }

  // ---- Writing, step by step --------------------------------------------------------------

  lemma ReachRoot(t: Tree)
    requires [] in t
    ensures Reach(t, []) == t
  {
  }

  /** Walking one component further into a node that exists changes nothing; otherwise the node
      walked from becomes a directory, and an empty directory appears. */
  lemma ReachStep(t: Tree, p: Path, c: string)
    requires Closed(t)
    ensures var r := Reach(t, p);
            && p in r && (p + [c] in r <==> p + [c] in t)
            && Reach(t, p + [c]) ==
                 if p + [c] in t then r else r[p := r[p].(dir := true)][p + [c] := Cell(true, "", false)]
  {
    PrefixesStep(p, c);
    var r := Reach(t, p);
    assert p + [c] !in Prefixes(p) && p < p + [c];
    if p + [c] in t {
      assert Reach(t, p + [c]) == r;
    } else {
      assert Reach(t, p + [c]) == r[p := r[p].(dir := true)][p + [c] := Cell(true, "", false)];
    }
  }

  lemma ReachClosed(t: Tree, p: Path)
    requires Closed(t)
    ensures p in Reach(t, p) && Closed(Reach(t, p)) && t.Keys <= Reach(t, p).Keys
  {
  }

  /** Writing one node: the walk to its parent, then the value set or a leaf added. */
  lemma PutSteps(t: Tree, p: Path, v: string)
    requires Rooted(t) && p != []
    ensures var d := Parent(p);
            var r := Reach(t, d);
            && d in r && (p in r <==> p in t)
            && PutAt(t, p, v) ==
                 if p in t then r[p := Cell(r[p].dir && HasBelow(r, p), v, r[p].watched)]
                 else r[d := r[d].(dir := true)][p := Cell(false, v, false)]
  {
    var d := Parent(p);
    assert p == d + [Last(p)] && d < p;
    ReachStep(t, d, Last(p));
    if p in t {
      ReachOld(t, d);
      PutOld(t, p, v);
    } else {
      PutNew(t, p, v);
    }
  }

  lemma PutOld(t: Tree, p: Path, v: string)
    requires Rooted(t) && p != [] && p in t
    ensures PutAt(t, p, v) == t[p := Cell(t[p].dir && HasBelow(t, p), v, t[p].watched)]
  {
    assert Touched(map[p := v]) == Prefixes(p) && p in Prefixes(p);
    assert Prefixes(p) <= t.Keys by {
      forall q | q in Prefixes(p) ensures q in t { if q != p { Strict(q, p); } }
    }
    forall q | q in t
      ensures BulkCell(t, map[p := v], q) == if q == p then Cell(t[p].dir && HasBelow(t, p), v, t[p].watched) else t[q]
    {
      PutCell(t, p, v, q);
      if q in Prefixes(p) && q != p { Strict(q, p); }
    }
  }

  lemma PutNew(t: Tree, p: Path, v: string)
    requires Rooted(t) && p != [] && p !in t
    ensures var d := Parent(p);
            && d in Reach(t, d)
            && PutAt(t, p, v) == Reach(t, d)[d := Reach(t, d)[d].(dir := true)][p := Cell(false, v, false)]
  {
    hide Rooted, Closed, HasBelow, BulkCell, Touched;
    var d := Parent(p);
    assert p == d + [Last(p)];
    PrefixesStep(d, Last(p));
    TouchedStep(map[], p, v);
    assert Touched(map[]) == {} && map[][p := v] == map[p := v];
    var a := PutAt(t, p, v);
    var b := Reach(t, d)[d := Reach(t, d)[d].(dir := true)][p := Cell(false, v, false)];
    assert a.Keys == b.Keys;
    forall q | q in a.Keys
      ensures a[q] == b[q]
    {
      PutCell(t, p, v, q);
    }
  }

  /** Walking to a directory that exists changes nothing. */
  lemma ReachOld(t: Tree, p: Path)
    requires Closed(t) && p in t
    ensures Reach(t, p) == t
  {
    assert forall q :: q in Above(p) ==> q in t && t[q].dir;
    assert forall q :: q in Prefixes(p) ==> q == p || q in Above(p) by {
      forall q | q in Prefixes(p) && q != p ensures q in Above(p) { Strict(q, p); }
    }
    assert Reach(t, p) == t;
  }

  lemma PutCell(t: Tree, p: Path, v: string, q: Path)
    requires Rooted(t) && p != [] && (q in t || q in Prefixes(p))
    ensures var b := BulkCell(t, map[p := v], q);
            && (q == p ==> b == Cell(p in t && t[p].dir && HasBelow(t, p), v, p in t && t[p].watched))
            && (q in Above(p) ==> b == Cell(true, if q in t then t[q].value else "", q in t && t[q].watched))
            && (q !in Prefixes(p) ==> b == t[q])
  {
    var kvs := map[p := v];
    assert p in kvs;
    assert (exists k :: k in kvs && q < k) <==> q in Above(p);
    assert HasBelow(t, q) ==> q in t && t[q].dir;
  }

  /** Nothing lies below a leaf, nor below a directory without children. */
  lemma RemoveBare(t: Tree, p: Path)
    requires Closed(t) && p in t && !HasBelow(t, p)
    ensures t[p].watched || p == [] ==> Remove(t, p) == t[p := Cell(true, "", t[p].watched)]
    ensures !t[p].watched && p != [] ==> Remove(t, p) == Clean(t - {p}, Parent(p))
  {
    assert forall q :: q in t && p <= q ==> q == p;
    if t[p].watched || p == [] {
      assert Survives(t, p);
      assert Empty(t, p) == t[p := Cell(true, "", t[p].watched)];
    } else {
      assert Empty(t, p) == t - {p};
    }
  }

  // ---- Events --------------------------------------------------------------------------

  /** A leaf taken out, or turned into a directory, is reported by one DELETE. */
  lemma LeafGone(log: seq<Event>, t: Tree, e: Event, cell: Option<Cell>)
    requires Play(map[], log) == Some(Visible(t))
    requires e.action == Delete && e.path in t && !t[e.path].dir && (cell.Some? ==> cell.value.dir)
    ensures var u := match cell case None => t - {e.path} case Some(x) => t[e.path := x];
            Play(map[], log + [e]) == Some(Visible(u))
  {
    PlayOne(map[], log, e);
    var u := match cell case None => t - {e.path} case Some(x) => t[e.path := x];
    assert Visible(u) == Visible(t) - {e.path};
  }

  /** A leaf that appears, or changes its value, is reported by one UPDATE. */
  lemma LeafShown(log: seq<Event>, t: Tree, e: Event, watched: bool)
    requires Play(map[], log) == Some(Visible(t)) && Closed(t[e.path := Cell(false, e.value, watched)])
    requires e.action == Update && e.path != [] && (e.path in t && !t[e.path].dir ==> t[e.path].value != e.value)
    ensures Play(map[], log + [e]) == Some(Visible(t[e.path := Cell(false, e.value, watched)]))
  {
    var u := t[e.path := Cell(false, e.value, watched)];
    PlayOne(map[], log, e);
    VisiblePrefixFree(u);
    assert Visible(u) == Visible(t)[e.path := e.value];
  }

  /** A directory without children shows the value it was hiding. */
  lemma LeafBack(log: seq<Event>, t: Tree, p: Path)
    requires Play(map[], log) == Some(Visible(t)) && Closed(t) && p in t && t[p].dir && !HasBelow(t, p) && p != []
    ensures Play(map[], log + [Event(Update, p, t[p].value)]) == Some(Visible(t[p := t[p].(dir := false)]))
  {
    LeafShown(log, t, Event(Update, p, t[p].value), t[p].watched);
  }

  /** What a directory hides, and a directory taken out, cannot be seen. */
  lemma HiddenValue(t: Tree, p: Path, v: string)
    requires p in t && t[p].dir
    ensures Visible(t[p := t[p].(value := v)]) == Visible(t)
  {
  }

  lemma HiddenGone(t: Tree, p: Path)
    requires p in t && t[p].dir
    ensures Visible(t - {p}) == Visible(t)
  {
  }

  lemma VisiblePrefixFree(t: Tree)
    requires Closed(t)
    ensures PrefixFree(Visible(t))
  {
  }
}
