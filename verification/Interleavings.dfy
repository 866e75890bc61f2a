/** A delete during which watchers go away. `Remove` of node.go runs under the store's lock, but a watcher
    is removed under the lock of its own node only: between any two steps of a running `Remove` a node may
    lose its last watcher. Here `Remove` and `Clean` take one step at a time, with the calls still to
    return from on a stack. */
module Interleavings {
  import opened Paths
  import opened Trees
  import opened Machine
  import opened Invariants
  import opened Refinement

  datatype Frame =
    | Removing(path: Path)                      // `Remove` is called
    | Converting(path: Path)                    // a leaf was found watched, and is about to be emptied
    | Looping(path: Path, left: set<string>)    // the loop over the children
    | Cleaning(path: Path)                      // `Clean` is called

  datatype Running = Running(state: State, stack: seq<Frame>)

  /** `Step(c)` is the next step of the running call; `c` is the child the loop takes, if that is its turn. */
  datatype Move = Step(child: string) | Leave(watched: Path)

  ghost function Children(t: Tree, p: Path): set<string> {
    set q | q in t && p < q :: q[|p|]
  }

  ghost predicate Bare(t: Tree, p: Path) {
    p in t && t[p].dir && !HasBelow(t, p)
  }

  /** What one step of a call does to the tree, and the calls it goes on with, the innermost last. */
  datatype Effect = Effect(tree: Tree, calls: seq<Frame>)

  /** A node is taken out, and its parent is looked at next. */
  ghost function TakeOut(t: Tree, p: Path): Effect
    requires p != []
  {
    Effect(t - {p}, [Cleaning(Parent(p))])
  }

  ghost function Act(t: Tree, f: Frame, c: string): Effect {
    match f
    case Removing(p) =>
      if p !in t then Effect(t, [])
      else if t[p].dir then Effect(t[p := t[p].(value := "")], [Looping(p, Children(t, p))])
      else if t[p].watched then Effect(t, [Converting(p)])
      else if p == [] then Effect(t, [])
      else TakeOut(t, p)
    case Converting(p) =>
      if p in t then Effect(t[p := t[p].(dir := true, value := "")], []) else Effect(t, [])
    case Looping(p, left) =>
      if left != {} then
        Effect(t, [Looping(p, left - {c})] + if p + [c] in t then [Removing(p + [c])] else [])
      else if Bare(t, p) && !t[p].watched && p != [] then TakeOut(t, p)
      else Effect(t, [])
    case Cleaning(p) =>
      if !Bare(t, p) then Effect(t, [])
      else if t[p].value != "" then Effect(t[p := t[p].(dir := false)], [])
      else if t[p].watched || p == [] then Effect(t, [])
      else TakeOut(t, p)
  }

  ghost predicate Enabled(r: Running, m: Move) {
    m.Step? ==>
      && r.stack != []
      && var f := r.stack[|r.stack| - 1];
         (f.Looping? && f.left != {} ==> m.child in f.left)
  }

  ghost function Take(r: Running, m: Move): Running
    requires Enabled(r, m)
  {
    match m
    case Leave(w) => r.(state := Apply(r.state, Unwatch(w)))
    case Step(c) =>
      var n := |r.stack| - 1;
      var e := Act(r.state.tree, r.stack[n], c);
      Running(r.state.(tree := e.tree), r.stack[..n] + e.calls)
  }

  ghost predicate EnabledAll(r: Running, ms: seq<Move>)
    decreases |ms|
  {
    ms == [] || (Enabled(r, ms[0]) && EnabledAll(Take(r, ms[0]), ms[1..]))
  }

  ghost function TakeAll(r: Running, ms: seq<Move>): Running
    requires EnabledAll(r, ms)
    decreases |ms|
  {
    if ms == [] then r else TakeAll(Take(r, ms[0]), ms[1..])
  }

  // ---- What every step keeps -----------------------------------------------------------------------

  /** The key `k` will still be looked at. */
  ghost predicate Covers(f: Frame, k: Path) {
    match f
    case Removing(p) => p <= k
    case Converting(p) => p == k
    case Looping(p, left) => Through(p, left, k)
    case Cleaning(_) => false
  }

  ghost predicate Covered(fs: set<Frame>, k: Path) {
    exists f :: f in fs && Covers(f, k)
  }

  /** If the node at `p` is a directory without children, it will still be looked at. */
  ghost predicate Looked(fs: set<Frame>, p: Path) {
    exists f :: f in fs && f.path == p && !f.Converting?
  }

  /** If it hides a value, it will still be emptied or turned back into a leaf. */
  ghost predicate Settled(fs: set<Frame>, p: Path) {
    Removing(p) in fs || Cleaning(p) in fs
  }

  ghost predicate Waiting(s: State, p: Path) {
    p in s.queue || p in s.lost
  }

  /** Only the removed part is removed, and a node where a watched leaf was found is still watched, or
      waits to be cleaned. */
  ghost predicate Proper(s: State, f: Frame, p: Path) {
    && (f.Cleaning? || p <= f.path)
    && (f.Converting? ==> (f.path in s.tree && s.tree[f.path].watched) || Waiting(s, f.path))
  }

  /** What holds between any two steps: the calls in `fs` are still to return, and `m` is what was stored
      outside `p` when its removal began. */
  ghost predicate Good(s: State, fs: set<Frame>, m: map<Path, string>, p: Path) {
    && Rooted(s.tree) && Drop(Contents(s.tree), p) == m
    && (forall f :: f in fs ==> Proper(s, f, p))
    && (forall k :: k in Contents(s.tree) && p <= k ==> Covered(fs, k))
    && (forall q :: Placeholder(s.tree, q) ==> s.tree[q].watched || Waiting(s, q) || Looked(fs, q))
    && (forall q :: Bare(s.tree, q) && s.tree[q].value != "" ==> Settled(fs, q))
  }

  ghost function Frames(stack: seq<Frame>): set<Frame> {
    set f | f in stack
  }

  /** A watcher leaves. */
  lemma LeaveGood(s: State, fs: set<Frame>, m: map<Path, string>, p: Path, w: Path)
    requires Good(s, fs, m, p)
    ensures Good(Apply(s, Unwatch(w)), fs, m, p)
  {
    hide HasBelow, Enqueue, Closed, Contents, Covered, Looked, Settled;
    var u := Apply(s, Unwatch(w));
    Enqueued(s.(tree := UnwatchAt(s.tree, w)), w);
    UnwatchedRooted(s.tree, w);
    UnwatchContents(s, w);
    forall q
      ensures HasBelow(s.tree, q) <==> HasBelow(u.tree, q)
    {
      SameKeys(s.tree, u.tree, q);
    }
  }

  /** A call that has nothing to do returns. */
  lemma ReturnGood(s: State, fs: set<Frame>, f: Frame, m: map<Path, string>, p: Path)
    requires Good(s, fs + {f}, m, p)
    requires forall k :: k in Contents(s.tree) && p <= k ==> !Covers(f, k)
    requires Placeholder(s.tree, f.path) ==> s.tree[f.path].watched || Waiting(s, f.path)
    requires Bare(s.tree, f.path) ==> s.tree[f.path].value == ""
    ensures Good(s, fs, m, p)
  {
    hide HasBelow, Closed, Contents, Covers;
    forall k | k in Contents(s.tree) && p <= k
      ensures Covered(fs, k)
    {
      var g :| g in fs + {f} && Covers(g, k);
    }
    forall q | Placeholder(s.tree, q) && !s.tree[q].watched && !Waiting(s, q)
      ensures Looked(fs, q)
    {
      var g :| g in fs + {f} && g.path == q && !g.Converting?;
    }
  }

  /** Only the parent can be left without children when a childless node goes. */
  lemma GoneBelow(t: Tree, q: Path, a: Path)
    requires Closed(t) && q in t && q != [] && a != Parent(q) && a != q
    ensures HasBelow(t - {q}, a) <==> HasBelow(t, a)
  {
    if b :| b in t && a < b {
      if b == q {
        var d := Parent(q);
        PrefixOfChild(a, d, Last(q));
        assert q == d + [Last(q)];
        Strict(a, d);
        assert d < q && d in t - {q};
      } else {
        assert b in t - {q};
      }
    }
  }

  /** A childless node that nobody watches is taken out. */
  lemma GoneGood(s: State, fs: set<Frame>, f: Frame, m: map<Path, string>, p: Path, q: Path)
    requires Good(s, fs + {f}, m, p) && f.path == q && !f.Converting?
    requires q != [] && q in s.tree && !HasBelow(s.tree, q) && !s.tree[q].watched
    requires q in Contents(s.tree) ==> p <= q
    ensures Good(s.(tree := s.tree - {q}), fs + {Cleaning(Parent(q))}, m, p)
  {
    hide HasBelow, Contents;
    var t, u, d := s.tree, s.tree - {q}, Parent(q);
    GoneRooted(t, q);
    GoneContents(t, q, p);
    forall k | k in Contents(u) && p <= k
      ensures Covered(fs, k)
    {
      var g :| g in fs + {f} && Covers(g, k);
      if g == f { NoneBelowGone(t, q, k); }
    }
    forall a | Bare(u, a) && a != d
      ensures a != q && Bare(t, a) && u[a] == t[a]
    {
      if a != q { GoneBelow(t, q, a); }
    }
  }

  lemma NoneBelowGone(t: Tree, q: Path, k: Path)
    requires !HasBelow(t, q) && k in t - {q}
    ensures !(q <= k)
  {
    if q <= k { Strict(q, k); }
  }

  lemma GoneContents(t: Tree, q: Path, p: Path)
    requires q in Contents(t) ==> p <= q
    ensures Drop(Contents(t - {q}), p) == Drop(Contents(t), p)
    ensures forall k :: k in Contents(t - {q}) ==> k in Contents(t) && k in t - {q}
  {
  }

  lemma StoredIn(t: Tree, k: Path)
    requires k in Contents(t)
    ensures k in t
  {
  }

  /** A directory loses its value, and its children are removed next. */
  lemma ClearGood(s: State, fs: set<Frame>, m: map<Path, string>, p: Path, q: Path)
    requires Good(s, fs + {Removing(q)}, m, p) && q in s.tree && s.tree[q].dir
    ensures var t := s.tree;
            Good(s.(tree := t[q := t[q].(value := "")]), fs + {Looping(q, Children(t, q))}, m, p)
  {
    hide HasBelow, Contents;
    var t := s.tree;
    var u := t[q := t[q].(value := "")];
    var f, g := Removing(q), Looping(q, Children(t, q));
    assert f in fs + {f} && p <= q;
    ClearedContents(t, q, t[q].(value := ""), p);
    SameNodes(t, u);
    forall k | k in Contents(u) && p <= k
      ensures Covered(fs + {g}, k)
    {
      assert k in Contents(t) && k != q && Covered(fs + {f}, k);
      var h :| h in fs + {f} && Covers(h, k);
      if h == f {
        Strict(q, k);
        StoredIn(t, k);
        assert k[|q|] in Children(t, q);
        assert Covers(g, k);
      }
    }
    forall a | Placeholder(u, a)
      ensures u[a].watched || Waiting(s, a) || Looked(fs + {g}, a)
    {
      assert Placeholder(t, a);
      if h :| h in fs + {f} && h.path == a && !h.Converting? && h == f {
        assert g in fs + {g} && g.path == a;
      }
    }
  }

  /** A node becomes a directory with no value, its children staying what they are. */
  lemma ClearedContents(t: Tree, q: Path, cell: Cell, p: Path)
    requires q in t && p <= q && cell.dir && cell.value == "" && Rooted(t) && cell.watched == t[q].watched
    ensures Rooted(t[q := cell]) && Drop(Contents(t[q := cell]), p) == Drop(Contents(t), p)
    ensures forall k :: k in Contents(t[q := cell]) <==> k in Contents(t) && k != q
  {
  }

  lemma SameNodes(t: Tree, u: Tree)
    requires t.Keys == u.Keys
    ensures forall q :: HasBelow(t, q) <==> HasBelow(u, q)
  {
    forall q
      ensures HasBelow(t, q) <==> HasBelow(u, q)
    {
      SameKeys(t, u, q);
    }
  }

  /** A leaf that was found watched becomes an empty directory. */
  lemma ConvertGood(s: State, fs: set<Frame>, m: map<Path, string>, p: Path, q: Path)
    requires Good(s, fs + {Converting(q)}, m, p) && q in s.tree
    ensures Good(s.(tree := s.tree[q := s.tree[q].(dir := true, value := "")]), fs, m, p)
  {
    hide HasBelow, Contents;
    var t := s.tree;
    var u := t[q := t[q].(dir := true, value := "")];
    var f := Converting(q);
    assert f in fs + {f} && p <= q;
    ClearedContents(t, q, u[q], p);
    SameNodes(t, u);
    forall k | k in Contents(u) && p <= k
      ensures Covered(fs, k)
    {
      assert k in Contents(t) && k != q && Covered(fs + {f}, k);
      var h :| h in fs + {f} && Covers(h, k);
    }
    forall a | Placeholder(u, a) && !u[a].watched && !Waiting(s, a)
      ensures Looked(fs, a)
    {
      assert a != q && Placeholder(t, a);
      var h :| h in fs + {f} && h.path == a && !h.Converting?;
    }
  }

  /** A leaf is found watched. */
  lemma FoundGood(s: State, fs: set<Frame>, m: map<Path, string>, p: Path, q: Path)
    requires Good(s, fs + {Removing(q)}, m, p) && q in s.tree && !s.tree[q].dir && s.tree[q].watched
    ensures Good(s, fs + {Converting(q)}, m, p)
  {
    hide Contents;
    var f, g := Removing(q), Converting(q);
    assert f in fs + {f};
    forall k | k in Contents(s.tree) && p <= k
      ensures Covered(fs + {g}, k)
    {
      var h :| h in fs + {f} && Covers(h, k);
      if h == f {
        LeafOnly(s.tree, q, k);
        assert Covers(g, k);
      }
    }
    forall a | Placeholder(s.tree, a) && !s.tree[a].watched && !Waiting(s, a)
      ensures Looked(fs + {g}, a)
    {
      var h :| h in fs + {f} && h.path == a && !h.Converting?;
    }
  }

  lemma LeafOnly(t: Tree, q: Path, k: Path)
    requires Closed(t) && q in t && !t[q].dir && k in Contents(t) && q <= k
    ensures k == q && !HasBelow(t, q)
  {
    if k != q { Strict(q, k); }
  }

  /** The loop takes the next child. */
  lemma PickGood(s: State, fs: set<Frame>, m: map<Path, string>, p: Path, q: Path, left: set<string>, c: string)
    requires Good(s, fs + {Looping(q, left)}, m, p) && c in left
    ensures Good(s, fs + {Looping(q, left - {c})} + if q + [c] in s.tree then {Removing(q + [c])} else {}, m, p)
  {
    hide HasBelow, Contents;
    var f, g, r := Looping(q, left), Looping(q, left - {c}), Removing(q + [c]);
    var gs := fs + {g} + if q + [c] in s.tree then {r} else {};
    assert f in fs + {f} && g in gs && p <= q <= q + [c];
    forall k | k in Contents(s.tree) && p <= k
      ensures Covered(gs, k)
    {
      var h :| h in fs + {f} && Covers(h, k);
      if h == f && k[|q|] == c {
        StepDown(q, c, k);
        ChildThere(s.tree, q, c, k);
        assert r in gs && Covers(r, k);
      } else if h == f {
        assert Covers(g, k);
      }
    }
    forall a | Placeholder(s.tree, a) && !s.tree[a].watched && !Waiting(s, a)
      ensures Looked(gs, a)
    {
      var h :| h in fs + {f} && h.path == a && !h.Converting?;
      if h == f { assert g.path == a; }
    }
  }

  lemma ChildThere(t: Tree, q: Path, c: string, k: Path)
    requires Closed(t) && k in Contents(t) && q + [c] <= k
    ensures q + [c] in t
  {
    if k != q + [c] { Strict(q + [c], k); }
  }

  /** A directory without children turns back into a leaf. */
  lemma BackGood(s: State, fs: set<Frame>, m: map<Path, string>, p: Path, q: Path)
    requires Good(s, fs + {Cleaning(q)}, m, p) && Bare(s.tree, q) && s.tree[q].value != ""
    ensures Good(s.(tree := s.tree[q := s.tree[q].(dir := false)]), fs, m, p)
  {
    hide HasBelow, Contents;
    var t := s.tree;
    var u := t[q := t[q].(dir := false)];
    var f := Cleaning(q);
    LeafContents(t, q);
    SameNodes(t, u);
    forall k | k in Contents(u) && p <= k
      ensures Covered(fs, k)
    {
      var h :| h in fs + {f} && Covers(h, k);
    }
    forall a | Placeholder(u, a) && !u[a].watched && !Waiting(s, a)
      ensures Looked(fs, a)
    {
      assert a != q && Placeholder(t, a);
      var h :| h in fs + {f} && h.path == a && !h.Converting?;
    }
  }

  lemma LeafContents(t: Tree, q: Path)
    requires Rooted(t) && Bare(t, q) && t[q].value != ""
    ensures Rooted(t[q := t[q].(dir := false)]) && Contents(t[q := t[q].(dir := false)]) == Contents(t)
  {
  }

  // ---- Whole removals ----------------------------------------------------------------------------

  lemma FramesOf(stack: seq<Frame>, more: seq<Frame>)
    requires stack != []
    ensures var n := |stack| - 1;
            && Frames(stack) == Frames(stack[..n]) + {stack[n]}
            && Frames(stack[..n] + more) == Frames(stack[..n]) + Frames(more)
  {
    var n := |stack| - 1;
    assert stack == stack[..n] + [stack[n]];
  }

  lemma RemovingGood(s: State, fs: set<Frame>, m: map<Path, string>, p: Path, q: Path)
    requires Good(s, fs + {Removing(q)}, m, p)
    ensures var e := Act(s.tree, Removing(q), ""); Good(s.(tree := e.tree), fs + Frames(e.calls), m, p)
  {
    hide HasBelow, Covered, Looked, Settled, Waiting;
    var t, f := s.tree, Removing(q);
    assert f in fs + {f} && p <= q;
    if q !in t {
      assert s.(tree := t) == s && fs + Frames([]) == fs;
      forall k | k in Contents(t)
        ensures !Covers(f, k)
      {
        if q <= k && q != k { Strict(q, k); }
      }
      ReturnGood(s, fs, f, m, p);
    } else if t[q].dir {
      ClearGood(s, fs, m, p, q);
      assert Frames([Looping(q, Children(t, q))]) == {Looping(q, Children(t, q))};
    } else if t[q].watched {
      FoundGood(s, fs, m, p, q);
      assert s.(tree := t) == s && Frames([Converting(q)]) == {Converting(q)};
    } else {
      LeafBare(t, q);
      GoneGood(s, fs, f, m, p, q);
      assert Frames([Cleaning(Parent(q))]) == {Cleaning(Parent(q))};
    }
  }

  lemma LeafBare(t: Tree, q: Path)
    requires Closed(t) && q in t && !t[q].dir
    ensures !HasBelow(t, q)
  {
  }

  lemma LoopingGood(s: State, fs: set<Frame>, m: map<Path, string>, p: Path, q: Path, left: set<string>, c: string)
    requires Good(s, fs + {Looping(q, left)}, m, p) && (left != {} ==> c in left)
    ensures var e := Act(s.tree, Looping(q, left), c); Good(s.(tree := e.tree), fs + Frames(e.calls), m, p)
  {
    hide HasBelow, Covered, Looked, Settled, Waiting, Contents;
    var t, f := s.tree, Looping(q, left);
    assert f in fs + {f} && p <= q;
    if left != {} {
      PickGood(s, fs, m, p, q, left, c);
      var g, r := Looping(q, left - {c}), Removing(q + [c]);
      assert s.(tree := t) == s && Frames([g] + [r]) == {g, r} && Frames([g] + []) == {g};
      assert fs + {g, r} == fs + {g} + {r} && fs + {g} + {} == fs + {g};
    } else if Bare(t, q) && !t[q].watched && q != [] {
      GoneGood(s, fs, f, m, p, q);
      assert Frames([Cleaning(Parent(q))]) == {Cleaning(Parent(q))};
    } else {
      assert s.(tree := t) == s && fs + Frames([]) == fs;
      LoopingOver(s, fs, m, p, q);
    }
  }

  /** The end of `Remove` for a node that stays. */
  lemma LoopingOver(s: State, fs: set<Frame>, m: map<Path, string>, p: Path, q: Path)
    requires Good(s, fs + {Looping(q, {})}, m, p) && !(Bare(s.tree, q) && !s.tree[q].watched && q != [])
    ensures Good(s, fs, m, p)
  {
    hide HasBelow, Contents;
    var f := Looping(q, {});
    forall k | k in Contents(s.tree) && p <= k
      ensures Covered(fs, k)
    {
      var g :| g in fs + {f} && Covers(g, k);
    }
    forall a | Placeholder(s.tree, a) && !s.tree[a].watched && !Waiting(s, a)
      ensures Looked(fs, a)
    {
      var g :| g in fs + {f} && g.path == a && !g.Converting?;
    }
  }

  lemma CleaningGood(s: State, fs: set<Frame>, m: map<Path, string>, p: Path, q: Path)
    requires Good(s, fs + {Cleaning(q)}, m, p)
    ensures var e := Act(s.tree, Cleaning(q), ""); Good(s.(tree := e.tree), fs + Frames(e.calls), m, p)
  {
    hide HasBelow, Covered, Looked, Settled, Waiting;
    var t, f := s.tree, Cleaning(q);
    assert fs + Frames([]) == fs && s.(tree := t) == s;
    if !Bare(t, q) {
      ReturnGood(s, fs, f, m, p);
    } else if t[q].value != "" {
      BackGood(s, fs, m, p, q);
    } else if t[q].watched || q == [] {
      ReturnGood(s, fs, f, m, p);
    } else {
      GoneGood(s, fs, f, m, p, q);
      assert Frames([Cleaning(Parent(q))]) == {Cleaning(Parent(q))};
    }
  }

  lemma ConvertingGood(s: State, fs: set<Frame>, m: map<Path, string>, p: Path, q: Path)
    requires Good(s, fs + {Converting(q)}, m, p)
    ensures var e := Act(s.tree, Converting(q), ""); Good(s.(tree := e.tree), fs + Frames(e.calls), m, p)
  {
    hide HasBelow, Covered, Looked, Settled, Waiting;
    assert fs + Frames([]) == fs && s.(tree := s.tree) == s;
    if q in s.tree {
      ConvertGood(s, fs, m, p, q);
    } else {
      ReturnGood(s, fs, Converting(q), m, p);
    }
  }

  lemma MoveGood(r: Running, v: Move, m: map<Path, string>, p: Path)
    requires Enabled(r, v) && Good(r.state, Frames(r.stack), m, p)
    ensures Good(Take(r, v).state, Frames(Take(r, v).stack), m, p)
  {
    hide Good, Act, Frames;
    match v {
      case Leave(w) => LeaveGood(r.state, Frames(r.stack), m, p, w);
      case Step(c) =>
        var n := |r.stack| - 1;
        var fs, f := Frames(r.stack[..n]), r.stack[n];
        FramesOf(r.stack, Act(r.state.tree, f, c).calls);
        match f {
          case Removing(q) =>
            SameEffect(r.state.tree, f, c);
            RemovingGood(r.state, fs, m, p, q);
          case Converting(q) =>
            SameEffect(r.state.tree, f, c);
            ConvertingGood(r.state, fs, m, p, q);
          case Looping(q, left) => LoopingGood(r.state, fs, m, p, q, left, c);
          case Cleaning(q) =>
            SameEffect(r.state.tree, f, c);
            CleaningGood(r.state, fs, m, p, q);
        }
    }
  }

  lemma SameEffect(t: Tree, f: Frame, c: string)
    requires !f.Looping?
    ensures Act(t, f, c) == Act(t, f, "")
  {
  }

  lemma {:induction false} MovesGood(r: Running, vs: seq<Move>, m: map<Path, string>, p: Path)
    requires EnabledAll(r, vs) && Good(r.state, Frames(r.stack), m, p)
    ensures Good(TakeAll(r, vs).state, Frames(TakeAll(r, vs).stack), m, p)
    decreases |vs|
  {
    hide Good, Enabled, Take;
    if vs != [] {
      MoveGood(r, vs[0], m, p);
      MovesGood(Take(r, vs[0]), vs[1..], m, p);
    }
  }

  /** However a removal and the watchers that leave meanwhile follow each other, once it is over the store
      is in order, every empty directory being watched or waiting to be cleaned, and what is stored is what
      was stored outside the removed path. */
  lemma RemoveWhileLeaving(s: State, p: Path, vs: seq<Move>)
    requires Inv(s) && p in s.tree && EnabledAll(Running(s, [Removing(p)]), vs)
    ensures var r := TakeAll(Running(s, [Removing(p)]), vs);
            r.stack == [] ==> Inv(r.state) && Contents(r.state.tree) == Drop(Contents(s.tree), p)
  {
    hide Good, Inv, EnabledAll, TakeAll;
    BeginGood(s, p);
    MovesGood(Running(s, [Removing(p)]), vs, Drop(Contents(s.tree), p), p);
    var r := TakeAll(Running(s, [Removing(p)]), vs);
    if r.stack == [] {
      assert Frames([]) == {};
      OverGood(r.state, Drop(Contents(s.tree), p), p);
    }
  }

  lemma BeginGood(s: State, p: Path)
    requires Inv(s)
    ensures Good(s, Frames([Removing(p)]), Drop(Contents(s.tree), p), p)
  {
    var f := Removing(p);
    assert Frames([f]) == {f};
    assert p <= p && forall k :: p <= k ==> Covers(f, k);
  }

  lemma OverGood(s: State, m: map<Path, string>, p: Path)
    requires Good(s, {}, m, p)
    ensures Inv(s) && Contents(s.tree) == m
  {
    hide HasBelow;
    forall k | k in Contents(s.tree)
      ensures !(p <= k)
    {
      assert p <= k ==> Covered({}, k);
    }
    assert Drop(Contents(s.tree), p) == Contents(s.tree);
  }

  // ---- Every removal ends ------------------------------------------------------------------------

  ghost function Ahead(t: Tree, p: Path, left: set<string>): set<Path> {
    set k | k in t && Through(p, left, k)
  }

  /** The nodes a call still has to visit, with a surplus for the loop itself. */
  ghost function Work(t: Tree, f: Frame): nat {
    match f
    case Removing(p) => 3 * Weight(t, p)
    case Looping(p, left) => 1 + 3 * |Ahead(t, p, left)|
    case _ => 1
  }

  ghost function Total(t: Tree, stack: seq<Frame>): nat {
    if stack == [] then 0 else Total(t, stack[..|stack| - 1]) + Work(t, stack[|stack| - 1])
  }

  /** The names the loops still have to take. */
  ghost function Names(stack: seq<Frame>): nat {
    if stack == [] then 0
    else
      var f := stack[|stack| - 1];
      Names(stack[..|stack| - 1]) + if f.Looping? then |f.left| else 0
  }

  lemma {:induction false} Sums(t: Tree, a: seq<Frame>, b: seq<Frame>)
    ensures Total(t, a + b) == Total(t, a) + Total(t, b) && Names(a + b) == Names(a) + Names(b)
    decreases |b|
  {
    hide Work;
    if b == [] {
      assert a + b == a;
    } else {
      Sums(t, a, b[..|b| - 1]);
      assert (a + b)[..|a + b| - 1] == a + b[..|b| - 1];
    }
  }

  lemma {:induction false} SameTotal(t: Tree, u: Tree, stack: seq<Frame>)
    requires t.Keys == u.Keys
    ensures Total(t, stack) == Total(u, stack)
    decreases |stack|
  {
    if stack != [] {
      var n := |stack| - 1;
      SameTotal(t, u, stack[..n]);
      SameWork(t, u, stack[n]);
    }
  }

  lemma SameWork(t: Tree, u: Tree, f: Frame)
    requires t.Keys == u.Keys
    ensures Work(t, f) == Work(u, f)
  {
    match f {
      case Removing(p) => assert Below(t, p) == Below(u, p);
      case Looping(p, left) => assert Ahead(t, p, left) == Ahead(u, p, left);
      case _ =>
    }
  }

  /** A step takes a node out, or leaves less work, or no more with fewer names to take, or returns. */
  ghost predicate Shrinks(t: Tree, f: Frame, e: Effect) {
    || |e.tree| < |t|
    || (&& e.tree.Keys == t.Keys && |e.tree| == |t|
        && (|| Total(t, e.calls) < Work(t, f)
            || (Total(t, e.calls) <= Work(t, f) && Names(e.calls) < Names([f]))
            || (Total(t, e.calls) <= Work(t, f) && Names(e.calls) <= Names([f]) && e.calls == [])))
  }

  lemma ActShrinks(t: Tree, f: Frame, c: string)
    requires f.Looping? && f.left != {} ==> c in f.left
    ensures Shrinks(t, f, Act(t, f, c))
  {
    hide HasBelow, Total, Names, Work, Shrinks, Children;
    match f {
      case Removing(p) =>
        if p in t && t[p].dir {
          ClearShrinks(t, p, t[p := t[p].(value := "")]);
        } else if p in t && t[p].watched {
          FoundShrinks(t, p);
        } else {
          ReturnShrinks(t, t, f);
          if p in t && p != [] { OutShrinks(t, f, p); }
        }
      case Converting(p) =>
        ReturnShrinks(t, t, f);
        if p in t { ReturnShrinks(t, t[p := t[p].(dir := true, value := "")], f); }
      case Looping(p, left) =>
        ReturnShrinks(t, t, f);
        if left != {} {
          PickShrinks(t, p, left, c);
        } else if p in t && p != [] {
          OutShrinks(t, f, p);
        }
      case Cleaning(p) =>
        ReturnShrinks(t, t, f);
        if p in t {
          ReturnShrinks(t, t[p := t[p].(dir := false)], f);
          if p != [] { OutShrinks(t, f, p); }
        }
    }
  }

  lemma OutShrinks(t: Tree, f: Frame, p: Path)
    requires p in t && p != []
    ensures Shrinks(t, f, TakeOut(t, p))
  {
    assert (t - {p}).Keys == t.Keys - {p};
    assert |t - {p}| == |(t - {p}).Keys| && |t| == |t.Keys|;
  }

  lemma ReturnShrinks(t: Tree, u: Tree, f: Frame)
    requires t.Keys == u.Keys
    ensures Shrinks(t, f, Effect(u, []))
  {
    hide Work;
    SameSize(t, u);
    One(t, f);
  }

  lemma FoundShrinks(t: Tree, p: Path)
    requires p in t
    ensures Shrinks(t, Removing(p), Effect(t, [Converting(p)]))
  {
    One(t, Converting(p));
    assert p in Below(t, p);
  }

  lemma ClearShrinks(t: Tree, p: Path, u: Tree)
    requires p in t && t.Keys == u.Keys
    ensures Shrinks(t, Removing(p), Effect(u, [Looping(p, Children(t, p))]))
  {
    hide Children;
    var g := Looping(p, Children(t, p));
    SameSize(t, u);
    One(t, g);
    assert p in Below(t, p);
    Fewer(Ahead(t, p, g.left) + {p}, Below(t, p));
  }

  lemma One(t: Tree, f: Frame)
    ensures Total(t, [f]) == Work(t, f) && Names([f]) == if f.Looping? then |f.left| else 0
    ensures Total(t, []) == 0 && Names([]) == 0
  {
    hide Work;
    assert [f][..0] == [];
  }

  lemma SameSize(t: Tree, u: Tree)
    requires t.Keys == u.Keys
    ensures |t| == |u|
  {
    assert |t| == |t.Keys| && |u| == |u.Keys|;
  }

  lemma PickShrinks(t: Tree, p: Path, left: set<string>, c: string)
    requires c in left
    ensures Shrinks(t, Looping(p, left), Act(t, Looping(p, left), c))
  {
    hide Ahead, Total, Names;
    var f, g, r := Looping(p, left), Looping(p, left - {c}), Removing(p + [c]);
    One(t, f);
    One(t, g);
    One(t, r);
    Sums(t, [g], [r]);
    Sums(t, [g], []);
    PickAhead(t, p, left, c);
    assert |left - {c}| == |left| - 1;
  }

  lemma PickAhead(t: Tree, p: Path, left: set<string>, c: string)
    requires c in left
    ensures |Ahead(t, p, left)| == |Ahead(t, p, left - {c})| + Weight(t, p + [c])
  {
    forall k | k in t
      ensures Through(p, left, k) <==> Through(p, left - {c}, k) || p + [c] <= k
      ensures !(Through(p, left - {c}, k) && p + [c] <= k)
    {
      StepDown(p, c, k);
    }
    assert Ahead(t, p, left) == Ahead(t, p, left - {c}) + Below(t, p + [c]);
    assert Ahead(t, p, left - {c}) !! Below(t, p + [c]);
  }

  ghost predicate Smaller(a: Running, b: Running) {
    var t, u := a.state.tree, b.state.tree;
    || |t| < |u|
    || (|t| == |u| &&
        (|| Total(t, a.stack) < Total(u, b.stack)
         || (Total(t, a.stack) == Total(u, b.stack) &&
             (Names(a.stack) < Names(b.stack) || (Names(a.stack) == Names(b.stack) && |a.stack| < |b.stack|)))))
  }

  /** Every step of the removal brings its end nearer, and no watcher that leaves puts it off. */
  lemma MoveShrinks(r: Running, v: Move)
    requires Enabled(r, v)
    ensures v.Step? ==> Smaller(Take(r, v), r)
    ensures v.Leave? ==> var u := Take(r, v);
              && u.stack == r.stack && |u.state.tree| == |r.state.tree|
              && Total(u.state.tree, u.stack) == Total(r.state.tree, r.stack)
  {
    hide Total, Names, Act, HasBelow;
    var t := r.state.tree;
    match v {
      case Leave(w) =>
        SameSize(t, UnwatchAt(t, w));
        SameTotal(t, UnwatchAt(t, w), r.stack);
      case Step(c) =>
        var n := |r.stack| - 1;
        var f, rest := r.stack[n], r.stack[..n];
        var e := Act(t, f, c);
        assert r.stack == rest + [f];
        ActShrinks(t, f, c);
        Sums(t, rest, [f]);
        Sums(t, rest, e.calls);
        One(t, f);
        if e.tree.Keys == t.Keys { SameTotal(t, e.tree, rest + e.calls); }
    }
  }

  /** So a removal always comes to its end. */
  lemma {:induction false} Finishes(r: Running) returns (vs: seq<Move>)
    ensures EnabledAll(r, vs) && TakeAll(r, vs).stack == []
    decreases |r.state.tree|, Total(r.state.tree, r.stack), Names(r.stack), |r.stack|
  {
    hide Total, Names, Act;
    vs := [];
    if r.stack != [] {
      var f := r.stack[|r.stack| - 1];
      var c := "";
      if f.Looping? && f.left != {} { c :| c in f.left; }
      MoveShrinks(r, Step(c));
      var more := Finishes(Take(r, Step(c)));
      vs := [Step(c)] + more;
      assert vs[1..] == more;
    }
  }

  // ---- A removal left alone, and watchers that stay -------------------------------------------------

  /** What a call comes to if it runs to its end at once. */
  ghost function Outcome(t: Tree, f: Frame): Tree {
    match f
    case Removing(p) => if p in t then Remove(t, p) else t
    case Converting(p) => if p in t then t[p := t[p].(dir := true, value := "")] else t
    case Looping(p, left) => Clean(EmptyKids(t, p, left), p)
    case Cleaning(p) => Clean(t, p)
  }

  ghost function Outcomes(t: Tree, stack: seq<Frame>): Tree
    decreases |stack|
  {
    if stack == [] then t else Outcomes(Outcome(t, stack[|stack| - 1]), stack[..|stack| - 1])
  }

  /** The directories whose loops are running have lost their values. */
  ghost predicate Emptied(t: Tree, fs: set<Frame>) {
    forall f :: f in fs && f.Looping? && f.path in t ==> t[f.path].value == ""
  }

  /** A removal during which no watcher leaves does in its many steps, in any order of the children, what
      `Remove` does at once. */
  lemma RemoveAlone(s: State, p: Path, vs: seq<Move>)
    requires Rooted(s.tree) && p in s.tree && EnabledAll(Running(s, [Removing(p)]), vs)
    requires forall v :: v in vs ==> v.Step?
    ensures var r := TakeAll(Running(s, [Removing(p)]), vs);
            r.stack == [] ==> r.state == s.(tree := Remove(s.tree, p))
  {
    hide Remove, Rooted, EnabledAll, TakeAll;
    var r := Running(s, [Removing(p)]);
    assert r.stack[..0] == [];
    assert Outcomes(s.tree, r.stack) == Outcomes(Outcome(s.tree, Removing(p)), []);
    StepsKept(r, vs);
  }

  lemma {:induction false} StepsKept(r: Running, vs: seq<Move>)
    requires Rooted(r.state.tree) && Emptied(r.state.tree, Frames(r.stack)) && EnabledAll(r, vs)
    requires forall v :: v in vs ==> v.Step?
    ensures var u := TakeAll(r, vs);
            && Outcomes(u.state.tree, u.stack) == Outcomes(r.state.tree, r.stack)
            && u.state == r.state.(tree := u.state.tree)
    decreases |vs|
  {
    hide Rooted, Emptied, Outcome, Act, Frames;
    if vs != [] {
      assert vs[0] in vs;
      var c, n := vs[0].child, |r.stack| - 1;
      var t, rest, f := r.state.tree, r.stack[..n], r.stack[n];
      var e := Act(t, f, c);
      FramesOf(r.stack, e.calls);
      OutcomeKept(t, Frames(rest), f, c);
      OutcomesConcat(e.tree, rest, e.calls);
      StepsKept(Take(r, vs[0]), vs[1..]);
    }
  }

  lemma {:induction false} OutcomesConcat(t: Tree, a: seq<Frame>, b: seq<Frame>)
    ensures Outcomes(t, a + b) == Outcomes(Outcomes(t, b), a)
    decreases |b|
  {
    hide Outcome;
    if b == [] {
      assert a + b == a;
    } else {
      var n := |b| - 1;
      assert (a + b)[..|a + b| - 1] == a + b[..n];
      OutcomesConcat(Outcome(t, b[n]), a, b[..n]);
    }
  }

  /** A step leaves a call with the same outcome. */
  lemma OutcomeKept(t: Tree, fs: set<Frame>, f: Frame, c: string)
    requires Rooted(t) && Emptied(t, fs + {f})
    requires f.Looping? && f.left != {} ==> c in f.left
    ensures var e := Act(t, f, c);
            && Rooted(e.tree) && Emptied(e.tree, fs + Frames(e.calls))
            && Outcomes(e.tree, e.calls) == Outcome(t, f)
  {
    hide Outcomes, Outcome, Act, Rooted, Emptied;
    ActKeeps(t, fs, f, c);
    match f {
      case Removing(p) => RemovingKept(t, p, c);
      case Converting(p) => ConvertingKept(t, p, c);
      case Looping(p, left) =>
        EmptiedHere(t, fs, f);
        if left != {} { PickKept(t, p, left, c); } else { LoopOver(t, p, c); }
      case Cleaning(p) => CleaningKept(t, p, c);
    }
  }

  lemma EmptiedHere(t: Tree, fs: set<Frame>, f: Frame)
    requires Emptied(t, fs + {f})
    ensures f.Looping? && f.path in t ==> t[f.path].value == ""
  {
  }

  /** No step gives a value, or takes out a node that has others below. */
  lemma ActKeeps(t: Tree, fs: set<Frame>, f: Frame, c: string)
    requires Rooted(t) && Emptied(t, fs + {f})
    ensures var e := Act(t, f, c); Rooted(e.tree) && Emptied(e.tree, fs + Frames(e.calls))
  {
    hide Children;
    var e := Act(t, f, c);
    assert forall g :: g in Frames(e.calls) && g.Looping? ==> g.path == f.path;
    assert f.Removing? && f.path in t && !t[f.path].dir ==> !HasBelow(t, f.path);
    assert f.path in e.tree && !e.tree[f.path].dir ==> !HasBelow(t, f.path);
  }

  lemma NoCalls(t: Tree, f: Frame)
    ensures Outcomes(t, []) == t && Outcomes(t, [f]) == Outcome(t, f)
  {
    hide Outcome;
    assert [f][..0] == [];
  }

  lemma TwoCalls(t: Tree, f: Frame, g: Frame)
    ensures Outcomes(t, [f, g]) == Outcome(Outcome(t, g), f)
  {
    hide Outcome;
    assert [f, g][..1] == [f];
    NoCalls(Outcome(t, g), f);
  }

  lemma ConvertingKept(t: Tree, p: Path, c: string)
    ensures var e := Act(t, Converting(p), c); Outcomes(e.tree, e.calls) == Outcome(t, Converting(p))
  {
  }

  lemma CleaningKept(t: Tree, p: Path, c: string)
    ensures var e := Act(t, Cleaning(p), c); Outcomes(e.tree, e.calls) == Outcome(t, Cleaning(p))
  {
    hide Outcomes;
    var e := Act(t, Cleaning(p), c);
    NoCalls(e.tree, Cleaning(if p == [] then p else Parent(p)));
  }

  lemma RemovingKept(t: Tree, p: Path, c: string)
    requires Rooted(t)
    ensures var e := Act(t, Removing(p), c); Outcomes(e.tree, e.calls) == Outcome(t, Removing(p))
  {
    hide Outcomes, Clean, Children, Remove;
    var e := Act(t, Removing(p), c);
    NoCalls(e.tree, if e.calls == [] then Removing(p) else e.calls[0]);
    if p in t {
      if t[p].dir {
        LoopBegins(t, p);
      } else {
        LeafOut(t, p);
      }
    }
  }

  lemma LeafOut(t: Tree, p: Path)
    requires Rooted(t) && p in t && !t[p].dir
    ensures p != []
    ensures Remove(t, p) ==
              if t[p].watched then t[p := t[p].(dir := true, value := "")] else Clean(t - {p}, Parent(p))
  {
    hide Clean;
    assert forall q :: q in t && p <= q ==> q == p;
    assert p <= p && (Survives(t, p) <==> t[p].watched);
    if t[p].watched {
      assert Empty(t, p) == t[p := t[p].(dir := true, value := "")];
    } else {
      assert Empty(t, p) == t - {p};
    }
  }

  /** A directory that lost its value and has all its children still to remove. */
  lemma LoopBegins(t: Tree, p: Path)
    requires Rooted(t) && p in t && t[p].dir
    ensures Clean(EmptyKids(t[p := t[p].(value := "")], p, Children(t, p)), p) == Remove(t, p)
  {
    hide HasBelow, EmptyKids, Empty, Weight;
    var u, all := t[p := t[p].(value := "")], Children(t, p);
    RemoveIgnoresTop(t, p, u[p]);
    forall c | p + [c] in u
      ensures c in all
    {
      assert p + [c] in t && p < p + [c];
    }
    EmptyKidsAll(u, p, all);
    EmptyKidsTop(u, p, all);
  }

  lemma LoopOver(t: Tree, p: Path, c: string)
    requires p in t ==> t[p].value == ""
    ensures var e := Act(t, Looping(p, {}), c); Outcomes(e.tree, e.calls) == Outcome(t, Looping(p, {}))
  {
    hide Outcomes;
    var e := Act(t, Looping(p, {}), c);
    EmptyKidsNone(t, p);
    NoCalls(e.tree, Cleaning(if p == [] then p else Parent(p)));
  }

  lemma PickKept(t: Tree, p: Path, left: set<string>, c: string)
    requires Rooted(t) && c in left && (p in t ==> t[p].value == "")
    ensures var e := Act(t, Looping(p, left), c); Outcomes(e.tree, e.calls) == Outcome(t, Looping(p, left))
  {
    hide Outcomes, Clean, EmptyKids, Remove, Rooted;
    var e := Act(t, Looping(p, left), c);
    var g, r := Looping(p, left - {c}), Removing(p + [c]);
    KidsSplit(t, p, left, c);
    if p + [c] in t {
      assert e.calls == [g, r];
      TwoCalls(t, g, r);
      KidKept(t, p, left, c);
    } else {
      assert e.calls == [g];
      NoCalls(t, g);
      KidMissing(t, p, c);
    }
  }

  /** The children may be taken one after the other. */
  lemma KidsSplit(t: Tree, p: Path, left: set<string>, c: string)
    requires c in left
    ensures EmptyKids(EmptyKids(t, p, {c}), p, left - {c}) == EmptyKids(t, p, left)
  {
    var u := EmptyKids(t, p, {c});
    forall q | p < q && q[|p|] != c
      ensures (q in u <==> q in t) && (q in t ==> u[q] == t[q])
      ensures Survives(u, q) <==> Survives(t, q)
    {
      forall w | q <= w
        ensures w in u <==> w in t
        ensures w in t ==> u[w] == t[w]
      {
        assert w[|p|] == q[|p|];
      }
    }
    assert forall q :: Through(p, left, q) <==> Through(p, left - {c}, q) || Through(p, {c}, q);
  }

  lemma KidMissing(t: Tree, p: Path, c: string)
    requires Rooted(t) && p + [c] !in t
    ensures EmptyKids(t, p, {c}) == t
  {
    forall q | q in t
      ensures !Through(p, {c}, q)
    {
      if Through(p, {c}, q) { ChildOnTheWay(t, p, q); }
    }
  }

  lemma KidKept(t: Tree, p: Path, left: set<string>, c: string)
    requires Rooted(t) && p + [c] in t && c in left && (p in t ==> t[p].value == "")
    ensures Clean(EmptyKids(Remove(t, p + [c]), p, left - {c}), p) ==
            Clean(EmptyKids(EmptyKids(t, p, {c}), p, left - {c}), p)
  {
    hide Remove, Clean, EmptyKids;
    assert p < p + [c];
    var e, u := EmptyKids(t, p, {c}), Remove(t, p + [c]);
    EmptyKidsNone(t, p);
    assert {} + {c} == {c};
    KidRemoved(t, p, {}, c);
    if !(HasBelow(e, p) || t[p].watched || p == []) {
      EmptyKidsTop(t, p, {c});
      OnlyKid(t, p, c);
      NothingMore(e, p, left - {c});
      NothingMore(u, p, left - {c});
      CleanAbsent(u, p);
    }
  }

  lemma NothingMore(t: Tree, p: Path, left: set<string>)
    requires !HasBelow(t, p)
    ensures EmptyKids(t, p, left) == t
  {
  }

  /** When the last child takes its parent with it, nothing is left below. */
  lemma OnlyKid(t: Tree, p: Path, c: string)
    requires Rooted(t) && p in t && t[p].dir && t[p].value == "" && !t[p].watched && p != []
    requires !HasBelow(EmptyKids(t, p, {c}), p)
    ensures Clean(EmptyKids(t, p, {c}), p) == Remove(t, p)
    ensures !HasBelow(Remove(t, p), p)
  {
    hide Clean, Survives;
    var e := EmptyKids(t, p, {c});
    EmptyKidsTop(t, p, {c});
    if Survives(t, p) {
      Held(t, p, c);
      assert false;
    }
    forall q | q in t && p < q
      ensures !Survives(t, q)
    {
      assert q !in e;
    }
    assert forall q :: q in e ==> !(p < q);
    assert forall q :: q in e ==> (p <= q <==> q == p) by {
      forall q | q in e && p <= q ensures q == p { if q != p { Strict(p, q); } }
    }
    assert forall q :: q in Empty(t, p) <==> q in e && q != p;
    assert e - {p} == Empty(t, p);
    CleanShrinks(Empty(t, p), Parent(p));
    assert Clean(e, p) == Clean(e - {p}, Parent(p)) by { CleanBare(e, p); }
  }

  lemma Held(t: Tree, p: Path, c: string)
    requires p in t && !t[p].watched && p != [] && Survives(t, p)
    ensures HasBelow(EmptyKids(t, p, {c}), p)
  {
    var w :| w in t && p <= w && t[w].watched;
    Strict(p, w);
    assert w <= w && Survives(t, w);
    assert w in EmptyKids(t, p, {c});
  }

  lemma CleanBare(t: Tree, p: Path)
    requires Bare(t, p) && t[p].value == "" && !t[p].watched && p != []
    ensures Clean(t, p) == Clean(t - {p}, Parent(p))
  {
  }

  /** A node whose watchers stay is never taken out. */
  lemma {:induction false} WatchersStay(r: Running, vs: seq<Move>, w: Path)
    requires EnabledAll(r, vs) && w in r.state.tree && r.state.tree[w].watched && Leave(w) !in vs
    ensures var u := TakeAll(r, vs); w in u.state.tree && u.state.tree[w].watched
    decreases |vs|
  {
    hide HasBelow, Children;
    if vs != [] {
      WatchersStay(Take(r, vs[0]), vs[1..], w);
    }
  }
}
