/** What every reachable state of a store keeps, and exactly what `Remove` and `Clean` leave. */
module Invariants {
  import opened Paths
  import opened Trees
  import opened Machine

  /** A directory without children hides no value. */
  ghost predicate Tidy(t: Tree) {
    forall p :: p in t && t[p].dir && !HasBelow(t, p) ==> t[p].value == ""
  }

  /** A directory that shows nothing: childless, and not the root. */
  ghost predicate Placeholder(t: Tree, p: Path) {
    p in t && t[p].dir && !HasBelow(t, p) && p != []
  }

  /** Every placeholder is watched, or its path waits to be cleaned, or that message was lost. */
  ghost predicate Accounted(s: State) {
    forall p :: Placeholder(s.tree, p) ==> s.tree[p].watched || p in s.queue || p in s.lost
  }

  ghost predicate Inv(s: State) {
    Rooted(s.tree) && Tidy(s.tree) && Accounted(s)
  }

  lemma InitInv()
    ensures Inv(INIT)
  {
  }

  // ---- Cleaning --------------------------------------------------------------------------

  /** Everything on the way from `s` down to `p`, `s` excluded. */
  ghost predicate Between(s: Path, q: Path, p: Path) {
    s < q && q <= p
  }

  /** `Clean` takes out a chain of nodes ending at `p` and stops at the first node above that is
      a leaf, has another child, is watched, is the root or hides a value; one that hides a value
      turns back into a leaf. */
  ghost predicate CleanedTo(t: Tree, p: Path, s: Path, u: Tree) {
    && s <= p && s in t && s in u
    && (forall q :: q in u <==> q in t && !Between(s, q, p))
    && (forall q :: q in t && Between(s, q, p) ==> t[q] == Cell(true, "", false))
    && (forall q, r :: q in t && Between(s, r, p) && r <= q ==> q <= p)
    && (forall q :: q in u && q != s ==> u[q] == t[q])
    && (!t[s].dir || HasBelow(u, s) || t[s].watched || s == [] || t[s].value != "")
    && u[s] == t[s].(dir := t[s].dir && (HasBelow(u, s) || t[s].value == ""))
  }

  lemma {:induction false} CleanStops(t: Tree, p: Path) returns (s: Path)
    requires Rooted(t) && p in t
    ensures CleanedTo(t, p, s, Clean(t, p))
    decreases |p|
  {
    if !t[p].dir || HasBelow(t, p) || t[p].value != "" || t[p].watched || p == [] {
      s := p;
      var u := Clean(t, p);
      assert u.Keys == t.Keys;
      assert HasBelow(u, p) <==> HasBelow(t, p);
      assert forall q :: !Between(p, q, p);
    } else {
      GoneRooted(t, p);
      var d := Parent(p);
      assert d < p;
      s := CleanStops(t - {p}, d);
      OneFurther(t, p, s, Clean(t, p));
    }
  }

  lemma GoneRooted(t: Tree, p: Path)
    requires Rooted(t) && p in t && p != [] && !HasBelow(t, p)
    ensures Rooted(t - {p})
  {
  }

  lemma OneFurther(t: Tree, p: Path, s: Path, u: Tree)
    requires p in t && p != [] && t[p] == Cell(true, "", false) && !HasBelow(t, p)
    requires CleanedTo(t - {p}, Parent(p), s, u)
    ensures CleanedTo(t, p, s, u)
  {
    var d := Parent(p);
    assert p == d + [Last(p)] && d < p && s < p;
    forall q
      ensures Between(s, q, p) <==> Between(s, q, d) || q == p
    {
      PrefixOfChild(q, d, Last(p));
    }
    forall q, r | q in t && Between(s, r, p) && r <= q
      ensures q <= p
    {
      if r == p {
        if q != p { Strict(p, q); }
      } else if q != p {
        assert Between(s, r, d) && q in t - {p};
        PrefixOfChild(q, d, Last(p));
      }
    }
  }

  /** Cleaning keeps the tree in order, and leaves no placeholder that was not one before. */
  lemma CleanKeeps(t: Tree, p: Path)
    requires Rooted(t) && p in t
    requires forall q :: q in t && q != p && t[q].dir && !HasBelow(t, q) ==> t[q].value == ""
    ensures Rooted(Clean(t, p)) && Tidy(Clean(t, p))
    ensures forall q :: Placeholder(Clean(t, p), q) ==>
              (Placeholder(t, q) && q != p && t[q] == Clean(t, p)[q]) || Clean(t, p)[q].watched
  {
    var s := CleanStops(t, p);
    var u := Clean(t, p);
    CleanedRooted(t, p, s, u);
    forall q | q in u && u[q].dir && !HasBelow(u, q) && q != s
      ensures q != p && !HasBelow(t, q) && u[q] == t[q]
    {
      CleanedChildless(t, p, s, u, q);
    }
  }

  lemma CleanedRooted(t: Tree, p: Path, s: Path, u: Tree)
    requires Rooted(t) && CleanedTo(t, p, s, u)
    ensures Rooted(u)
  {
  }

  /** A node left childless, other than the one where cleaning stopped, was childless before. */
  lemma CleanedChildless(t: Tree, p: Path, s: Path, u: Tree, q: Path)
    requires CleanedTo(t, p, s, u) && q in u && q != s && !HasBelow(u, q)
    ensures q != p && !HasBelow(t, q)
  {
  }

  // ---- Removing ----------------------------------------------------------------------------

  lemma EmptyRooted(t: Tree, p: Path)
    requires Rooted(t)
    ensures Rooted(Empty(t, p))
  {
  }

  lemma ParentKept(t: Tree, p: Path)
    requires Rooted(t) && p in t && p != []
    ensures Parent(p) in Empty(t, p) || p in Empty(t, p)
  {
  }

  /** In the emptied tree a childless directory was childless before, or is watched; only the
      parent of `p` may have lost its last child. */
  lemma EmptyChildless(t: Tree, p: Path, q: Path)
    requires Rooted(t) && p in t
    requires q in Empty(t, p) && Empty(t, p)[q].dir && !HasBelow(Empty(t, p), q)
    requires p in Empty(t, p) || p == [] || q != Parent(p)
    ensures p <= q ==> Empty(t, p)[q].value == "" && (q == [] || Empty(t, p)[q].watched)
    ensures !(p <= q) ==> !HasBelow(t, q) && Empty(t, p)[q] == t[q]
  {
    var e := Empty(t, p);
    if p <= q {
      if q != [] {
        var w :| w in t && q <= w && t[w].watched;
        assert Survives(t, w) && w in e by { assert w <= w; }
        if w != q {
          Strict(q, w);
        }
      }
    } else if r :| r in t && q < r {
      assert r !in e && p <= r;
      PrefixesCompare(q, p, r);
      assert q < p;
      if p != [] { ParentKept(t, p); }
    }
  }

  lemma EmptyKeeps(t: Tree, p: Path)
    requires Rooted(t) && Tidy(t) && p in t
    ensures var e := Empty(t, p);
            forall q :: q in e && e[q].dir && !HasBelow(e, q) && (p in e || p == [] || q != Parent(p)) ==>
              e[q].value == "" && (q == [] || e[q].watched || (Placeholder(t, q) && t[q] == e[q]))
  {
    var e := Empty(t, p);
    forall q | q in e && e[q].dir && !HasBelow(e, q) && (p in e || p == [] || q != Parent(p))
      ensures e[q].value == "" && (q == [] || e[q].watched || (Placeholder(t, q) && t[q] == e[q]))
    {
      EmptyChildless(t, p, q);
    }
  }

  lemma RemoveKeeps(t: Tree, p: Path)
    requires Rooted(t) && Tidy(t) && p in t
    ensures Rooted(Remove(t, p)) && Tidy(Remove(t, p))
    ensures forall q :: Placeholder(Remove(t, p), q) ==>
              (Placeholder(t, q) && t[q] == Remove(t, p)[q]) || Remove(t, p)[q].watched
  {
    hide Empty, Clean, Closed;
    EmptyRooted(t, p);
    EmptyKeeps(t, p);
    if p !in Empty(t, p) && p != [] {
      ParentKept(t, p);
      CleanKeeps(Empty(t, p), Parent(p));
    }
  }

  /** What `Remove` leaves, node by node: below and at `p` the nodes that are watched or lead to
      a watched one, as directories without values; outside, everything, except that when `p`
      itself is gone its parent is cleaned up to some ancestor `s`. */
  lemma RemoveResult(t: Tree, p: Path) returns (s: Path)
    requires Rooted(t) && p in t
    ensures forall q :: q in t && p <= q ==>
              (q in Remove(t, p) <==> q == [] || exists w :: w in t && q <= w && t[w].watched)
    ensures forall q :: q in Remove(t, p) && p <= q ==> q in t && Remove(t, p)[q] == Cell(true, "", t[q].watched)
    ensures p in Remove(t, p) ==> forall q :: !(p <= q) ==> (q in Remove(t, p) <==> q in t)
    ensures p in Remove(t, p) ==> forall q :: q in t && !(p <= q) ==> Remove(t, p)[q] == t[q]
    ensures p !in Remove(t, p) ==> p != [] && CleanedTo(Empty(t, p), Parent(p), s, Remove(t, p))
  {
    var e := Empty(t, p);
    s := [];
    EmptyRooted(t, p);
    if p !in e {
      var d := Parent(p);
      assert d < p && d in e;
      s := CleanStops(e, d);
      assert forall q :: q in e ==> !(p <= q) by { NoneSurvives(t, p); }
      forall q | q in t && p <= q
        ensures !Survives(t, q)
      {
        NoneSurvives(t, p);
      }
    }
  }

  lemma NoneSurvives(t: Tree, p: Path)
    requires p in t && p !in Empty(t, p)
    ensures forall q :: q in t && p <= q ==> !Survives(t, q) && q !in Empty(t, p)
  {
  }

  // ---- Every operation, every run ------------------------------------------------------------

  lemma BulkKeeps(t: Tree, kvs: map<Path, string>)
    requires Rooted(t) && Tidy(t)
    ensures Rooted(Bulk(t, kvs)) && Tidy(Bulk(t, kvs))
    ensures forall q :: Placeholder(Bulk(t, kvs), q) ==> Placeholder(t, q) && Bulk(t, kvs)[q] == t[q]
  {
    BulkRooted(t, kvs);
    var b := Bulk(t, kvs);
    forall q | q in b && b[q].dir && !HasBelow(b, q)
      ensures q == [] || (Placeholder(t, q) && b[q] == t[q])
    {
      BulkBelow(t, kvs, q);
      assert b[q] == BulkCell(t, kvs, q);
    }
  }

  lemma SameKeys(t: Tree, u: Tree, q: Path)
    requires t.Keys == u.Keys
    ensures HasBelow(t, q) <==> HasBelow(u, q)
  {
  }

  lemma ReachBelow(t: Tree, p: Path, q: Path)
    ensures HasBelow(Reach(t, p), q) <==> HasBelow(t, q) || q in Above(p)
  {
    var r := Reach(t, p);
    if HasBelow(r, q) {
      var k :| k in r && q < k;
      assert k in t || k <= p;
    }
    assert p in r;
    if k :| k in t && q < k {
      assert k in r;
    }
  }

  lemma WatchKeeps(t: Tree, p: Path)
    requires Rooted(t) && Tidy(t)
    ensures Rooted(WatchAt(t, p)) && Tidy(WatchAt(t, p))
    ensures forall q :: Placeholder(WatchAt(t, p), q) ==>
              (Placeholder(t, q) && t[q] == WatchAt(t, p)[q]) || WatchAt(t, p)[q].watched
  {
    hide HasBelow, Closed;
    ReachClosed(t, p);
    WatchedRooted(Reach(t, p), p);
    forall q | q in WatchAt(t, p) && WatchAt(t, p)[q].dir && !HasBelow(WatchAt(t, p), q)
      ensures WatchAt(t, p)[q].value == ""
      ensures WatchAt(t, p)[q].watched || (q in t && t[q].dir && !HasBelow(t, q) && WatchAt(t, p)[q] == t[q])
    {
      if q in Prefixes(p) && q != p { Strict(q, p); }
      SameKeys(Reach(t, p), WatchAt(t, p), q);
      ReachBelow(t, p, q);
    }
  }

  lemma WatchedRooted(t: Tree, p: Path)
    requires Closed(t) && p in t && [] in t && t[[]].dir && t[[]].value == ""
    ensures Rooted(t[p := t[p].(watched := true)])
  {
  }

  lemma ApplyInv(s: State, op: Op)
    requires Inv(s)
    ensures Inv(Apply(s, op))
  {
    match op {
      case Put(p, v) =>
        if p != [] { BulkKeeps(s.tree, map[p := v]); }
      case PutBulk(p, kvs) => BulkKeeps(s.tree, Under(p, kvs));
      case Delete(p) =>
        if p in s.tree { RemoveKeeps(s.tree, p); }
      case Watch(p) => WatchKeeps(s.tree, p);
      case Unwatch(p) => UnwatchInv(s, p);
      case CleanStep =>
        if s.queue != [] { CleanInv(s); }
    }
  }

  lemma Enqueued(s: State, p: Path)
    ensures var u := Enqueue(s, p);
            && u.tree == s.tree && u.version == s.version
            && (p in u.queue || p in u.lost)
            && forall q :: q in s.queue || q in s.lost ==> q in u.queue || q in u.lost
  {
  }

  lemma UnwatchInv(s: State, p: Path)
    requires Inv(s)
    ensures Inv(Apply(s, Unwatch(p)))
  {
    hide HasBelow, Enqueue, Closed;
    var u := Apply(s, Unwatch(p));
    Enqueued(s.(tree := UnwatchAt(s.tree, p)), p);
    UnwatchedRooted(s.tree, p);
    forall q
      ensures HasBelow(s.tree, q) <==> HasBelow(u.tree, q)
    {
      SameKeys(s.tree, u.tree, q);
    }
  }

  lemma UnwatchedRooted(t: Tree, p: Path)
    requires Rooted(t)
    ensures Rooted(UnwatchAt(t, p))
  {
  }

  lemma CleanInv(s: State)
    requires Inv(s) && s.queue != []
    ensures Inv(Apply(s, CleanStep))
  {
    var u := Apply(s, CleanStep);
    var h := s.queue[0];
    if h in s.tree {
      CleanKeeps(s.tree, h);
    }
    forall q | Placeholder(u.tree, q) && !u.tree[q].watched
      ensures q in u.queue || q in u.lost
    {
      assert Placeholder(s.tree, q) && q != h;
      assert s.queue == [h] + u.queue;
    }
  }

  /** Every state a store can reach. */
  lemma {:induction false} RunInv(ops: seq<Op>)
    ensures Inv(Run(INIT, ops))
    decreases |ops|
  {
    if ops == [] {
      InitInv();
    } else {
      RunInv(ops[..|ops| - 1]);
      ApplyInv(Run(INIT, ops[..|ops| - 1]), ops[|ops| - 1]);
    }
  }
}
