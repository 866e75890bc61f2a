/** What can be read of what is stored, whatever is watched; the tree as the unique trie of its
    contents; and what equal versions promise. */
module Visibility {
  import opened Paths
  import opened Trees
  import opened Machine
  import opened Invariants
  import opened Refinement
  import opened Values

  // ---- Reading ---------------------------------------------------------------------------------

  /** A path that is watched, or whose watch is over but whose node waits to be cleaned. */
  ghost predicate Held(s: State, w: Path) {
    (w in s.tree && s.tree[w].watched) || w in s.queue || w in s.lost
  }

  /** No key that a reader should see lies strictly above a node that is held. */
  ghost predicate Unhidden(s: State, m: map<Path, string>) {
    forall k, w :: k in Maximal(m) && w in s.tree && Held(s, w) ==> !(k < w)
  }

  /** Watches are transparent to readers exactly if no stored key that has no key below it lies
      strictly above a node that is watched or waits to be cleaned. */
  lemma SeenThroughWatches(s: State)
    requires Inv(s)
    ensures Visible(s.tree) == Maximal(Contents(s.tree)) <==> Unhidden(s, Contents(s.tree))
  {
    hide Closed, Tidy, Accounted;
    if Unhidden(s, Contents(s.tree)) {
      forall k | k in Maximal(Contents(s.tree))
        ensures k in Visible(s.tree)
      {
        if s.tree[k].dir { HiddenByHeld(s, k); }
      }
      forall k | k in Visible(s.tree)
        ensures k in Maximal(Contents(s.tree))
      {
        LeafMaximal(s.tree, k);
      }
      assert Visible(s.tree) == Maximal(Contents(s.tree));
    } else {
      var k, w :| k in Maximal(Contents(s.tree)) && w in s.tree && Held(s, w) && k < w;
      assert s.tree[k].dir by { AboveIsDir(s.tree, k, w); }
      assert k !in Visible(s.tree);
    }
  }

  lemma AboveIsDir(t: Tree, k: Path, w: Path)
    requires Rooted(t) && w in t && k < w
    ensures k in t && t[k].dir
  {
  }

  lemma LeafMaximal(t: Tree, k: Path)
    requires Rooted(t) && k in Visible(t)
    ensures k in Maximal(Contents(t))
  {
  }

  lemma NotMaximal(t: Tree, k: Path, l: Path)
    requires l in t && !t[l].dir && k < l
    ensures k !in Maximal(Contents(t))
  {
    assert l in Contents(t);
  }

  /** A stored key without keys below it is hidden only by a node that is held. */
  lemma HiddenByHeld(s: State, k: Path)
    requires Inv(s) && k in Maximal(Contents(s.tree)) && s.tree[k].dir
    ensures exists w :: w in s.tree && Held(s, w) && k < w
  {
    var t := s.tree;
    assert HasBelow(t, k);
    var q :| q in t && k < q;
    if forall r :: r in t && q <= r ==> !Placeholder(t, r) {
      var l := LeafUnder(t, q);
      NotMaximal(t, k, l);
    } else {
      var r :| r in t && q <= r && Placeholder(t, r);
      assert Held(s, r) && k < r;
    }
  }

  /** A new watch hides something exactly if a visible key lies strictly above it, and then it hides
      just that key. */
  lemma WatchHides(t: Tree, p: Path)
    requires Rooted(t)
    ensures Visible(WatchAt(t, p)) == Visible(t) <==> forall k :: k in Visible(t) ==> !(k < p)
    ensures Visible(WatchAt(t, p)) == map k | k in Visible(t) && !(k < p) :: Visible(t)[k]
  {
    var w := WatchAt(t, p);
    var m := map k | k in Visible(t) && !(k < p) :: Visible(t)[k];
    forall k
      ensures k in Visible(w) <==> k in m
      ensures k in m ==> Visible(w)[k] == m[k]
    {
      assert k in Above(p) <==> k < p;
    }
    assert Visible(w) == m;
    if k :| k in Visible(t) && k < p {
      assert k !in m;
    } else {
      assert m == Visible(t);
    }
  }

  /** A key above a watched path disappears for readers though it is stored. */
  lemma WatchedBelowIsHidden()
    ensures var s := Run(INIT, [Put(["a"], "1"), Op.Watch(["a", "b"])]);
            && Contents(s.tree) == map[["a"] := "1"] == FlatRun([Put(["a"], "1"), Op.Watch(["a", "b"])])
            && Visible(s.tree) == map[]
  {
    hide Visible, Contents, WatchAt, Apply;
    var a: Path, w: Path := ["a"], ["a", "b"];
    var ops := [Put(a, "1"), Op.Watch(w)];
    assert ops[..1] == [Put(a, "1")] && ops[..1][..0] == [];
    var s1 := Run(INIT, ops[..1]);
    RunRefines(ops[..1]);
    NonEmptyKeeps(ops);
    RunStores(ops);
    QuietReads(ops[..1]);
    RunInv(ops[..1]);
    OneKey(a, "1");
    assert FlatRun(ops[..1]) == map[a := "1"];
    assert s1.tree == PutAt(EMPTY, a, "1") by { FirstPut(a); }
    assert Run(INIT, ops).tree == WatchAt(s1.tree, w) by { SecondWatch(s1, w); }
    WatchHides(s1.tree, w);
    assert a < w;
    assert Visible(WatchAt(s1.tree, w)) == map[];
  }

  lemma FirstPut(a: Path)
    ensures Run(INIT, [Put(a, "1")]).tree == PutAt(EMPTY, a, "1")
  {
    assert [Put(a, "1")][..0] == [];
    assert Run(INIT, []) == INIT;
  }

  lemma SecondWatch(s: State, w: Path)
    ensures Apply(s, Op.Watch(w)).tree == WatchAt(s.tree, w)
  {
  }

  lemma OneKey(a: Path, x: string)
    requires a != [] && x != ""
    ensures FlatApply(map[], Put(a, x)) == map[a := x] == Maximal(map[a := x])
  {
    assert map[] + map[a := x] == map[a := x];
  }

  /** A run that loses no empty string among any watches: readers see what the flat map of the writes
      shows exactly if no key they should see lies strictly above a node that is held. */
  lemma RunReads(ops: seq<Op>)
    requires Keeping(ops)
    ensures Visible(Run(INIT, ops).tree) == Maximal(FlatRun(ops)) <==> Unhidden(Run(INIT, ops), FlatRun(ops))
  {
    hide Unhidden, Visible, Maximal, Run, FlatRun, Keeping, Faithful;
    RunStores(ops);
    RunInv(ops);
    SeenThroughWatches(Run(INIT, ops));
  }

  /** A run without watches, empty strings included. */
  lemma QuietReads(ops: seq<Op>)
    requires forall i :: 0 <= i < |ops| ==> !WatchOp(ops[i])
    ensures Visible(Run(INIT, ops).tree) == Maximal(FlatRun(ops))
  {
    RunRefines(ops);
    RunInv(ops);
    QuietUnhidden(Run(INIT, ops));
    SeenThroughWatches(Run(INIT, ops));
  }

  lemma QuietUnhidden(s: State)
    requires Quiet(s)
    ensures Unhidden(s, Contents(s.tree))
  {
  }

  /** An empty value that is hidden does not come back: the node is gone with its last child. */
  lemma EmptyHiddenValueGoes()
    ensures var s := Run(INIT, [Put(["a"], ""), Put(["a", "b"], "1"), Op.Delete(["a", "b"])]);
            Contents(s.tree) == map[] && Visible(s.tree) == map[]
    ensures Visible(Run(INIT, [Put(["a"], "")]).tree) == map[["a"] := ""]
  {
    hide Visible, Contents, Run;
    var a, b: Path := ["a"], ["a", "b"];
    var one, ops := [Put(a, "")], [Put(a, ""), Put(b, "1"), Op.Delete(b)];
    RunRefines(ops);
    QuietReads(ops);
    QuietReads(one);
    EmptyHiddenFlat(a, b);
  }

  lemma EmptyHiddenFlat(a: Path, b: Path)
    requires a == ["a"] && b == ["a", "b"]
    ensures FlatRun([Put(a, ""), Put(b, "1"), Op.Delete(b)]) == map[] == Maximal(map[])
    ensures Maximal(FlatRun([Put(a, "")])) == map[a := ""]
  {
    var ops := [Put(a, ""), Put(b, "1"), Op.Delete(b)];
    assert ops[..2] == [Put(a, ""), Put(b, "1")] && ops[..2][..1] == [Put(a, "")] && ops[..1][..0] == [];
    var v1, v2 := map[a := ""], map[b := "1"];
    assert map[] + v1 == v1 && Normal(v1) == v1 && Maximal(v1) == v1;
    assert FlatRun(ops[..1]) == v1;
    assert a < b && b in v1 + map[b := "1"] && KeyBelow(v1 + map[b := "1"], a);
    assert Normal(v1 + map[b := "1"]) == v2;
    assert FlatRun(ops[..2]) == v2;
    assert b <= b && Drop(v2, b) == map[];
  }

  /** A flat value put at the root of an empty store is shown as it is. */
  lemma FirstBulk(value: Val, q: Path)
    requires value.Dir?
    ensures Find(Visible(Apply(INIT, PutBulk([], Flatten(value))).tree), q) == Lookup(value, q)
  {
    hide Flatten, Visible, Lookup;
    var m := Flatten(value);
    var ops := [PutBulk([], m)];
    FlattenFlat(value);
    SnapshotStored(m);
    FlatNormal(m);
    QuietReads(ops);
    assert ops[..0] == [] && Run(INIT, []) == INIT;
  }

  lemma FlattenFlat(value: Val)
    requires value.Dir?
    ensures Flat(Flatten(value))
  {
    hide Flatten;
    var m := Flatten(value);
    assert Find(m, []) == Lookup(value, []);
    forall p, q | p in m && q in m && p <= q
      ensures p == q
    {
      assert Find(m, p) == Lookup(value, p) && Find(m, q) == Lookup(value, q);
      LookupPrefixFree(value, p, q);
    }
  }

  // ---- The tree of given contents ----------------------------------------------------------------

  /** The trie of a flat map: the prefixes of its keys, a directory wherever a key lies below. */
  ghost function Trie(m: map<Path, string>): Tree {
    map q | q in Touched(m) + {[]} ::
      Cell(q == [] || KeyBelow(m, q), if q in m then m[q] else "", false)
  }

  /** Once nothing is watched and the cleaner is done, the tree is the trie of what it stores, by
      whatever history it came about. */
  lemma QuietIsTrie(s: State)
    requires Inv(s) && Quiet(s)
    ensures s.tree == Trie(Contents(s.tree))
  {
    var t, m := s.tree, Contents(s.tree);
    forall q
      ensures q in t <==> q in Touched(m) + {[]}
    {
      QuietNode(s, q);
    }
    forall q | q in t
      ensures t[q] == Trie(m)[q]
    {
      QuietNode(s, q);
      QuietBelow(s, q);
    }
  }

  lemma QuietNode(s: State, q: Path)
    requires Inv(s) && Quiet(s)
    ensures q in s.tree <==> q == [] || q in Touched(Contents(s.tree))
  {
    hide Tidy, Accounted, HasBelow;
    var t, m := s.tree, Contents(s.tree);
    if q in t && q != [] {
      NoPlaceholders(s);
      var k := LeafUnder(t, q);
      assert k in m;
    }
    if q in Touched(m) {
      var k :| k in m && q <= k;
      PrefixIn(t, q, k);
    }
  }

  lemma NoPlaceholders(s: State)
    requires Inv(s) && Quiet(s)
    ensures forall r :: !Placeholder(s.tree, r)
  {
  }

  lemma PrefixIn(t: Tree, q: Path, k: Path)
    requires Closed(t) && k in t && q <= k
    ensures q in t
  {
    if q != k {
      Strict(q, k);
    }
  }

  lemma SameContentsSameTree(ops: seq<Op>, others: seq<Op>)
    requires Quiet(Run(INIT, ops)) && Quiet(Run(INIT, others))
    requires Contents(Run(INIT, ops).tree) == Contents(Run(INIT, others).tree)
    ensures Run(INIT, ops).tree == Run(INIT, others).tree
  {
    RunInv(ops);
    RunInv(others);
    QuietIsTrie(Run(INIT, ops));
    QuietIsTrie(Run(INIT, others));
  }

  // ---- Versions ----------------------------------------------------------------------------------

  /** The version counts the strings written and the deletes that found a node. */
  ghost function Cost(s: State, op: Op): nat {
    match op
    case Put(_, _) => 1
    case PutBulk(_, kvs) => |kvs|
    case Delete(p) => if p in s.tree then 1 else 0
    case _ => 0
  }

  /** Cleaning at `h` brings back what `k` hides: below `k` are only empty directories that nobody
      watches, all on the way to `h`. */
  ghost predicate Uncovers(t: Tree, h: Path, k: Path) {
    && k <= h && k in t && t[k].dir && t[k].value != ""
    && forall q :: q in t && k < q ==> q <= h && t[q] == Cell(true, "", false)
  }

  /** Cleaning changes what readers see exactly if it brings a hidden key back, and then by that key. */
  lemma CleanShows(t: Tree, h: Path)
    requires Rooted(t) && Tidy(t) && h in t
    ensures Visible(Clean(t, h)) == Visible(t) <==> forall k :: !Uncovers(t, h, k)
    ensures forall k :: Uncovers(t, h, k) ==> Visible(Clean(t, h)) == Visible(t)[k := t[k].value]
  {
    hide Closed, Tidy, Uncovers, Visible, CleanedTo, Clean;
    var d := CleanStops(t, h);
    var u := Clean(t, h);
    StopVisible(t, h, d, u);
    forall k | Uncovers(t, h, k)
      ensures k == d && !u[d].dir && t[d].dir
    {
      UncoveredStop(t, h, d, u, k);
    }
    if t[d].dir && !u[d].dir {
      StopUncovers(t, h, d, u);
    }
  }

  /** All that cleaning shows anew is the value of the node where it stopped. */
  lemma StopVisible(t: Tree, h: Path, d: Path, u: Tree)
    requires CleanedTo(t, h, d, u)
    ensures d in t && d in u
    ensures Visible(u) == if t[d].dir && !u[d].dir then Visible(t)[d := t[d].value] else Visible(t)
    ensures t[d].dir ==> d !in Visible(t)
  {
    hide Closed, HasBelow;
    if t[d].dir && !u[d].dir {
      assert Visible(u) == Visible(t)[d := t[d].value];
    } else {
      assert u[d] == t[d];
      assert Visible(u) == Visible(t);
    }
  }

  lemma UncoveredStop(t: Tree, h: Path, d: Path, u: Tree, k: Path)
    requires CleanedTo(t, h, d, u) && Uncovers(t, h, k) && Rooted(t)
    ensures k == d && !u[d].dir && t[d].dir
  {
    PrefixesCompare(k, d, h);
    forall q | q in t && k < q
      ensures d < q ==> q !in u
    {
      assert d < q ==> Between(d, q, h);
    }
    assert d < k ==> Between(d, k, h);
    if k <= d && k != d { Strict(k, d); }
    if d <= k && k != d { Strict(d, k); }
  }

  lemma StopUncovers(t: Tree, h: Path, d: Path, u: Tree)
    requires CleanedTo(t, h, d, u) && Rooted(t) && Tidy(t) && h in t && t[d].dir && !u[d].dir
    ensures Uncovers(t, h, d)
  {
    forall q | q in t && d < q
      ensures q <= h && t[q] == Cell(true, "", false)
    {
      assert q !in u;
      assert Between(d, q, h);
    }
  }

  /** A watch below a visible key hides it, and cleaning may bring back a key that was hidden. */
  ghost predicate Undisturbed(s: State, op: Op) {
    && (op.Watch? ==> forall k :: k in Visible(s.tree) ==> !(k < op.path))
    && (op.CleanStep? && s.queue != [] && s.queue[0] in s.tree ==> forall k :: !Uncovers(s.tree, s.queue[0], k))
  }

  /** The version rises by the cost of the operation; at no cost a write or a delete changes nothing
      at all, and any operation changes nothing to a reader exactly if it neither hides a key nor
      brings one back. */
  lemma VersionStep(s: State, op: Op)
    requires Inv(s)
    ensures Apply(s, op).version == s.version + Cost(s, op)
    ensures Cost(s, op) == 0 && (op.Put? || op.PutBulk? || op.Delete?) ==> Apply(s, op) == s
    ensures Cost(s, op) == 0 ==> (Visible(Apply(s, op).tree) == Visible(s.tree) <==> Undisturbed(s, op))
  {
    hide Visible, Uncovers, HasBelow, Tidy, Closed, WatchAt, Trees.Bulk, PutAt, Remove, UnwatchAt;
    match op {
      case PutBulk(p, kvs) =>
        if kvs == map[] { BulkStarts(s, p); }
      case Watch(p) => WatchHides(s.tree, p);
      case Unwatch(p) => UnwatchUnseen(s.tree, p);
      case CleanStep =>
        if s.queue != [] {
          CleanAbsent(s.tree, s.queue[0]);
          if s.queue[0] in s.tree { CleanShows(s.tree, s.queue[0]); }
        }
      case _ =>
    }
  }

  lemma UnwatchUnseen(t: Tree, p: Path)
    ensures Visible(UnwatchAt(t, p)) == Visible(t)
  {
    assert Visible(UnwatchAt(t, p)) == Visible(t);
  }

  /** All readings on the way are equal. */
  ghost predicate SameReadings(s: State, ops: seq<Op>) {
    forall i :: 0 <= i <= |ops| ==> Visible(Run(s, ops[..i]).tree) == Visible(s.tree)
  }

  ghost predicate AllUndisturbed(s: State, ops: seq<Op>) {
    forall i :: 0 <= i < |ops| ==> Undisturbed(Run(s, ops[..i]), ops[i])
  }

  /** While the version stays the same, all readings are equal exactly if no watch hides a visible key
      and no cleaning brings a hidden one back. */
  lemma {:induction false} EqualVersions(s: State, ops: seq<Op>)
    requires Inv(s) && Run(s, ops).version == s.version
    ensures SameReadings(s, ops) <==> AllUndisturbed(s, ops)
    decreases |ops|
  {
    hide Undisturbed, Visible, Apply, Inv;
    assert ops[..|ops|] == ops;
    if ops != [] {
      var before, op := ops[..|ops| - 1], ops[|ops| - 1];
      RunFrom(s, before);
      VersionStep(Run(s, before), op);
      EqualVersions(s, before);
      ReadingsStep(s, ops);
    }
  }

  lemma ReadingsStep(s: State, ops: seq<Op>)
    requires ops != []
    ensures var before, op := ops[..|ops| - 1], ops[|ops| - 1];
            && (SameReadings(s, ops) <==>
                  SameReadings(s, before) && Visible(Run(s, ops).tree) == Visible(Run(s, before).tree))
            && (AllUndisturbed(s, ops) <==> AllUndisturbed(s, before) && Undisturbed(Run(s, before), op))
  {
    hide Undisturbed, Visible, Run;
    var before := ops[..|ops| - 1];
    assert ops[..|ops|] == ops && before[..|before|] == before;
    assert forall i :: 0 <= i <= |before| ==> before[..i] == ops[..i];
  }

  /** Equal versions, different readings: a watch hides "a", and the cleaner shows it again. */
  lemma SameVersionOtherReading()
    ensures var ops := [Put(["a"], "1"), Op.Watch(["a", "b"]), Unwatch(["a", "b"]), CleanStep];
            && Run(INIT, ops[..1]).version == Run(INIT, ops[..2]).version == Run(INIT, ops).version == 1
            && Visible(Run(INIT, ops[..1]).tree) == map[["a"] := "1"] == Visible(Run(INIT, ops).tree)
            && Visible(Run(INIT, ops[..2]).tree) == map[]
  {
    hide Visible, WatchAt, PutAt, UnwatchAt, Clean, Run, Inv;
    var a: Path, w: Path := ["a"], ["a", "b"];
    var ops := [Put(a, "1"), Op.Watch(w), Unwatch(w), CleanStep];
    FourSteps(Put(a, "1"), Op.Watch(w), Unwatch(w), CleanStep);
    var s1 := Apply(INIT, Put(a, "1"));
    var s2 := Apply(s1, Op.Watch(w));
    var s3 := Apply(s2, Unwatch(w));
    InitInv();
    ApplyInv(INIT, Put(a, "1"));
    ApplyInv(s1, Op.Watch(w));
    ApplyInv(s2, Unwatch(w));
    OnlyKey(a, w);
    WatchHides(s1.tree, w);
    assert a < w && Visible(s2.tree) == map[];
    UnwatchUnseen(s2.tree, w);
    InvGives(s3);
    CleanShows(s3.tree, w);
    assert s3.queue == [w];
  }

  lemma InvGives(s: State)
    requires Inv(s)
    ensures Rooted(s.tree) && Tidy(s.tree)
  {
  }

  lemma OnlyKey(a: Path, w: Path)
    requires a == ["a"] && w == ["a", "b"]
    ensures Visible(PutAt(EMPTY, a, "1")) == map[a := "1"] && Rooted(PutAt(EMPTY, a, "1"))
    ensures var t := UnwatchAt(WatchAt(PutAt(EMPTY, a, "1"), w), w);
            w in t && Uncovers(t, w, a) && t[a].value == "1"
  {
    hide PutAt, Reach;
    var t := map[[] := Cell(true, "", false), a := Cell(false, "1", false)];
    assert PutAt(EMPTY, a, "1") == t by { OneNode(a); }
    assert Visible(t) == map[a := "1"];
    TwoDown(t, a, w);
  }

  lemma TwoDown(t: Tree, a: Path, w: Path)
    requires a == ["a"] && w == ["a", "b"] && t == map[[] := Cell(true, "", false), a := Cell(false, "1", false)]
    ensures Reach(t, w) == map[[] := Cell(true, "", false), a := Cell(true, "1", false), w := Cell(true, "", false)]
  {
    assert a < w && Prefixes(w) == {[], a, w} && Above(w) == {[], a} by {
      assert [] + ["a"] == a && a + ["b"] == w && Prefixes([]) == {[]};
      PrefixesStep([], "a");
      PrefixesStep(a, "b");
    }
  }

  lemma OneNode(a: Path)
    requires a == ["a"]
    ensures PutAt(EMPTY, a, "1") == map[[] := Cell(true, "", false), a := Cell(false, "1", false)]
  {
    var m := map[a := "1"];
    assert a in m && [] < a;
    assert Touched(m) == {[], a} by {
      PrefixesStep([], "a");
      assert Touched(m) == Prefixes(a);
    }
  }

  lemma FourSteps(a: Op, b: Op, c: Op, d: Op)
    ensures var ops := [a, b, c, d];
            && Run(INIT, ops[..1]) == Apply(INIT, a) && Run(INIT, ops[..2]) == Apply(Apply(INIT, a), b)
            && Run(INIT, ops) == Apply(Apply(Apply(Apply(INIT, a), b), c), d)
  {
    hide Apply;
    var ops := [a, b, c, d];
    assert ops[..3] == [a, b, c] && [a, b, c][..2] == [a, b] == ops[..2] && [a, b][..1] == [a] == ops[..1];
    assert [a][..0] == [];
  }

  lemma {:induction false} RunFrom(s: State, ops: seq<Op>)
    requires Inv(s)
    ensures Inv(Run(s, ops)) && Run(s, ops).version >= s.version
    decreases |ops|
  {
    if ops != [] {
      var before := ops[..|ops| - 1];
      RunFrom(s, before);
      ApplyInv(Run(s, before), ops[|ops| - 1]);
      VersionStep(Run(s, before), ops[|ops| - 1]);
    }
  }
}
