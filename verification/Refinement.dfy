/** The tree against a flat map from paths to strings: what is stored, and what can be read. */
module Refinement {
  import opened Paths
  import opened Strings
  import opened Trees
  import opened Machine
  import opened Invariants
  import Helpers

  ghost predicate KeyBelow(m: map<Path, string>, p: Path) {
    exists k :: k in m && p < k
  }

  /** A key with keys below it keeps its value only if that is not empty; the root holds nothing. */
  ghost function Normal(m: map<Path, string>): map<Path, string> {
    map k | k in m && k != [] && (m[k] != "" || !KeyBelow(m, k)) :: m[k]
  }

  /** The keys with no key below them. */
  ghost function Maximal(m: map<Path, string>): map<Path, string> {
    map k | k in m && !KeyBelow(m, k) :: m[k]
  }

  /** The operations on a flat map. */
  ghost function FlatApply(m: map<Path, string>, op: Op): map<Path, string> {
    match op
    case Put(p, v) => Normal(m + map[p := v])
    case PutBulk(p, kvs) => Normal(m + Under(p, kvs))
    case Delete(p) => Drop(m, p)
    case Watch(_) => m
    case Unwatch(_) => m
    case CleanStep => m
  }

  ghost function FlatRun(ops: seq<Op>): map<Path, string> {
    if ops == [] then map[] else FlatApply(FlatRun(ops[..|ops| - 1]), ops[|ops| - 1])
  }

  // ---- What one operation stores ---------------------------------------------------------------

  /** A bulk write stores its keys over what was stored; a key that ends up a directory keeps its
      value only if that is not empty. */
  lemma BulkContents(t: Tree, kvs: map<Path, string>)
    requires Rooted(t)
    ensures var b := Bulk(t, kvs);
            var m := Contents(t) + kvs;
            Contents(b) == map k | k in m && k != [] && (m[k] != "" || !HasBelow(b, k)) :: m[k]
  {
    hide HasBelow, BulkCell, Rooted;
    var b := Bulk(t, kvs);
    var m := Contents(t) + kvs;
    forall k
      ensures k in Contents(b) <==> k in m && k != [] && (m[k] != "" || !HasBelow(b, k))
      ensures k in Contents(b) ==> Contents(b)[k] == m[k]
    {
      BulkContent(t, kvs, k);
    }
  }

  lemma BulkContent(t: Tree, kvs: map<Path, string>, k: Path)
    requires Rooted(t)
    ensures var b := Bulk(t, kvs);
            var m := Contents(t) + kvs;
            && (k in Contents(b) <==> k in m && k != [] && (m[k] != "" || !HasBelow(b, k)))
            && (k in Contents(b) ==> Contents(b)[k] == m[k])
  {
    var b := Bulk(t, kvs);
    BulkBelow(t, kvs, k);
    if k in b {
      assert b[k] == BulkCell(t, kvs, k);
    }
    if k in kvs {
      assert k in Touched(kvs) && k in b;
    } else if k in b && k !in t {
      var j :| j in kvs && k <= j;
      Strict(k, j);
    }
  }

  lemma PutContents(t: Tree, p: Path, v: string)
    requires Rooted(t)
    ensures var b := PutAt(t, p, v);
            var m := Contents(t) + map[p := v];
            Contents(b) == map k | k in m && k != [] && (m[k] != "" || !HasBelow(b, k)) :: m[k]
  {
    if p == [] {
      RootIgnored(t, map[], v);
      BulkNone(t);
    }
    BulkContents(t, map[p := v]);
  }

  lemma CleanContents(t: Tree, p: Path)
    requires Rooted(t)
    ensures Contents(Clean(t, p)) == Contents(t)
  {
  }

  /** Delete drops the key and everything below it, whatever is watched. */
  lemma RemoveContents(t: Tree, p: Path)
    requires Rooted(t)
    ensures Contents(Remove(t, p)) == Drop(Contents(t), p)
  {
    var e := Empty(t, p);
    assert Contents(e) == Drop(Contents(t), p);
    EmptyRooted(t, p);
    if p !in e && p != [] {
      CleanContents(e, Parent(p));
    }
  }

  lemma NoneStored(t: Tree, p: Path)
    requires Rooted(t) && p !in t
    ensures Drop(Contents(t), p) == Contents(t)
  {
    forall k | k in Contents(t)
      ensures !(p <= k)
    {
      if p <= k {
        Strict(p, k);
      }
    }
  }

  /** A watch below a leaf hides it: only a leaf with an empty value is lost by that. */
  lemma WatchContents(t: Tree, p: Path)
    requires Rooted(t)
    ensures Contents(WatchAt(t, p)) ==
              map k | k in Contents(t) && !(k in Above(p) && Contents(t)[k] == "") :: Contents(t)[k]
  {
  }

  lemma UnwatchContents(s: State, p: Path)
    ensures Contents(Apply(s, Unwatch(p)).tree) == Contents(s.tree)
  {
  }

  // ---- What is lost --------------------------------------------------------------------------

  /** An empty string written where nodes, but no keys, lie below: a directory hides nothing empty. */
  ghost predicate LosesWritten(t: Tree, kvs: map<Path, string>) {
    exists k :: k in kvs && k != [] && kvs[k] == "" && HasBelow(t, k) && !KeyBelow(Contents(t) + kvs, k)
  }

  /** An empty string stored strictly above `p`. */
  ghost predicate EmptyAbove(t: Tree, p: Path) {
    exists k :: k in Contents(t) && k < p && Contents(t)[k] == ""
  }

  /** The operations that lose an empty string a flat map would keep. */
  ghost predicate Loses(s: State, op: Op) {
    match op
    case Put(p, v) => LosesWritten(s.tree, map[p := v])
    case PutBulk(p, kvs) => LosesWritten(s.tree, Under(p, kvs))
    case Watch(p) => EmptyAbove(s.tree, p)
    case _ => false
  }

  /** One operation does to what is stored what it does to a flat map, exactly if it loses nothing. */
  lemma ApplyStores(s: State, op: Op)
    requires Rooted(s.tree)
    ensures Contents(Apply(s, op).tree) == FlatApply(Contents(s.tree), op) <==> !Loses(s, op)
  {
    hide Rooted, LosesWritten, EmptyAbove, Trees.Bulk, PutAt, WatchAt, Contents, Normal, Drop, Remove, Trees.Clean;
    var t := s.tree;
    match op {
      case Put(p, v) => PutStores(t, p, v);
      case PutBulk(p, kvs) => BulkStores(t, Under(p, kvs));
      case Delete(p) =>
        if p in t { RemoveContents(t, p); } else { NoneStored(t, p); }
      case Watch(p) => WatchStores(t, p);
      case Unwatch(p) => UnwatchContents(s, p);
      case CleanStep =>
        if s.queue != [] { CleanContents(t, s.queue[0]); }
    }
  }

  lemma BulkStores(t: Tree, kvs: map<Path, string>)
    requires Rooted(t)
    ensures Contents(Trees.Bulk(t, kvs)) == Normal(Contents(t) + kvs) <==> !LosesWritten(t, kvs)
  {
    hide HasBelow, KeyBelow, Trees.Bulk, Contents, Rooted;
    var b, m := Trees.Bulk(t, kvs), Contents(t) + kvs;
    BulkContents(t, kvs);
    forall k | k in m && m[k] == ""
      ensures HasBelow(b, k) <==> KeyBelow(m, k) || (k in kvs && HasBelow(t, k))
    {
      BelowEmpty(t, kvs, k);
    }
    if LosesWritten(t, kvs) {
      var k :| k in kvs && k != [] && kvs[k] == "" && HasBelow(t, k) && !KeyBelow(m, k);
      assert k in m && k in Normal(m) && k !in Contents(b);
    } else {
      assert Contents(b) == Normal(m);
    }
  }

  /** What lies below an empty string after a bulk write: keys, or nodes if it was written just now. */
  lemma BelowEmpty(t: Tree, kvs: map<Path, string>, k: Path)
    requires Rooted(t)
    requires var m := Contents(t) + kvs; k in m && m[k] == ""
    ensures HasBelow(Trees.Bulk(t, kvs), k) <==> KeyBelow(Contents(t) + kvs, k) || (k in kvs && HasBelow(t, k))
  {
    hide Trees.Bulk;
    BulkBelow(t, kvs, k);
    KeyBelowUnion(Contents(t), kvs, k);
  }

  lemma PutStores(t: Tree, p: Path, v: string)
    requires Rooted(t)
    ensures Contents(PutAt(t, p, v)) == Normal(Contents(t) + map[p := v]) <==> !LosesWritten(t, map[p := v])
  {
    hide Rooted, Contents, Normal, LosesWritten;
    BulkStores(t, map[p := v]);
    if p == [] {
      var none: map<Path, string> := map[];
      RootIgnored(t, none, v);
      BulkNone(t);
      assert none[[] := v] == map[[] := v];
    }
  }

  lemma WatchStores(t: Tree, p: Path)
    requires Rooted(t)
    ensures Contents(WatchAt(t, p)) == Contents(t) <==> !EmptyAbove(t, p)
  {
    hide Contents, WatchAt, Rooted;
    var m := Contents(t);
    WatchContents(t, p);
    if k :| k in m && k < p && m[k] == "" {
      assert k !in Contents(WatchAt(t, p));
    } else {
      assert Contents(WatchAt(t, p)) == m;
    }
  }

  // ---- Runs ------------------------------------------------------------------------------------

  /** No operation of the run loses anything. */
  ghost predicate Keeping(ops: seq<Op>) {
    forall i :: 0 <= i < |ops| ==> !Loses(Run(INIT, ops[..i]), ops[i])
  }

  /** After every prefix of the run the store holds the flat map of its operations. */
  ghost predicate Faithful(ops: seq<Op>) {
    forall i :: 0 <= i <= |ops| ==> Contents(Run(INIT, ops[..i]).tree) == FlatRun(ops[..i])
  }

  /** With watches coming and going, a store holds the flat map of its operations all the time exactly
      if none of them loses an empty string. */
  lemma {:induction false} RunStores(ops: seq<Op>)
    ensures Faithful(ops) <==> Keeping(ops)
    ensures Keeping(ops) ==> Contents(Run(INIT, ops).tree) == FlatRun(ops)
    decreases |ops|
  {
    hide Contents, Apply, FlatApply, Loses;
    assert ops[..|ops|] == ops;
    if ops == [] {
      NothingStored();
    } else {
      var before, op := ops[..|ops| - 1], ops[|ops| - 1];
      RunStores(before);
      RunInv(before);
      ApplyStores(Run(INIT, before), op);
      assert forall i :: 0 <= i <= |before| ==> before[..i] == ops[..i];
      assert Keeping(ops) <==> Keeping(before) && !Loses(Run(INIT, before), op);
      assert Faithful(ops) <==> Faithful(before) && Contents(Run(INIT, ops).tree) == FlatRun(ops);
      assert Faithful(before) ==> Contents(Run(INIT, before).tree) == FlatRun(before) by {
        assert before[..|before|] == before;
      }
    }
  }

  lemma NothingStored()
    ensures Contents(EMPTY) == map[]
  {
  }

  ghost predicate NonEmptyOp(op: Op) {
    match op
    case Put(_, v) => v != ""
    case PutBulk(_, kvs) => forall k :: k in kvs ==> kvs[k] != ""
    case _ => true
  }

  ghost predicate NonEmpty(m: map<Path, string>) {
    forall k :: k in m ==> m[k] != ""
  }

  /** A run that writes no empty string loses nothing. */
  lemma {:induction false} NonEmptyKeeps(ops: seq<Op>)
    requires forall i :: 0 <= i < |ops| ==> NonEmptyOp(ops[i])
    ensures Keeping(ops) && NonEmpty(FlatRun(ops))
    decreases |ops|
  {
    hide Contents, Run, Apply, Normal, Loses;
    if ops != [] {
      var before, op := ops[..|ops| - 1], ops[|ops| - 1];
      NonEmptyKeeps(before);
      RunStores(before);
      assert forall i :: 0 <= i <= |before| ==> before[..i] == ops[..i];
      NonEmptyStep(Run(INIT, before), op);
    }
  }

  lemma NonEmptyStep(s: State, op: Op)
    requires NonEmpty(Contents(s.tree)) && NonEmptyOp(op)
    ensures !Loses(s, op) && NonEmpty(FlatApply(Contents(s.tree), op))
  {
    hide Contents, HasBelow, KeyBelow;
  }

  /** An empty string is lost above a watch, whichever comes first. */
  lemma EmptyAboveWatchLost()
    ensures var ops := [Op.Watch(["a", "b"]), Put(["a"], "")];
            FlatRun(ops) == map[["a"] := ""] && Contents(Run(INIT, ops).tree) == map[]
    ensures var ops := [Put(["a"], ""), Op.Watch(["a", "b"])];
            FlatRun(ops) == map[["a"] := ""] && Contents(Run(INIT, ops).tree) == map[]
  {
    hide Contents, Apply, FlatApply, Run, FlatRun;
    var a: Path, w: Path := ["a"], ["a", "b"];
    RunTwo(Op.Watch(w), Put(a, ""));
    RunTwo(Put(a, ""), Op.Watch(w));
    OneEmpty(a, w);
    EmptyBelowWatch(a, w);
    WatchBelowEmpty(a, w);
  }

  lemma RunTwo(x: Op, y: Op)
    ensures Run(INIT, [x, y]) == Apply(Apply(INIT, x), y)
    ensures FlatRun([x, y]) == FlatApply(FlatApply(map[], x), y)
  {
    hide Apply, FlatApply;
    assert [x, y][..1] == [x] && [x][..0] == [];
    assert Run(INIT, [x]) == Apply(INIT, x) && FlatRun([x]) == FlatApply(map[], x);
  }

  lemma OneEmpty(a: Path, w: Path)
    requires a != []
    ensures FlatApply(FlatApply(map[], Op.Watch(w)), Put(a, "")) == map[a := ""]
    ensures FlatApply(FlatApply(map[], Put(a, "")), Op.Watch(w)) == map[a := ""]
  {
    assert map[] + map[a := ""] == map[a := ""];
  }

  lemma EmptyBelowWatch(a: Path, w: Path)
    requires a != [] && a < w
    ensures Contents(Apply(Apply(INIT, Op.Watch(w)), Put(a, "")).tree) == map[]
  {
    hide Contents, Trees.Bulk;
    var t := WatchAt(EMPTY, w);
    InitInv();
    ApplyInv(INIT, Op.Watch(w));
    NothingStored();
    WatchContents(EMPTY, w);
    PutContents(t, a, "");
    BulkBelow(t, map[a := ""], a);
    assert w in t && HasBelow(t, a);
  }

  lemma WatchBelowEmpty(a: Path, w: Path)
    requires a != [] && a < w
    ensures Contents(Apply(Apply(INIT, Put(a, "")), Op.Watch(w)).tree) == map[]
  {
    hide Contents, Trees.Bulk, WatchAt;
    var t := PutAt(EMPTY, a, "");
    InitInv();
    ApplyInv(INIT, Put(a, ""));
    NothingStored();
    PutContents(EMPTY, a, "");
    WatchContents(t, w);
  }

  /** No node is watched and no cleaning is due. */
  ghost predicate Quiet(s: State) {
    s.queue == [] && s.lost == {} && forall p :: p in s.tree ==> !s.tree[p].watched
  }

  /** A leaf at or below a node with no placeholder under it. */
  lemma {:induction false} LeafUnder(t: Tree, p: Path) returns (k: Path)
    requires p in t && (p != [] || HasBelow(t, p))
    requires forall q :: q in t && p <= q ==> !Placeholder(t, q)
    ensures k in t && p <= k && !t[k].dir
    decreases Weight(t, p)
  {
    if HasBelow(t, p) {
      var q :| q in t && p < q;
      LighterBelow(t, p, q);
      k := LeafUnder(t, q);
    } else {
      k := p;
      assert p <= p;
    }
  }

  lemma LighterBelow(t: Tree, p: Path, q: Path)
    requires p in t && p < q
    ensures Weight(t, q) < Weight(t, p)
  {
    assert p in Below(t, p) && p !in Below(t, q);
    Fewer(Below(t, q) + {p}, Below(t, p));
  }

  /** Without watches the nodes are the prefixes of what is stored. */
  lemma QuietBelow(s: State, p: Path)
    requires Inv(s) && Quiet(s)
    ensures HasBelow(s.tree, p) <==> KeyBelow(Contents(s.tree), p)
  {
    assert forall q :: !Placeholder(s.tree, q);
    if q :| q in s.tree && p < q {
      var k := LeafUnder(s.tree, q);
      assert k in Contents(s.tree) && p < k;
    }
  }

  ghost predicate WatchOp(op: Op) {
    op.Watch? || op.Unwatch?
  }

  /** Without watches a store holds the flat map of its operations, empty strings included. */
  lemma {:induction false} RunRefines(ops: seq<Op>)
    requires forall i :: 0 <= i < |ops| ==> !WatchOp(ops[i])
    ensures Quiet(Run(INIT, ops)) && Keeping(ops) && Contents(Run(INIT, ops).tree) == FlatRun(ops)
    decreases |ops|
  {
    hide Contents, Apply, FlatApply, Loses, Quiet;
    RunStores(ops);
    if ops == [] {
      assert Quiet(INIT) by { InitQuiet(); }
    } else {
      var before, op := ops[..|ops| - 1], ops[|ops| - 1];
      RunRefines(before);
      RunInv(before);
      ApplyQuiet(Run(INIT, before), op);
      assert forall i :: 0 <= i <= |before| ==> before[..i] == ops[..i];
      assert Keeping(ops);
    }
  }

  lemma InitQuiet()
    ensures Quiet(INIT)
  {
  }

  lemma ApplyRefines(s: State, op: Op)
    requires Inv(s) && Quiet(s) && !WatchOp(op)
    ensures Quiet(Apply(s, op)) && Contents(Apply(s, op).tree) == FlatApply(Contents(s.tree), op)
  {
    hide Apply, FlatApply, Contents, Quiet, Loses;
    ApplyQuiet(s, op);
    ApplyStores(s, op);
  }

  lemma ApplyQuiet(s: State, op: Op)
    requires Inv(s) && Quiet(s) && !WatchOp(op)
    ensures Quiet(Apply(s, op)) && !Loses(s, op)
  {
    hide HasBelow, Closed, Tidy, Accounted, KeyBelow, Contents;
    var t := s.tree;
    match op {
      case Put(p, v) => QuietKeeps(s, map[p := v]);
      case PutBulk(p, kvs) => QuietKeeps(s, Under(p, kvs));
      case Delete(p) =>
        if p in t { RemoveQuiet(t, p); }
      case CleanStep =>
    }
  }

  /** Nothing is lost where there are no nodes but those that keys lead to. */
  lemma QuietKeeps(s: State, kvs: map<Path, string>)
    requires Inv(s) && Quiet(s)
    ensures !LosesWritten(s.tree, kvs)
    ensures forall q :: q in Trees.Bulk(s.tree, kvs) ==> !Trees.Bulk(s.tree, kvs)[q].watched
  {
    hide HasBelow, Closed, Tidy, Accounted, KeyBelow, Contents;
    forall k | HasBelow(s.tree, k)
      ensures KeyBelow(Contents(s.tree) + kvs, k)
    {
      QuietBelow(s, k);
      KeyBelowUnion(Contents(s.tree), kvs, k);
    }
  }

  lemma KeyBelowUnion(m: map<Path, string>, n: map<Path, string>, p: Path)
    ensures KeyBelow(m + n, p) <==> KeyBelow(m, p) || exists k :: k in n && p < k
  {
    if k :| k in m && p < k { assert k in m + n; }
    if k :| k in n && p < k { assert k in m + n; }
  }

  lemma RemoveQuiet(t: Tree, p: Path)
    requires Rooted(t) && p in t && forall q :: q in t ==> !t[q].watched
    ensures forall q :: q in Remove(t, p) ==> !Remove(t, p)[q].watched
  {
    var e := Empty(t, p);
    EmptyRooted(t, p);
    if p !in e && p != [] {
      assert Parent(p) < p;
      var s := CleanStops(e, Parent(p));
    }
  }

  // ---- Flat sets of keys -------------------------------------------------------------------------

  /** A set of keys of which none lies below another, and none is the root. */
  ghost predicate Flat(v: map<Path, string>) {
    PrefixFree(v) && [] !in v
  }

  lemma FlatNormal(v: map<Path, string>)
    requires Flat(v)
    ensures Normal(v) == v && Maximal(v) == v
  {
  }

  lemma FlatRunOne(ops: seq<Op>, op: Op)
    ensures FlatRun(ops + [op]) == FlatApply(FlatRun(ops), op)
  {
  }

  lemma SnapshotStored(v: map<Path, string>)
    requires Flat(v)
    ensures FlatRun([PutBulk([], v)]) == v
  {
    hide Flat, Normal;
    FlatRunOne([], PutBulk([], v));
    assert [] + [PutBulk([], v)] == [PutBulk([], v)];
    forall q: Path ensures [] + q == q {}
    assert Under([], v) == v;
    assert map[] + v == v;
    FlatNormal(v);
  }

  /** Watches coming and going, and cleaning. */
  ghost predicate WritesNothing(op: Op) {
    WatchOp(op) || op.CleanStep?
  }

  lemma LocalKeeps(f: map<Path, string>, op: Op)
    requires WritesNothing(op)
    ensures FlatApply(f, op) == f
  {
  }

  lemma {:induction false} FlatLocal(ops: seq<Op>, local: seq<Op>)
    requires forall i :: 0 <= i < |local| ==> WritesNothing(local[i])
    ensures FlatRun(ops + local) == FlatRun(ops)
    decreases |local|
  {
    hide FlatRun, FlatApply, WritesNothing;
    if local == [] {
      assert ops + local == ops;
    } else {
      var before, op := local[..|local| - 1], local[|local| - 1];
      FlatLocal(ops, before);
      assert ops + local == ops + before + [op];
      FlatRunOne(ops + before, op);
      LocalKeeps(FlatRun(ops), op);
    }
  }

  /** A flat set of keys put one by one, in any order, into a flat map that is empty. */
  lemma {:induction false} FlatPuts(ops: seq<Op>, values: map<string, string>, order: seq<string>)
    requires FlatRun(ops) == map[] && Helpers.Separate(values) && Flat(Helpers.Cleaned(values))
    requires (forall k :: k in order ==> k in values) && forall i, j :: 0 <= i < j < |order| ==> order[i] != order[j]
    ensures FlatRun(ops + Puts([], values, order)) == CleanedFirst(values, order)
    decreases |order|
  {
    hide FlatRun, PathOf, Helpers.IsBlank, Flat, Helpers.Separate, Target, FlatApply;
    if order == [] {
      assert ops + [] == ops;
    } else {
      var before, k := order[..|order| - 1], order[|order| - 1];
      assert k in order && forall j :: j in before ==> j in order;
      FlatPuts(ops, values, before);
      TargetAtRoot(values, k);
      var op := Put(PathOf(k), values[k]);
      assert ops + (Puts([], values, before) + [op]) == ops + Puts([], values, before) + [op];
      FlatRunOne(ops + Puts([], values, before), op);
      PartFlat(values, order);
      PutFlat(CleanedFirst(values, before), PathOf(k), values[k]);
    }
  }

  lemma TargetAtRoot(values: map<string, string>, k: string)
    requires Helpers.Separate(values) && k in values
    ensures Target([], k) == PathOf(k)
  {
    hide PathOf, Helpers.Separate, Target;
    NotBlank(values, k);
    assert [] + PathOf(k) == PathOf(k);
  }

  lemma PutFlat(m: map<Path, string>, p: Path, v: string)
    requires Flat(m[p := v])
    ensures FlatApply(m, Put(p, v)) == m[p := v]
  {
    hide Flat, Normal;
    FlatNormal(m[p := v]);
    assert m + map[p := v] == m[p := v];
  }

  lemma PartFlat(values: map<string, string>, order: seq<string>)
    requires Helpers.Separate(values) && Flat(Helpers.Cleaned(values)) && forall k :: k in order ==> k in values
    ensures Flat(CleanedFirst(values, order))
  {
    hide PathOf, Helpers.IsBlank, Helpers.Separate;
    forall q | q in CleanedFirst(values, order)
      ensures q in Helpers.Cleaned(values)
    {
      CleanedAll(values, order, q);
    }
  }

  /** All of the keys put one by one. */
  lemma FlatPutAll(ops: seq<Op>, values: map<string, string>, order: seq<string>)
    requires FlatRun(ops) == map[] && Helpers.Separate(values) && Flat(Helpers.Cleaned(values))
    requires Orders(order, values.Keys)
    ensures FlatRun(ops + Puts([], values, order)) == Helpers.Cleaned(values)
  {
    hide FlatRun, PathOf, Flat, Helpers.Separate, Puts, CleanedFirst;
    FlatPuts(ops, values, order);
    AllCleaned(values, order);
  }

  /** Replacing a value: after a delete and a bulk write, just the written keys are stored at and
      below the path, and whatever was stored elsewhere still is; only an empty string is lost that
      has a key below it now. */
  lemma Replaced(m: map<Path, string>, p: Path, kvs: map<Path, string>, q: Path)
    requires q != []
    ensures var r := FlatApply(FlatApply(m, Op.Delete(p)), PutBulk(p, kvs));
            && (p <= q ==> (q in r <==> q[|p|..] in kvs && (kvs[q[|p|..]] != "" || !KeyBelow(kvs, q[|p|..]))))
            && (p <= q && q in r ==> r[q] == kvs[q[|p|..]])
            && (!(p <= q) ==>
                  (q in r <==> q in m && (m[q] != "" || !(KeyBelow(Drop(m, p), q) || (q < p && kvs != map[])))))
            && (!(p <= q) && q in r ==> r[q] == m[q])
  {
    var d, u := Drop(m, p), Under(p, kvs);
    KeyBelowUnion(d, u, q);
    if p <= q {
      assert q == p + q[|p|..];
      BelowMoved(p, kvs, q[|p|..]);
      assert !KeyBelow(d, q) by { NotBelowDropped(m, p, q); }
    } else {
      AboveMoved(p, kvs, q);
    }
  }

  lemma NotBelowDropped(m: map<Path, string>, p: Path, q: Path)
    requires p <= q
    ensures !KeyBelow(Drop(m, p), q)
  {
  }

  lemma BelowMoved(p: Path, kvs: map<Path, string>, q: Path)
    ensures (exists k :: k in Under(p, kvs) && p + q < k) <==> KeyBelow(kvs, q)
  {
    if k :| k in kvs && q < k {
      assert p + k in Under(p, kvs) && p + q < p + k;
    }
    if k :| k in Under(p, kvs) && p + q < k {
      assert k == p + k[|p|..] && k[|p|..] in kvs;
      assert q < k[|p|..];
    }
  }

  lemma AboveMoved(p: Path, kvs: map<Path, string>, q: Path)
    requires !(p <= q)
    ensures (exists k :: k in Under(p, kvs) && q < k) <==> q < p && kvs != map[]
  {
    if k :| k in Under(p, kvs) && q < k {
      assert k == p + k[|p|..] && k[|p|..] in kvs;
      PrefixesCompare(p, q, k);
      assert q <= p && q != p;
      Strict(q, p);
    }
    if q < p && kvs != map[] {
      var k :| k in kvs;
      assert p + k in Under(p, kvs) && q < p + k;
    }
  }
}
