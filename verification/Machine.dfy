/** A store as a state machine over its public operations: what Put, PutBulk, Delete, Watch, the
    removal of a watch and one round of the background cleaner do to the tree, the version and
    the clean channel. The class `Stores.Store` is proved to follow `Apply` step by step. */
module Machine {
  import opened Paths
  import opened Strings
  import opened Trees
  import Helpers

  /** The clean channel's capacity; a message sent to a full channel is dropped. */
  const CLEAN_BUFFER := 100

  datatype State = State(tree: Tree, version: nat, queue: seq<Path>, lost: set<Path>)

  /** `Unwatch(p)` is the removal of the last watcher at `p`; removing another one changes
      nothing here. `CleanStep` is the cleaner taking one message. */
  datatype Op =
    | Put(path: Path, value: string)
    | PutBulk(path: Path, values: map<Path, string>)
    | Delete(path: Path)
    | Watch(path: Path)
    | Unwatch(path: Path)
    | CleanStep

  ghost const INIT := State(EMPTY, 0, [], {})

  /** The keys of a bulk write, moved under the path it is written at. */
  ghost function Under(p: Path, kvs: map<Path, string>): (r: map<Path, string>)
    ensures forall k :: k in kvs <==> p + k in r
    ensures forall k :: k in kvs ==> r[p + k] == kvs[k]
    ensures forall q :: q in r ==> p <= q
  {
    assert forall k | k in kvs :: (p + k)[|p|..] == k;
    map q | q in (set k | k in kvs :: p + k) :: kvs[q[|p|..]]
  }

  ghost function Enqueue(s: State, p: Path): State {
    if |s.queue| < CLEAN_BUFFER then s.(queue := s.queue + [p]) else s.(lost := s.lost + {p})
  }

  ghost function Apply(s: State, op: Op): State {
    match op
    case Put(p, v) => s.(tree := PutAt(s.tree, p, v), version := s.version + 1)
    case PutBulk(p, kvs) => s.(tree := Trees.Bulk(s.tree, Under(p, kvs)), version := s.version + |kvs|)
    case Delete(p) =>
      if p in s.tree then s.(tree := Remove(s.tree, p), version := s.version + 1) else s
    case Watch(p) => s.(tree := WatchAt(s.tree, p))
    case Unwatch(p) => Enqueue(s.(tree := UnwatchAt(s.tree, p)), p)
    case CleanStep =>
      if s.queue == [] then s else s.(tree := Clean(s.tree, s.queue[0]), queue := s.queue[1..])
  }

  ghost function Run(s: State, ops: seq<Op>): State {
    if ops == [] then s else Apply(Run(s, ops[..|ops| - 1]), ops[|ops| - 1])
  }

  /** The path an operation is given. */
  function PathIn(op: Op): Path {
    match op
    case Put(p, _) => p
    case PutBulk(p, _) => p
    case Delete(p) => p
    case Watch(p) => p
    case Unwatch(p) => p
    case CleanStep => []
  }

  /** Every path is one that cleaning a string leaves: no component is blank or contains a slash. */
  ghost predicate ProperOp(op: Op) {
    Helpers.Proper(PathIn(op)) && (op.PutBulk? ==> forall k :: k in op.values ==> Helpers.Proper(k))
  }

  ghost predicate ProperOps(ops: seq<Op>) {
    forall i :: 0 <= i < |ops| ==> ProperOp(ops[i])
  }

  // ---- A bulk write, key by key -------------------------------------------------------------

  lemma UnderStep(p: Path, kvs: map<Path, string>, k: Path, v: string)
    requires k !in kvs
    ensures p + k !in Under(p, kvs)
    ensures Under(p, kvs[k := v]) == Under(p, kvs)[p + k := v]
  {
  }

  lemma BulkStarts(s: State, p: Path)
    requires Rooted(s.tree)
    ensures Apply(s, PutBulk(p, map[])) == s
  {
  }

  lemma BulkContinues(s: State, p: Path, kvs: map<Path, string>, k: Path, v: string)
    requires Rooted(s.tree) && k !in kvs
    ensures Apply(Apply(s, PutBulk(p, kvs)), Put(p + k, v)) == Apply(s, PutBulk(p, kvs[k := v]))
  {
    hide Rooted, Trees.Bulk, PutAt, Under;
    UnderStep(p, kvs, k, v);
    BulkStep(s.tree, Under(p, kvs), p + k, v);
  }

  // ---- A bulk write of string keys, in some order ------------------------------------------------

  /** Where a string key is written by a bulk write at `p`. A blank key is used as it is: the empty
      one leads to the root, which ignores it. */
  function Target(p: Path, k: string): Path {
    if k == "" then [] else if Helpers.IsBlank(k) then [k] else p + PathOf(k)
  }

  /** The string that a key is appended to leads to its target, also if the key is blank and used as it
      is. */
  lemma TargetText(p: Path, k: string)
    requires Helpers.Proper(p)
    ensures PathOf(Helpers.AppendPathPrefix(k, Helpers.Text(p))) == Target(p, k)
    ensures !Helpers.IsBlank(k) ==> Helpers.AppendPathPrefix(k, Helpers.Text(p)) == Helpers.Text(Target(p, k))
  {
    hide PathOf;
    Helpers.PathOfText(p);
    if Helpers.IsBlank(k) {
      Helpers.BlankPath(k);
    } else {
      Helpers.SplitProper(k);
      Helpers.ProperJoin(p, PathOf(k));
      Helpers.PathOfText(p + PathOf(k));
    }
  }

  /** Each of the keys once. */
  ghost predicate Orders(order: seq<string>, keys: set<string>) {
    && (forall k :: k in order <==> k in keys)
    && forall i, j :: 0 <= i < j < |order| ==> order[i] != order[j]
  }

  ghost function Puts(p: Path, values: map<string, string>, order: seq<string>): (r: seq<Op>)
    requires forall k :: k in order ==> k in values
    ensures |r| == |order|
  {
    if order == [] then []
    else
      var k := order[|order| - 1];
      Puts(p, values, order[..|order| - 1]) + [Put(Target(p, k), values[k])]
  }

  lemma {:induction false} RunConcat(s: State, a: seq<Op>, b: seq<Op>)
    ensures Run(s, a + b) == Run(Run(s, a), b)
    decreases |b|
  {
    hide Apply;
    if b == [] {
      assert a + b == a;
    } else {
      RunConcat(s, a, b[..|b| - 1]);
      assert (a + b)[..|a + b| - 1] == a + b[..|b| - 1];
    }
  }

  lemma RunOneMore(s: State, a: seq<Op>, op: Op)
    ensures Run(s, a + [op]) == Apply(Run(s, a), op)
  {
    hide Apply;
    assert (a + [op])[..|a|] == a;
  }

  ghost function CleanedFirst(values: map<string, string>, order: seq<string>): map<Path, string>
    requires forall k :: k in order ==> k in values
  {
    if order == [] then map[]
    else
      var k := order[|order| - 1];
      CleanedFirst(values, order[..|order| - 1])[PathOf(k) := values[k]]
  }

  lemma {:induction false} CleanedAll(values: map<string, string>, order: seq<string>, q: Path)
    requires forall k :: k in order ==> k in values
    requires Helpers.Separate(values)
    ensures q in CleanedFirst(values, order) <==> exists k :: k in order && PathOf(k) == q
    ensures forall k :: k in order && PathOf(k) == q ==> CleanedFirst(values, order)[q] == values[k]
    decreases |order|
  {
    hide PathOf;
    if order != [] {
      var k := order[|order| - 1];
      CleanedAll(values, order[..|order| - 1], q);
      assert forall j :: j in order <==> j in order[..|order| - 1] || j == k;
    }
  }

  /** Whatever the order, writing the keys one by one is the bulk write of all of them, as long as no
      two lead along the same path. */
  lemma {:induction false} PutsFirst(s: State, p: Path, values: map<string, string>, order: seq<string>)
    requires Rooted(s.tree) && Helpers.Separate(values)
    requires (forall k :: k in order ==> k in values) && forall i, j :: 0 <= i < j < |order| ==> order[i] != order[j]
    ensures Run(s, Puts(p, values, order)) == Apply(s, PutBulk(p, CleanedFirst(values, order)))
    decreases |order|
  {
    hide Apply, PathOf, Rooted, Helpers.IsBlank;
    if order == [] {
      BulkStarts(s, p);
    } else {
      var before, k := order[..|order| - 1], order[|order| - 1];
      PutsFirst(s, p, values, before);
      assert k in order && forall j :: j in before ==> j != k && j in order;
      CleanedAll(values, before, PathOf(k));
      RunOneMore(s, Puts(p, values, before), Put(p + PathOf(k), values[k]));
      NotBlank(values, k);
      BulkContinues(s, p, CleanedFirst(values, before), PathOf(k), values[k]);
    }
  }

  lemma NotBlank(values: map<string, string>, k: string)
    requires Helpers.Separate(values) && k in values
    ensures forall p :: Target(p, k) == p + PathOf(k)
  {
  }

  lemma PutsBulk(s: State, p: Path, values: map<string, string>, order: seq<string>)
    requires Rooted(s.tree) && Helpers.Separate(values) && Orders(order, values.Keys)
    ensures Run(s, Puts(p, values, order)) == Apply(s, PutBulk(p, Helpers.Cleaned(values)))
  {
    hide Apply, PathOf, Rooted, Run;
    PutsFirst(s, p, values, order);
    AllCleaned(values, order);
  }

  lemma AllCleaned(values: map<string, string>, order: seq<string>)
    requires Helpers.Separate(values) && Orders(order, values.Keys)
    ensures CleanedFirst(values, order) == Helpers.Cleaned(values)
  {
    hide PathOf;
    var a, b := CleanedFirst(values, order), Helpers.Cleaned(values);
    forall q
      ensures q in a <==> q in b
      ensures q in a ==> a[q] == b[q]
    {
      CleanedAll(values, order, q);
    }
    assert a == b;
  }

  lemma PutsOne(p: Path, values: map<string, string>, order: seq<string>, k: string)
    requires k in values && forall j :: j in order ==> j in values
    ensures Puts(p, values, order + [k]) == Puts(p, values, order) + [Put(Target(p, k), values[k])]
  {
    assert (order + [k])[..|order|] == order;
  }

  lemma NoPuts(s: State, p: Path, values: map<string, string>)
    ensures Puts(p, values, []) == [] && Run(s, []) == s && Orders([], {})
  {
  }

  lemma OrdersOne(order: seq<string>, keys: set<string>, k: string)
    requires Orders(order, keys) && k !in keys
    ensures Orders(order + [k], keys + {k})
  {
    assert k !in order;
  }

  lemma {:induction false} PutsProper(p: Path, values: map<string, string>, order: seq<string>)
    requires Helpers.Proper(p) && forall k :: k in order ==> k in values
    ensures ProperOps(Puts(p, values, order))
    decreases |order|
  {
    hide PathOf;
    if order != [] {
      var k := order[|order| - 1];
      PutsProper(p, values, order[..|order| - 1]);
      Helpers.SplitProper(k);
    }
  }

  // ---- Clean paths all the way -------------------------------------------------------------------

  ghost predicate ProperTree(t: Tree) {
    forall q :: q in t ==> Helpers.Proper(q)
  }

  lemma ProperPrefix(q: Path, p: Path)
    requires Helpers.Proper(p) && q <= p
    ensures Helpers.Proper(q)
  {
    forall c | c in q
      ensures c in p
    {
      var i :| 0 <= i < |q| && q[i] == c;
      assert p[i] == c;
    }
  }

  lemma ApplyProper(s: State, op: Op)
    requires ProperTree(s.tree) && ProperOp(op)
    ensures ProperTree(Apply(s, op).tree)
  {
    hide Helpers.Proper, BulkCell;
    var t := s.tree;
    match op {
      case Put(p, v) =>
        if p != [] { BulkProper(t, map[p := v]); }
      case PutBulk(p, kvs) =>
        forall q | q in Under(p, kvs)
          ensures Helpers.Proper(q)
        {
          assert q == p + q[|p|..];
          Helpers.ProperJoin(p, q[|p|..]);
        }
        BulkProper(t, Under(p, kvs));
      case Delete(p) => RemoveShrinks(t, p);
      case Watch(p) =>
        forall q | q in WatchAt(t, p)
          ensures Helpers.Proper(q)
        {
          if q !in t { ProperPrefix(q, p); }
        }
      case Unwatch(_) =>
      case CleanStep =>
        if s.queue != [] { CleanShrinks(t, s.queue[0]); }
    }
  }

  lemma BulkProper(t: Tree, kvs: map<Path, string>)
    requires ProperTree(t) && forall k :: k in kvs ==> Helpers.Proper(k)
    ensures ProperTree(Trees.Bulk(t, kvs))
  {
    hide Helpers.Proper, BulkCell;
    forall q | q in Trees.Bulk(t, kvs)
      ensures Helpers.Proper(q)
    {
      if q !in t {
        var k :| k in kvs && q <= k;
        ProperPrefix(q, k);
      }
    }
  }

  lemma RemoveShrinks(t: Tree, p: Path)
    ensures Remove(t, p).Keys <= t.Keys
  {
    if p != [] {
      CleanShrinks(Empty(t, p), Parent(p));
    }
  }

  /** Every node of a store that was given clean paths has one. */
  lemma {:induction false} RunProper(ops: seq<Op>)
    requires ProperOps(ops)
    ensures ProperTree(Run(INIT, ops).tree)
    decreases |ops|
  {
    hide Apply, ProperTree;
    if ops == [] {
      assert ProperTree(EMPTY) by { EmptyProper(); }
    } else {
      RunProper(ops[..|ops| - 1]);
      ApplyProper(Run(INIT, ops[..|ops| - 1]), ops[|ops| - 1]);
    }
  }

  lemma EmptyProper()
    ensures ProperTree(EMPTY)
  {
  }
}
