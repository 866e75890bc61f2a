/** Replicas. A source (another store, or etcd) produces a log of changes to its keys, which may nest.
    The replica subscribes, then takes a snapshot that may already contain some of the logged changes,
    then applies the log from its subscription on; it may fall back and apply part of it again. */
module Mirror {
  import opened Paths
  import opened Events
  import opened Trees
  import opened Machine
  import opened Invariants
  import opened Refinement
  import opened Visibility

  // ---- The source ------------------------------------------------------------------------------

  ghost function Change(v: map<Path, string>, e: Event): map<Path, string> {
    match e.action
    case Delete => v - {e.path}
    case Update => v[e.path := e.value]
  }

  /** The source's keys after a log of changes. */
  ghost function History(v: map<Path, string>, log: seq<Event>): map<Path, string> {
    if log == [] then v else Change(History(v, log[..|log| - 1]), log[|log| - 1])
  }

  ghost function KeysAt(v: map<Path, string>, log: seq<Event>, i: nat): map<Path, string>
    requires i <= |log|
  {
    History(v, log[..i])
  }

  /** Keys that a store can hold: the root is none, and no empty string has a key below it. */
  ghost predicate Storable(v: map<Path, string>) {
    [] !in v && forall k :: k in v && v[k] == "" ==> !KeyBelow(v, k)
  }

  /** The keys are such throughout, and no key is deleted that has others below it. Keys may nest. */
  ghost predicate Sound(v: map<Path, string>, log: seq<Event>) {
    && (forall i :: 0 <= i <= |log| ==> Storable(KeysAt(v, log, i)))
    && (forall i :: 0 <= i < |log| && log[i].action == Action.Delete ==> !KeyBelow(KeysAt(v, log, i), log[i].path))
  }

  lemma AtStep(v: map<Path, string>, log: seq<Event>, i: nat)
    requires i < |log|
    ensures KeysAt(v, log, i + 1) == Change(KeysAt(v, log, i), log[i])
  {
    assert log[..i + 1][..i] == log[..i];
  }

  lemma AtPrefix(v: map<Path, string>, log: seq<Event>, more: seq<Event>, i: nat)
    requires i <= |log|
    ensures KeysAt(v, log + more, i) == KeysAt(v, log, i)
  {
    assert (log + more)[..i] == log[..i];
  }

  // ---- The replica -----------------------------------------------------------------------------

  /** `start`: the keys when the replica subscribed; `log`: the changes since; `ops`: what was done
      to the replica's store; `pos`: how many changes it has applied; `high`: how many its contents
      may reflect. */
  datatype Sync = Sync(start: map<Path, string>, log: seq<Event>, ops: seq<Op>, pos: nat, high: nat)

  datatype Step =
    | Append(change: Event)  // the source changes
    | Deliver                // the next change is applied to the replica
    | Resume(from: nat)      // delivery starts again at a change that was applied before
    | Local(op: Op)          // somebody watches the replica's store, or it is cleaned

  ghost function OpOf(e: Event): Op {
    match e.action
    case Delete => Op.Delete(e.path)
    case Update => Put(e.path, e.value)
  }

  /** Subscribed, then a snapshot of the source taken after all of `log`, put into a fresh store. */
  ghost function Subscribe(start: map<Path, string>, log: seq<Event>): Sync {
    Sync(start, log, [PutBulk([], KeysAt(start, log, |log|))], 0, |log|)
  }

  ghost predicate Enabled(m: Sync, s: Step) {
    match s
    case Append(e) => Sound(m.start, m.log + [e])
    case Deliver => m.pos < |m.log|
    case Resume(j) => j <= m.pos
    case Local(op) => WritesNothing(op)
  }

  ghost function Take(m: Sync, s: Step): Sync
    requires Enabled(m, s)
  {
    match s
    case Append(e) => m.(log := m.log + [e])
    case Deliver =>
      m.(ops := m.ops + [OpOf(m.log[m.pos])], pos := m.pos + 1,
         high := if m.high < m.pos + 1 then m.pos + 1 else m.high)
    case Resume(j) => m.(pos := j)
    case Local(op) => m.(ops := m.ops + [op])
  }

  ghost predicate EnabledAll(m: Sync, ss: seq<Step>)
    decreases |ss|
  {
    ss == [] || (Enabled(m, ss[0]) && EnabledAll(Take(m, ss[0]), ss[1..]))
  }

  ghost function TakeAll(m: Sync, ss: seq<Step>): Sync
    requires EnabledAll(m, ss)
    decreases |ss|
  {
    if ss == [] then m else TakeAll(Take(m, ss[0]), ss[1..])
  }

  // ---- The invariant ---------------------------------------------------------------------------

  /** The source held `x` at `p` at some moment from `lo` to `hi`. */
  ghost predicate Seen(v: map<Path, string>, log: seq<Event>, lo: nat, hi: nat, p: Path, x: string)
    requires hi <= |log|
  {
    exists i :: lo <= i <= hi && p in KeysAt(v, log, i) && KeysAt(v, log, i)[p] == x
  }

  /** The source held `x` at `p` throughout. */
  ghost predicate Steady(v: map<Path, string>, log: seq<Event>, lo: nat, hi: nat, p: Path, x: string)
    requires hi <= |log|
  {
    forall i :: lo <= i <= hi ==> p in KeysAt(v, log, i) && KeysAt(v, log, i)[p] == x
  }

  /** The replica stores only what the source held at some moment from `pos` to `high`, and all
      that the source held unchanged throughout. */
  ghost predicate Tracks(m: Sync, f: map<Path, string>) {
    && m.pos <= m.high <= |m.log| && Sound(m.start, m.log)
    && (forall p :: p in f ==> Seen(m.start, m.log, m.pos, m.high, p, f[p]))
    && (forall p, x :: Steady(m.start, m.log, m.pos, m.high, p, x) ==> p in f)
  }

  ghost predicate Good(m: Sync) {
    Tracks(m, FlatRun(m.ops))
  }

  lemma StorableNormal(v: map<Path, string>)
    ensures Storable(v) <==> Normal(v) == v
  {
    if Normal(v) == v {
      assert forall k :: k in v ==> k in Normal(v);
    }
  }

  lemma SnapshotHeld(v: map<Path, string>)
    requires Storable(v)
    ensures FlatRun([PutBulk([], v)]) == v
  {
    hide Normal, Storable;
    FlatRunOne([], PutBulk([], v));
    assert [] + [PutBulk([], v)] == [PutBulk([], v)];
    forall q: Path ensures [] + q == q {}
    assert Under([], v) == v;
    assert map[] + v == v;
    StorableNormal(v);
  }

  /** Subscribed, and then given all keys of the moment, by whatever operations. */
  lemma CopiedGood(m: Sync)
    requires Sound(m.start, m.log) && m.pos == 0 && m.high == |m.log|
    requires FlatRun(m.ops) == KeysAt(m.start, m.log, |m.log|)
    ensures Good(m)
  {
    hide FlatRun, KeysAt, Sound;
  }

  /** Up to date at some moment of the log. */
  lemma LevelGood(m: Sync)
    requires Sound(m.start, m.log) && m.pos == m.high <= |m.log|
    requires FlatRun(m.ops) == KeysAt(m.start, m.log, m.pos)
    ensures Good(m)
  {
    hide FlatRun, KeysAt, Sound;
  }

  lemma SubscribeGood(start: map<Path, string>, log: seq<Event>)
    requires Sound(start, log)
    ensures Good(Subscribe(start, log))
  {
    hide FlatRun, KeysAt;
    SnapshotHeld(KeysAt(start, log, |log|));
    CopiedGood(Subscribe(start, log));
  }

  /** The source may change any number of times. */
  lemma AppendGood(m: Sync, more: seq<Event>)
    requires Good(m) && Sound(m.start, m.log + more)
    ensures Good(m.(log := m.log + more))
  {
    hide FlatRun, History, PrefixFree, Sound;
    var u := m.(log := m.log + more);
    forall i | 0 <= i <= |m.log|
      ensures KeysAt(u.start, u.log, i) == KeysAt(m.start, m.log, i)
    {
      AtPrefix(m.start, m.log, more, i);
    }
    forall p | p in FlatRun(m.ops)
      ensures Seen(u.start, u.log, u.pos, u.high, p, FlatRun(m.ops)[p])
    {
      assert Seen(m.start, m.log, m.pos, m.high, p, FlatRun(m.ops)[p]);
    }
    forall p, x | Steady(u.start, u.log, u.pos, u.high, p, x)
      ensures p in FlatRun(m.ops)
    {
      assert Steady(m.start, m.log, m.pos, m.high, p, x);
    }
  }

  lemma ResumeGood(m: Sync, j: nat)
    requires Good(m) && j <= m.pos
    ensures Good(Take(m, Resume(j)))
  {
    hide KeysAt, FlatRun, Sound;
    forall p | p in FlatRun(m.ops)
      ensures Seen(m.start, m.log, j, m.high, p, FlatRun(m.ops)[p])
    {
      assert Seen(m.start, m.log, m.pos, m.high, p, FlatRun(m.ops)[p]);
    }
    forall p, x | Steady(m.start, m.log, j, m.high, p, x)
      ensures p in FlatRun(m.ops)
    {
      assert Steady(m.start, m.log, m.pos, m.high, p, x);
    }
  }

  // ---- One delivery ----------------------------------------------------------------------------

  /** What the source held at some moment, and the next change does not touch, it still holds at
      that moment or the next. */
  lemma SeenOn(v: map<Path, string>, log: seq<Event>, lo: nat, hi: nat, p: Path, x: string)
    requires lo < |log| && lo <= hi <= |log| && Seen(v, log, lo, hi, p, x) && p != log[lo].path
    ensures Seen(v, log, lo + 1, if hi < lo + 1 then lo + 1 else hi, p, x)
  {
    var i :| lo <= i <= hi && p in KeysAt(v, log, i) && KeysAt(v, log, i)[p] == x;
    AtStep(v, log, lo);
    var j := if i == lo then lo + 1 else i;
    assert p in KeysAt(v, log, j) && KeysAt(v, log, j)[p] == x;
  }

  lemma DeliverSeen(m: Sync, f: map<Path, string>, p: Path)
    requires Tracks(m, f) && m.pos < |m.log|
    requires p in FlatApply(f, OpOf(m.log[m.pos]))
    ensures var u := Take(m, Deliver);
            Seen(u.start, u.log, u.pos, u.high, p, FlatApply(f, OpOf(m.log[m.pos]))[p])
  {
    hide Sound, Steady, KeysAt, KeyBelow;
    var e := m.log[m.pos];
    if e.action == Update && p == e.path {
      SeenNow(m.start, m.log, m.pos, m.high);
    } else {
      assert p in f && Seen(m.start, m.log, m.pos, m.high, p, f[p]);
      assert p != e.path;
      SeenOn(m.start, m.log, m.pos, m.high, p, f[p]);
    }
  }

  lemma SeenNow(v: map<Path, string>, log: seq<Event>, lo: nat, hi: nat)
    requires lo < |log| && lo <= hi <= |log| && log[lo].action == Update
    ensures Seen(v, log, lo + 1, if hi < lo + 1 then lo + 1 else hi, log[lo].path, log[lo].value)
  {
    AtStep(v, log, lo);
    assert log[lo].path in KeysAt(v, log, lo + 1);
  }

  /** Nothing the replica stores lies below an empty string that the source holds from the next moment
      on, when that moment comes by an update. */
  lemma NothingBelow(v: map<Path, string>, log: seq<Event>, lo: nat, hi: nat, p: Path, k: Path, x: string)
    requires Sound(v, log) && lo < |log| && lo <= hi <= |log| && log[lo].action == Update
    requires Seen(v, log, lo, hi, k, x)
    requires Steady(v, log, lo + 1, if hi < lo + 1 then lo + 1 else hi, p, "")
    ensures !(p < k)
  {
    hide Sound, History, Change;
    var i :| lo <= i <= hi && k in KeysAt(v, log, i) && KeysAt(v, log, i)[k] == x;
    var j := if i == lo then lo + 1 else i;
    StillThere(v, log, lo, k);
    assert k in KeysAt(v, log, j) && p in KeysAt(v, log, j);
    BareEmpty(v, log, j, p, k);
  }

  /** At no moment does a key of the source lie below an empty one, or at the root. */
  lemma BareEmpty(v: map<Path, string>, log: seq<Event>, i: nat, p: Path, k: Path)
    requires Sound(v, log) && i <= |log| && p in KeysAt(v, log, i) && k in KeysAt(v, log, i)
    ensures p != [] && (KeysAt(v, log, i)[p] == "" ==> !(p < k))
  {
    hide KeysAt;
  }

  lemma StillThere(v: map<Path, string>, log: seq<Event>, i: nat, k: Path)
    requires i < |log| && (log[i].action == Update || log[i].path != k)
    ensures k in KeysAt(v, log, i) ==> k in KeysAt(v, log, i + 1)
  {
    AtStep(v, log, i);
  }

  lemma SteadyBefore(v: map<Path, string>, log: seq<Event>, lo: nat, hi: nat, p: Path, x: string)
    requires lo < |log| && lo <= hi <= |log|
    requires Steady(v, log, lo + 1, if hi < lo + 1 then lo + 1 else hi, p, x)
    requires log[lo].action == Update ==> p != log[lo].path
    ensures Steady(v, log, lo, hi, p, x) && p in KeysAt(v, log, lo)
    ensures p != log[lo].path
  {
    AtStep(v, log, lo);
    assert p in KeysAt(v, log, lo + 1);
    forall i | lo <= i <= hi ensures p in KeysAt(v, log, i) && KeysAt(v, log, i)[p] == x {
    }
  }

  lemma DeliverKept(m: Sync, f: map<Path, string>, p: Path, x: string)
    requires Tracks(m, f) && m.pos < |m.log|
    requires var u := Take(m, Deliver); Steady(u.start, u.log, u.pos, u.high, p, x)
    ensures p in FlatApply(f, OpOf(m.log[m.pos]))
  {
    hide Sound, KeysAt, Seen;
    var e := m.log[m.pos];
    var h := if m.high < m.pos + 1 then m.pos + 1 else m.high;
    assert p in KeysAt(m.start, m.log, m.pos + 1) && KeysAt(m.start, m.log, m.pos + 1)[p] == x;
    if e.action == Update {
      var n := f + map[e.path := e.value];
      UpdatedIn(m.start, m.log, m.pos);
      BareEmpty(m.start, m.log, m.pos + 1, p, e.path);
      if p != e.path {
        SteadyBefore(m.start, m.log, m.pos, m.high, p, x);
        SteadyValue(m, f, p, x);
      }
      assert p in n && n[p] == x;
      if x == "" {
        forall k | k in n
          ensures !(p < k)
        {
          if k != e.path {
            NothingBelow(m.start, m.log, m.pos, m.high, p, k, f[k]);
          }
        }
      }
    } else {
      SteadyBefore(m.start, m.log, m.pos, m.high, p, x);
      DeletedBare(m.start, m.log, m.pos, p);
    }
  }

  /** What was there throughout is there with its value. */
  lemma SteadyValue(m: Sync, f: map<Path, string>, p: Path, x: string)
    requires Tracks(m, f) && Steady(m.start, m.log, m.pos, m.high, p, x)
    ensures p in f && f[p] == x
  {
    hide Sound, KeysAt;
    assert Seen(m.start, m.log, m.pos, m.high, p, f[p]);
  }

  lemma UpdatedIn(v: map<Path, string>, log: seq<Event>, i: nat)
    requires i < |log| && log[i].action == Update
    ensures log[i].path in KeysAt(v, log, i + 1) && KeysAt(v, log, i + 1)[log[i].path] == log[i].value
  {
    AtStep(v, log, i);
  }

  lemma DeletedBare(v: map<Path, string>, log: seq<Event>, i: nat, p: Path)
    requires Sound(v, log) && i < |log| && log[i].action == Action.Delete && p in KeysAt(v, log, i) && p != log[i].path
    ensures !(log[i].path <= p)
  {
    hide KeysAt;
    if log[i].path <= p {
      Strict(log[i].path, p);
    }
  }

  lemma DeliverGood(m: Sync)
    requires Good(m) && m.pos < |m.log|
    ensures Good(Take(m, Deliver))
  {
    hide FlatRun, FlatApply, KeysAt, Seen, Steady, Sound;
    var f := FlatRun(m.ops);
    var u := Take(m, Deliver);
    FlatRunOne(m.ops, OpOf(m.log[m.pos]));
    forall p | p in FlatRun(u.ops)
      ensures Seen(u.start, u.log, u.pos, u.high, p, FlatRun(u.ops)[p])
    {
      DeliverSeen(m, f, p);
    }
    forall p, x | Steady(u.start, u.log, u.pos, u.high, p, x)
      ensures p in FlatRun(u.ops)
    {
      DeliverKept(m, f, p, x);
    }
  }

  // ---- Convergence -----------------------------------------------------------------------------

  lemma TakeGood(m: Sync, s: Step)
    requires Good(m) && Enabled(m, s)
    ensures Good(Take(m, s))
  {
    match s {
      case Append(e) => AppendGood(m, [e]);
      case Deliver => DeliverGood(m);
      case Resume(j) => ResumeGood(m, j);
      case Local(op) => FlatRunOne(m.ops, op);
    }
  }

  lemma {:induction false} TakeAllGood(m: Sync, ss: seq<Step>)
    requires Good(m) && EnabledAll(m, ss)
    ensures Good(TakeAll(m, ss))
    decreases |ss|
  {
    if ss != [] {
      TakeGood(m, ss[0]);
      TakeAllGood(Take(m, ss[0]), ss[1..]);
    }
  }

  /** A store that went through `ops` was told exactly `v`. It holds just that if no operation lost an
      empty string; readers then see the keys of `v` that have none below them exactly if none of these
      lies strictly above a node that is held. */
  ghost predicate Equals(ops: seq<Op>, v: map<Path, string>) {
    var s := Run(INIT, ops);
    && FlatRun(ops) == v
    && (Keeping(ops) ==> Contents(s.tree) == v && (Visible(s.tree) == Maximal(v) <==> Unhidden(s, v)))
    && ((forall i :: 0 <= i < |ops| ==> !WatchOp(ops[i])) ==> Contents(s.tree) == v && Visible(s.tree) == Maximal(v))
  }

  lemma Equal(ops: seq<Op>)
    ensures Equals(ops, FlatRun(ops))
  {
    hide FlatRun, Machine.Run, Visible, Contents, Unhidden, Maximal, Keeping, Faithful;
    if forall i :: 0 <= i < |ops| ==> !WatchOp(ops[i]) {
      RunRefines(ops);
      QuietReads(ops);
    }
    if Keeping(ops) {
      RunStores(ops);
      RunReads(ops);
    }
  }

  /** A replica that has applied as many changes as it may reflect has the source's keys. */
  lemma Caught(m: Sync)
    requires Good(m) && m.pos == m.high
    ensures m.pos <= |m.log| && Equals(m.ops, KeysAt(m.start, m.log, m.pos))
  {
    hide FlatRun, KeysAt, Equals;
    CaughtUp(m, FlatRun(m.ops));
    Equal(m.ops);
  }

  lemma CaughtUp(m: Sync, f: map<Path, string>)
    requires Tracks(m, f) && m.pos == m.high
    ensures f == KeysAt(m.start, m.log, m.pos)
  {
    hide History, Sound;
    var v := KeysAt(m.start, m.log, m.pos);
    forall p
      ensures p in f <==> p in v
      ensures p in f ==> f[p] == v[p]
    {
      if p in f {
        assert Seen(m.start, m.log, m.pos, m.high, p, f[p]);
      }
      if p in v {
        assert Steady(m.start, m.log, m.pos, m.high, p, v[p]);
      }
    }
    assert f == v;
  }

  /** Whatever changes the snapshot already contained, whatever the source does meanwhile and
      however often delivery falls back: once the replica has applied as many changes as its
      contents may reflect, it has exactly the source's keys at that point of the log. */
  lemma Converges(start: map<Path, string>, log: seq<Event>, ss: seq<Step>)
    requires Sound(start, log) && EnabledAll(Subscribe(start, log), ss)
    ensures var m := TakeAll(Subscribe(start, log), ss);
            m.pos == m.high ==> m.pos <= |m.log| && Equals(m.ops, KeysAt(m.start, m.log, m.pos))
  {
    hide Sound, KeysAt, Equals, Good, Enabled, Take;
    SubscribeGood(start, log);
    TakeAllGood(Subscribe(start, log), ss);
    var m := TakeAll(Subscribe(start, log), ss);
    if m.pos == m.high {
      Caught(m);
    }
  }

  // ---- Sources that can be mirrored --------------------------------------------------------------

  /** A replica that subscribed before anything changed. */
  ghost function Plain(start: map<Path, string>, log: seq<Event>): Sync {
    Sync(start, log, [PutBulk([], start)], 0, 0)
  }

  /** However its steps follow each other, the replica has the source's keys whenever it caught up. */
  ghost predicate AlwaysCatches(m: Sync) {
    forall ss :: EnabledAll(m, ss) && TakeAll(m, ss).pos == TakeAll(m, ss).high <= |TakeAll(m, ss).log| ==>
      FlatRun(TakeAll(m, ss).ops) == KeysAt(m.start, TakeAll(m, ss).log, TakeAll(m, ss).pos)
  }

  /** Applied one after the other, the changes keep the replica in step with the source. */
  ghost predicate InStep(start: map<Path, string>, log: seq<Event>) {
    forall i :: 0 <= i <= |log| ==> FlatRun([PutBulk([], start)] + OpsOf(log[..i])) == KeysAt(start, log, i)
  }

  /** The sources that a replica can follow are exactly the sound ones: changes that nest keys are no
      obstacle unless a key is deleted that has others below it, or an empty string gets a key below.
      A replica that can follow one change after the other can follow them in any overlap. */
  lemma ConvergesExactly(start: map<Path, string>, log: seq<Event>)
    requires Storable(start)
    ensures Sound(start, log) <==> AlwaysCatches(Plain(start, log))
    ensures Sound(start, log) <==> InStep(start, log)
  {
    hide Sound, FlatRun, KeysAt, Good, InStep, AlwaysCatches;
    if Sound(start, log) {
      SoundCatches(start, log);
    }
    if AlwaysCatches(Plain(start, log)) {
      CatchesInStep(start, log);
    }
    if InStep(start, log) {
      InStepSound(start, log);
    }
  }

  lemma SoundCatches(start: map<Path, string>, log: seq<Event>)
    requires Sound(start, log)
    ensures AlwaysCatches(Plain(start, log))
  {
    hide Sound, FlatRun, KeysAt, Enabled, Take, Good, EnabledAll, TakeAll, Tracks;
    var m := Plain(start, log);
    PlainGood(start, log);
    forall ss | EnabledAll(m, ss) && TakeAll(m, ss).pos == TakeAll(m, ss).high <= |TakeAll(m, ss).log|
      ensures FlatRun(TakeAll(m, ss).ops) == KeysAt(m.start, TakeAll(m, ss).log, TakeAll(m, ss).pos)
    {
      TakeAllGood(m, ss);
      TakeAllStart(m, ss);
      GoodCaught(TakeAll(m, ss));
    }
  }

  lemma GoodCaught(m: Sync)
    requires Good(m) && m.pos == m.high <= |m.log|
    ensures FlatRun(m.ops) == KeysAt(m.start, m.log, m.pos)
  {
    hide FlatRun, KeysAt, Tracks;
    CaughtUp(m, FlatRun(m.ops));
  }

  lemma PlainGood(start: map<Path, string>, log: seq<Event>)
    requires Sound(start, log)
    ensures Good(Plain(start, log))
  {
    hide FlatRun, Good;
    assert log[..0] == [] && KeysAt(start, log, 0) == start;
    SnapshotHeld(start);
    LevelGood(Plain(start, log));
  }

  lemma {:induction false} TakeAllStart(m: Sync, ss: seq<Step>)
    requires EnabledAll(m, ss)
    ensures TakeAll(m, ss).start == m.start
    decreases |ss|
  {
    hide Enabled;
    if ss != [] {
      TakeAllStart(Take(m, ss[0]), ss[1..]);
    }
  }

  lemma {:induction false} TakeLast(m: Sync, ss: seq<Step>, s: Step)
    requires EnabledAll(m, ss) && Enabled(TakeAll(m, ss), s)
    ensures EnabledAll(m, ss + [s]) && TakeAll(m, ss + [s]) == Take(TakeAll(m, ss), s)
    decreases |ss|
  {
    hide Enabled, Take;
    if ss == [] {
      assert [s][1..] == [];
    } else {
      assert (ss + [s])[1..] == ss[1..] + [s];
      TakeLast(Take(m, ss[0]), ss[1..], s);
    }
  }

  lemma {:induction false} InOrder(start: map<Path, string>, log: seq<Event>, i: nat) returns (ss: seq<Step>)
    requires i <= |log|
    ensures EnabledAll(Plain(start, log), ss)
    ensures TakeAll(Plain(start, log), ss) == Sync(start, log, [PutBulk([], start)] + OpsOf(log[..i]), i, i)
    decreases i
  {
    hide OpOf;
    var m := Plain(start, log);
    if i == 0 {
      ss := [];
      assert log[..0] == [] && m.ops + [] == m.ops;
    } else {
      ss := InOrder(start, log, i - 1);
      assert log[..i][..i - 1] == log[..i - 1];
      TakeLast(m, ss, Deliver);
      ss := ss + [Deliver];
      assert m.ops + (OpsOf(log[..i - 1]) + [OpOf(log[i - 1])]) == m.ops + OpsOf(log[..i - 1]) + [OpOf(log[i - 1])];
    }
  }

  lemma CatchesInStep(start: map<Path, string>, log: seq<Event>)
    requires AlwaysCatches(Plain(start, log))
    ensures InStep(start, log)
  {
    hide FlatRun, KeysAt, OpsOf, EnabledAll, TakeAll;
    forall i | 0 <= i <= |log|
      ensures FlatRun([PutBulk([], start)] + OpsOf(log[..i])) == KeysAt(start, log, i)
    {
      var ss := InOrder(start, log, i);
    }
  }

  lemma InStepSound(start: map<Path, string>, log: seq<Event>)
    requires InStep(start, log) && Storable(start)
    ensures Sound(start, log)
  {
    hide FlatRun, KeysAt, Change, FlatApply, Storable, KeyBelow, OpsOf;
    forall i | 0 <= i <= |log|
      ensures Storable(KeysAt(start, log, i))
    {
      FlatStorable([PutBulk([], start)] + OpsOf(log[..i]));
    }
    forall i | 0 <= i < |log| && log[i].action == Action.Delete
      ensures !KeyBelow(KeysAt(start, log, i), log[i].path)
    {
      InStepOne(start, log, i);
      StorableNormal(KeysAt(start, log, i));
      MirroredExactly(KeysAt(start, log, i), log[i]);
    }
  }

  lemma InStepOne(start: map<Path, string>, log: seq<Event>, i: nat)
    requires InStep(start, log) && i < |log|
    ensures FlatApply(KeysAt(start, log, i), OpOf(log[i])) == Change(KeysAt(start, log, i), log[i])
  {
    hide FlatRun, KeysAt, Change, FlatApply, OpOf;
    var first := [PutBulk([], start)];
    assert log[..i + 1][..i] == log[..i];
    assert first + (OpsOf(log[..i]) + [OpOf(log[i])]) == first + OpsOf(log[..i]) + [OpOf(log[i])];
    assert OpsOf(log[..i + 1]) == OpsOf(log[..i]) + [OpOf(log[i])];
    FlatRunOne(first + OpsOf(log[..i]), OpOf(log[i]));
    AtStep(start, log, i);
    assert FlatRun(first + OpsOf(log[..i])) == KeysAt(start, log, i);
    assert FlatRun(first + OpsOf(log[..i + 1])) == KeysAt(start, log, i + 1);
  }

  /** A flat map that operations were applied to is always one a store can hold. */
  lemma {:induction false} FlatStorable(ops: seq<Op>)
    ensures Storable(FlatRun(ops))
    decreases |ops|
  {
    hide Storable, FlatApply;
    if ops == [] {
      assert Storable(map[]) by { NoneStorable(); }
    } else {
      FlatStorable(ops[..|ops| - 1]);
      FlatApplyStorable(FlatRun(ops[..|ops| - 1]), ops[|ops| - 1]);
    }
  }

  lemma NoneStorable()
    ensures Storable(map[])
  {
  }

  lemma FlatApplyStorable(m: map<Path, string>, op: Op)
    requires Storable(m)
    ensures Storable(FlatApply(m, op))
  {
    match op {
      case Put(p, v) => NormalStorable(m + map[p := v]);
      case PutBulk(p, kvs) => NormalStorable(m + Under(p, kvs));
      case _ =>
    }
  }

  lemma NormalStorable(m: map<Path, string>)
    ensures Storable(Normal(m))
  {
  }

  // ---- A store as the source -------------------------------------------------------------------

  /** A log of genuine changes, such as a store keeps, is a sound source, and its keys never nest. */
  lemma {:induction false} PlayedSound(v: map<Path, string>, log: seq<Event>)
    requires Flat(v) && Play(v, log).Some?
    ensures Sound(v, log) && KeysAt(v, log, |log|) == Play(v, log).value && Flat(Play(v, log).value)
    decreases |log|
  {
    hide Flat, Change, Edit, Storable, KeyBelow;
    assert log[..|log|] == log;
    if log == [] {
      assert forall i :: 0 <= i <= |log| ==> log[..i] == log;
      FlatBare(v);
    } else {
      var before, e := log[..|log| - 1], log[|log| - 1];
      PlayedSound(v, before);
      assert before[..|before|] == before;
      var u := KeysAt(v, log, |before|);
      AtStep(v, log, |before|);
      EditFlat(u, e);
      FlatBare(u);
      FlatBare(Change(u, e));
      SoundOne(v, before, e);
      assert before + [e] == log;
    }
  }

  lemma FlatBare(v: map<Path, string>)
    requires Flat(v)
    ensures Storable(v) && forall k :: k in v ==> !KeyBelow(v, k)
  {
  }

  lemma SoundOne(v: map<Path, string>, log: seq<Event>, e: Event)
    requires Sound(v, log) && Storable(Change(KeysAt(v, log, |log|), e))
    requires e.action == Action.Delete ==> !KeyBelow(KeysAt(v, log, |log|), e.path)
    ensures Sound(v, log + [e])
  {
    hide Change, Storable, KeyBelow, KeysAt;
    forall i | 0 <= i <= |log|
      ensures KeysAt(v, log + [e], i) == KeysAt(v, log, i)
    {
      AtPrefix(v, log, [e], i);
    }
    AtStep(v, log + [e], |log|);
  }

  lemma PlayedFlat(log: seq<Event>)
    requires Play(map[], log).Some?
    ensures Flat(Play(map[], log).value)
  {
  }

  lemma EditFlat(v: map<Path, string>, e: Event)
    requires Flat(v) && Edit(v, e).Some?
    ensures Flat(Change(v, e)) && Edit(v, e) == Some(Change(v, e))
    ensures e.action == Action.Delete ==> e.path in v
  {
  }

  ghost function OpsOf(log: seq<Event>): seq<Op> {
    if log == [] then [] else OpsOf(log[..|log| - 1]) + [OpOf(log[|log| - 1])]
  }

  /** The events are an exact edit script: written to any unwatched store that holds the same keys,
      they lead it to the same keys again, with nothing hidden. */
  lemma {:induction false} EditScript(s: State, log: seq<Event>)
    requires Inv(s) && Quiet(s) && Flat(Contents(s.tree)) && Play(Contents(s.tree), log).Some?
    ensures var u := Run(s, OpsOf(log));
            && Inv(u) && Quiet(u) && Flat(Contents(u.tree))
            && Contents(u.tree) == Play(Contents(s.tree), log).value == Visible(u.tree)
    decreases |log|
  {
    hide FlatApply, Flat, Apply, Inv, Quiet, Visible, Contents, Edit;
    var v := Contents(s.tree);
    if log != [] {
      var before, e := log[..|log| - 1], log[|log| - 1];
      EditScript(s, before);
      var u := Run(s, OpsOf(before));
      EditIsOp(Contents(u.tree), e);
      RunOneMore(s, OpsOf(before), OpOf(e));
      ApplyRefines(u, OpOf(e));
      ApplyInv(u, OpOf(e));
      EditFlat(Contents(u.tree), e);
    }
    QuietShows(Run(s, OpsOf(log)));
    FlatNormal(Contents(Run(s, OpsOf(log)).tree));
  }

  lemma QuietShows(s: State)
    requires Inv(s) && Quiet(s)
    ensures Visible(s.tree) == Maximal(Contents(s.tree))
  {
    QuietUnhidden(s);
    SeenThroughWatches(s);
  }

  /** A store shows the same keys as the source, whatever changes of the source are written to it,
      exactly if it starts with nothing hidden. */
  lemma EditScriptExactly(s: State)
    requires Inv(s) && Quiet(s)
    ensures Contents(s.tree) == Visible(s.tree) <==>
              forall log :: Follows(s, log)
  {
    hide Follows, Inv, Quiet, Visible, Contents, Apply;
    if Contents(s.tree) == Visible(s.tree) {
      VisibleFlat(s);
      forall log
        ensures Follows(s, log)
      {
        FollowsFlat(s, log);
      }
    } else {
      var k := DeepHidden(s);
      var log := Uncover(s, k);
      assert !Follows(s, log);
    }
  }

  /** The store shows what the source does once the log is written to it. */
  ghost predicate Follows(s: State, log: seq<Event>) {
    Play(Visible(s.tree), log).Some? ==>
      Visible(Run(s, OpsOf(log)).tree) == Play(Visible(s.tree), log).value
  }

  lemma FollowsFlat(s: State, log: seq<Event>)
    requires Inv(s) && Quiet(s) && Flat(Contents(s.tree)) && Contents(s.tree) == Visible(s.tree)
    ensures Follows(s, log)
  {
    hide Visible, Contents, Inv, Quiet, Flat;
    if Play(Visible(s.tree), log).Some? {
      EditScript(s, log);
    }
  }

  lemma VisibleFlat(s: State)
    requires Inv(s)
    ensures Flat(Visible(s.tree))
  {
    VisiblePrefixFree(s.tree);
  }

  /** A hidden key with no other hidden key below it. */
  lemma DeepHidden(s: State) returns (k: Path)
    requires Inv(s) && Contents(s.tree) != Visible(s.tree)
    ensures k in Contents(s.tree) && k !in Visible(s.tree)
    ensures forall j :: j in Contents(s.tree) && k < j ==> j in Visible(s.tree)
  {
    var t := s.tree;
    if forall j :: j in Contents(t) ==> j in Visible(t) {
      AllShown(t);
    }
    var j :| j in Contents(t) && j !in Visible(t);
    k := DeepFrom(t, j);
  }

  lemma AllShown(t: Tree)
    requires forall j :: j in Contents(t) ==> j in Visible(t)
    ensures Contents(t) == Visible(t)
  {
  }

  lemma {:induction false} DeepFrom(t: Tree, j: Path) returns (k: Path)
    requires j in Contents(t) && j !in Visible(t)
    ensures k in Contents(t) && k !in Visible(t)
    ensures forall i :: i in Contents(t) && k < i ==> i in Visible(t)
    decreases Weight(t, j)
  {
    hide Weight;
    k := j;
    if i :| i in Contents(t) && j < i && i !in Visible(t) {
      LighterBelow(t, j, i);
      k := DeepFrom(t, i);
    }
  }

  /** Deleting everything visible below a hidden key brings it back, in the store only. */
  lemma Uncover(s: State, k: Path) returns (log: seq<Event>)
    requires Inv(s) && Quiet(s) && k in Contents(s.tree) && k !in Visible(s.tree)
    requires forall j :: j in Contents(s.tree) && k < j ==> j in Visible(s.tree)
    ensures !Follows(s, log)
  {
    hide Inv, Quiet, Apply, Flat, Visible, Contents;
    var m, v := Contents(s.tree), Visible(s.tree);
    var doomed := set j | j in v && k < j;
    VisibleFlat(s);
    VisibleStored(s);
    log := DeleteAll(s, v, doomed);
    var u := Run(s, OpsOf(log));
    QuietShows(u);
    assert k in Contents(u.tree);
    forall j | j in Contents(u.tree)
      ensures !(k < j)
    {
    }
    assert k in Maximal(Contents(u.tree));
    assert k !in v - doomed;
  }

  lemma VisibleStored(s: State)
    requires Inv(s)
    ensures forall j :: j in Visible(s.tree) ==> j in Contents(s.tree)
    ensures forall j, i :: j in Visible(s.tree) && i in Contents(s.tree) ==> !(j < i)
  {
  }

  lemma {:induction false} DeleteAll(s: State, v: map<Path, string>, doomed: set<Path>) returns (log: seq<Event>)
    requires Inv(s) && Quiet(s) && doomed <= v.Keys
    requires forall j :: j in doomed ==> j in Contents(s.tree)
    requires forall j, i :: j in doomed && i in Contents(s.tree) ==> !(j < i)
    ensures Play(v, log) == Some(v - doomed)
    ensures Inv(Run(s, OpsOf(log))) && Quiet(Run(s, OpsOf(log)))
    ensures Contents(Run(s, OpsOf(log)).tree) == Contents(s.tree) - doomed
    decreases |doomed|
  {
    hide Inv, Quiet, Apply, Contents, OpsOf, Play;
    log := [];
    NoOps(s, v);
    if doomed == {} {
      assert v - doomed == v && Contents(s.tree) - doomed == Contents(s.tree);
    } else {
      var j :| j in doomed;
      var before := DeleteAll(s, v, doomed - {j});
      var e := Event(Action.Delete, j, "");
      log := before + [e];
      assert log[..|before|] == before;
      RunOneMore(s, OpsOf(before), OpOf(e));
      DeleteOne(Run(s, OpsOf(before)), Contents(s.tree), doomed, j);
      PlayOne(v, before, e);
      assert v - (doomed - {j}) - {j} == v - doomed;
    }
  }

  lemma NoOps(s: State, v: map<Path, string>)
    ensures OpsOf([]) == [] && Run(s, []) == s && Play(v, []) == Some(v)
    ensures forall log, e :: OpsOf(log + [e]) == OpsOf(log) + [OpOf(e)]
  {
    forall log: seq<Event>, e: Event
      ensures OpsOf(log + [e]) == OpsOf(log) + [OpOf(e)]
    {
      assert (log + [e])[..|log|] == log;
    }
  }

  lemma DeleteOne(u: State, m: map<Path, string>, doomed: set<Path>, j: Path)
    requires Inv(u) && Quiet(u) && Contents(u.tree) == m - (doomed - {j}) && j in doomed && j in m
    requires forall i :: i in m ==> !(j < i)
    ensures var w := Apply(u, Op.Delete(j)); Inv(w) && Quiet(w) && Contents(w.tree) == m - doomed
  {
    hide Inv, Quiet, Apply, Contents;
    ApplyRefines(u, Op.Delete(j));
    ApplyInv(u, Op.Delete(j));
    var c := Contents(u.tree);
    forall i | i in c
      ensures j <= i <==> i == j
    {
      if j <= i && i != j { Strict(j, i); }
      assert j <= j;
    }
    assert Drop(c, j) == c - {j};
    assert m - (doomed - {j}) - {j} == m - doomed;
  }

  /** With "a" hidden above "a/b", the change that deletes "a/b" shows "a" again. */
  lemma HiddenKeyResurfaces()
    ensures var s := Run(INIT, [Put(["a"], "1"), Put(["a", "b"], "2")]);
            var log := [Event(Action.Delete, ["a", "b"], "")];
            && Visible(s.tree) == map[["a", "b"] := "2"] && Play(Visible(s.tree), log) == Some(map[])
            && Visible(Run(s, OpsOf(log)).tree) == map[["a"] := "1"]
  {
    hide Visible, Contents, Apply, Normal, Maximal;
    var a, b: Path := ["a"], ["a", "b"];
    var first, all := [Put(a, "1"), Put(b, "2")], [Put(a, "1"), Put(b, "2"), Op.Delete(b)];
    var d := Event(Action.Delete, b, "");
    HiddenFlat(a, b);
    QuietReads(first);
    QuietReads(all);
    assert OpsOf([d]) == [] + [OpOf(d)];
    assert first + [Op.Delete(b)] == all;
    RunOneMore(INIT, first, Op.Delete(b));
    RunOneMore(Run(INIT, first), [], Op.Delete(b));
    assert [] + [Op.Delete(b)] == [Op.Delete(b)];
    PlayOne(map[b := "2"], [], d);
    assert [] + [d] == [d];
    assert map[b := "2"] - {b} == map[];
  }

  lemma HiddenFlat(a: Path, b: Path)
    requires a == ["a"] && b == ["a", "b"]
    ensures Maximal(FlatRun([Put(a, "1"), Put(b, "2")])) == map[b := "2"]
    ensures Maximal(FlatRun([Put(a, "1"), Put(b, "2"), Op.Delete(b)])) == map[a := "1"]
  {
    hide Normal;
    var v1, v2 := map[a := "1"], map[a := "1", b := "2"];
    ThreeRun(Put(a, "1"), Put(b, "2"), Op.Delete(b));
    AllKept(v1);
    AllKept(v2);
    assert map[] + map[a := "1"] == v1 && v1 + map[b := "2"] == v2;
    assert a < b && b in v2 && KeyBelow(v2, a) && !KeyBelow(v2, b) && !KeyBelow(v1, a);
    assert !(b <= a) && b <= b;
    assert Drop(v2, b) == v1;
    assert Maximal(v2) == map[b := "2"];
    assert Maximal(v1) == v1;
  }

  lemma ThreeRun(x: Op, y: Op, z: Op)
    ensures FlatRun([x, y]) == FlatApply(FlatApply(map[], x), y)
    ensures FlatRun([x, y, z]) == FlatApply(FlatApply(FlatApply(map[], x), y), z)
  {
    hide FlatApply;
    assert [x, y, z][..2] == [x, y] && [x, y][..1] == [x] && [x][..0] == [];
    assert FlatRun([x]) == FlatApply(map[], x);
  }

  lemma EditIsOp(v: map<Path, string>, e: Event)
    requires Flat(v) && Edit(v, e).Some?
    ensures FlatApply(v, OpOf(e)) == Edit(v, e).value
  {
    EditFlat(v, e);
    if e.action == Update {
      FlatNormal(v[e.path := e.value]);
      assert v + map[e.path := e.value] == v[e.path := e.value];
    } else {
      forall k | k in v ensures e.path <= k <==> k == e.path {
        assert e.path <= e.path;
      }
      assert Drop(v, e.path) == v - {e.path};
    }
  }

  // ---- Keys that nest --------------------------------------------------------------------------

  /** A change and the operation it is mirrored by do the same to a store holding `v` exactly
      when a deleted key has nothing below it, and a written key neither is the root nor hides an
      empty string nor is an empty string to be hidden. */
  lemma MirroredExactly(v: map<Path, string>, e: Event)
    requires Normal(v) == v
    ensures FlatApply(v, OpOf(e)) == Change(v, e) <==>
              match e.action
              case Delete => !KeyBelow(v, e.path)
              case Update =>
                && e.path != [] && (e.value != "" || !KeyBelow(v, e.path))
                && forall k :: k in v && k < e.path ==> v[k] != ""
  {
    var n := v + map[e.path := e.value];
    assert n == v[e.path := e.value];
    match e.action {
      case Delete =>
        assert e.path <= e.path;
        if KeyBelow(v, e.path) {
          var k :| k in v && e.path < k;
          assert k in Change(v, e) && k !in Drop(v, e.path);
        } else {
          forall k | k in v && e.path <= k
            ensures k == e.path
          {
            if k != e.path { Strict(e.path, k); }
          }
          assert Drop(v, e.path) == v - {e.path};
        }
      case Update =>
        forall k | k in n
          ensures KeyBelow(n, k) <==> KeyBelow(v, k) || k < e.path
        {
          assert e.path in n;
          if j :| j in v && k < j { assert j in n; }
        }
        assert Normal(n) == n <==> forall k :: k in n ==> k in Normal(n);
        assert e.path in n;
        forall k | k in v
          ensures k in Normal(v)
        {
        }
        forall k | k in v && k < e.path && v[k] == ""
          ensures k in n && k !in Normal(n)
        {
        }
    }
  }

  /** A source whose keys nest is not mirrored: deleting "a" in it leaves "a/b", while the replica
      drops everything below "a". */
  lemma NestedKeysDiverge()
    ensures var log := [Event(Update, ["a"], "1"), Event(Update, ["a", "b"], "2"), Event(Action.Delete, ["a"], "")];
            FlatRun(OpsOf(log)) == map[] && History(map[], log) == map[["a", "b"] := "2"]
  {
    hide Normal, History, FlatRun;
    var e1, e2, e3 := Event(Update, ["a"], "1"), Event(Update, ["a", "b"], "2"), Event(Action.Delete, ["a"], "");
    var v1, v2 := map[["a"] := "1"], map[["a"] := "1", ["a", "b"] := "2"];
    ThreeOps(e1, e2, e3);
    AllKept(v1);
    AllKept(v2);
    assert map[] + v1 == v1 && v1 + map[["a", "b"] := "2"] == v2;
    assert ["a"] <= ["a", "b"];
    assert Drop(v2, ["a"]) == map[];
  }

  lemma AllKept(v: map<Path, string>)
    requires NonEmpty(v) && [] !in v
    ensures Normal(v) == v
  {
  }

  lemma ThreeOps(a: Event, b: Event, c: Event)
    ensures FlatRun(OpsOf([a, b, c])) == FlatApply(FlatApply(FlatApply(map[], OpOf(a)), OpOf(b)), OpOf(c))
    ensures History(map[], [a, b, c]) == Change(Change(Change(map[], a), b), c)
  {
    hide FlatApply, Change, OpOf;
    assert [a, b, c][..2] == [a, b] && [a, b][..1] == [a] && [a][..0] == [];
    assert History(map[], [a]) == Change(map[], a);
    assert History(map[], [a, b]) == Change(Change(map[], a), b);
    assert OpsOf([a]) == [] + [OpOf(a)] && OpsOf([a, b]) == OpsOf([a]) + [OpOf(b)];
    FlatRunOne([], OpOf(a));
    FlatRunOne(OpsOf([a]), OpOf(b));
    FlatRunOne(OpsOf([a, b]), OpOf(c));
  }
}
