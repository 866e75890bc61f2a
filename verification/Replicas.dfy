/** backends/local/client.go: a store kept in step with another one. `internalSync` subscribes at
    the source's root, takes a snapshot, and then applies what the watcher was sent, one event
    after the other, while the source goes on changing. */
module Replicas {
  import opened Paths
  import opened Events
  import opened Trees
  import opened Values
  import opened Stores
  import Accounts
  import Flatmap
  import Helpers
  import Machine
  import Mirror
  import Refinement
  import Visibility

  class Replica {
    const from: Store
    const to: Store
    const w: Watcher
    var read: nat  // events taken from the watcher's channel so far
    ghost var begun: bool  // the snapshot was taken
    ghost var start: map<Path, string>  // what the source showed when the replica subscribed
    ghost var seen: seq<Event>  // the source's log since then, when last looked at
    ghost var high: nat  // how many of these changes the target may reflect

    /** The two stores share no node and no watcher. */
    ghost predicate Apart()
      reads from`known, to`known, from`live, to`live
    {
      from != to && from.known !! to.known && from.live !! to.live
    }

    /** What was sent to the watcher is the source's log since the subscription. */
    ghost predicate Subscribed()
      reads this`start, this`seen, from`log, from`live
    {
      && w in from.live && w.node.path == [] && w.start <= |from.log|
      && Play(map[], from.log[..w.start]) == Some(start)
      && seen <= from.log[w.start..]
    }

    /** Where the mirror stands, after all that was ever done to the target. */
    ghost function Sync(log: seq<Event>): Mirror.Sync
      reads this`read, this`start, this`high, to`ops
    {
      Mirror.Sync(start, log, to.ops, read, high)
    }

    ghost predicate Kept()
      reads this`read, this`start, this`seen, this`high, this`begun, to`ops
    {
      && (begun ==> Mirror.Good(Sync(seen)))
      && (!begun ==> read == 0 && seen == [] && forall i :: 0 <= i < |to.ops| ==> Refinement.WritesNothing(to.ops[i]))
    }

    /** What holds between any two steps of the replica or of the source. */
    ghost predicate Valid()
      reads this, from, from.known, from.live, to, to.known, to.live
    {
      from.Valid() && to.Valid() && Apart() && Subscribed() && Kept()
    }

    /** `internalSync` up to the subscription. Nothing was written to the target yet, but it may be
        watched already. */
    constructor (from: Store, to: Store)
      requires from.Valid() && to.Valid()
      requires forall i :: 0 <= i < |to.ops| ==> Refinement.WritesNothing(to.ops[i])
      requires from != to && from.known !! to.known && from.live !! to.live
      modifies from, from.known, from.live
      ensures Valid() && this.from == from && this.to == to && !begun
      ensures from.State() == Machine.Apply(old(from.State()), Machine.Watch([]))
      ensures from.ops == old(from.ops) + [Machine.Watch([])] && from.live == old(from.live) + {w} && fresh(w)
      ensures old(from.known) <= from.known && fresh(from.known - old(from.known))
    {
      hide Store.Shape, Visible, Play, Machine.Apply, Extends, Refinement.WritesNothing;
      var x := from.Watch([]);
      this.from, this.to, w, read := from, to, x, 0;
      begun := false;
      start, seen, high := Visible(from.tree), [], 0;
      new;
      assert from.log[..w.start] == from.log;
    }

    /** What the source shows, put at the root of the target. */
    method CopyRoot()
      requires from.Valid() && to.Valid() && Apart() && Machine.ProperOps(from.ops)
      requires Refinement.Flat(Visible(from.tree))
      requires forall i :: 0 <= i < |to.ops| ==> Refinement.WritesNothing(to.ops[i])
      modifies to, to.known, to.live
      ensures to.Valid() && Refinement.FlatRun(to.ops) == Visible(from.tree)
      ensures Written(old(to.ops), to.ops)
      ensures to.live == old(to.live) && old(to.known) <= to.known && fresh(to.known - old(to.known))
    {
      hide Visible, Extends, Store.Valid, Refinement.Flat, Machine.Run, Machine.Apply, Lookup, Find, Pruned, Flatten;
      hide Machine.ProperOps, Helpers.Proper, Machine.Puts, Refinement.FlatRun, Refinement.WritesNothing;
      hide Flatmap.ProperNames, Flatmap.Norm, Machine.Orders, Flatmap.Flattened, Flatmap.ThingOf;
      ghost var ops := to.ops;
      WrittenNone(ops);
      var _, meta := from.Get([]);
      if meta.Some? {
        SnapshotValue(meta.value, Visible(from.tree));
        from.PathsProper();
        Flatmap.ThingOfLeaves(meta.value, Visible(from.tree));
        to.Put([], Flatmap.ThingOf(meta.value));
        SnapshotPut(ops, to.ops, Flatmap.ThingOf(meta.value), Visible(from.tree));
      }
    }

    /** The snapshot. */
    method Snapshot()
      requires Valid() && !begun && Machine.ProperOps(from.ops)
      modifies this, to, to.known, to.live
      ensures Valid() && begun && read == 0
      ensures Written(old(to.ops), to.ops)
      ensures to.live == old(to.live) && old(to.known) <= to.known && fresh(to.known - old(to.known))
    {
      hide Visible, Play, Extends, Mirror.Good, Store.Valid, Mirror.Sound, Mirror.KeysAt, Refinement.Flat;
      hide Machine.ProperOps, Refinement.FlatRun, Refinement.WritesNothing;
      Source();
      CopyRoot();
      read := 0;
      begun := true;
      seen, high := from.log[w.start..], |from.log[w.start..]|;
      Mirror.CopiedGood(Sync(seen));
    }

    /** The next event, applied to the target. */
    method ProcessEvent()
      requires Valid() && begun && read < |w.eventChan|
      modifies this, to, to.known, to.live
      ensures Valid() && begun && read == old(read) + 1
      ensures to.ops == old(to.ops) + [Mirror.OpOf(w.eventChan[old(read)])]
      ensures to.live == old(to.live) && old(to.known) <= to.known && fresh(to.known - old(to.known))
    {
      hide Store.Shape, Visible, Play, Extends, Mirror.Good, Store.Valid, Mirror.Sound, Mirror.KeysAt;
      hide Machine.Apply, Refinement.Flat, Accounts.Account, Accounts.Writing;
      CatchUp();
      ghost var m := Sync(from.log[w.start..]);
      Source();
      Mirror.DeliverGood(m);
      var e := w.eventChan[read];
      match e.action {
        case Delete => to.Delete(e.path);
        case Update => to.Put(e.path, Flatmap.Text(e.value));
      }
      read := read + 1;
      seen, high := m.log, Mirror.Take(m, Mirror.Deliver).high;
    }

    /** The loop, until the channel is empty: the target then has exactly what the source shows, and
        shows it to its readers exactly if no key lies strictly above a node that one of its own watches
        holds. */
    method Drain()
      requires Valid() && begun
      modifies this, to, to.known, to.live
      ensures Valid() && begun && read == |w.eventChan|
      ensures to.live == old(to.live) && old(to.known) <= to.known && fresh(to.known - old(to.known))
      ensures Written(old(to.ops), to.ops)
      ensures Refinement.Keeping(to.ops) ==>
                && Contents(to.tree) == Visible(from.tree)
                && (Visible(to.tree) == Visible(from.tree) <==>
                      Visibility.Unhidden(to.State(), Visible(from.tree)))
      ensures Unwatched(to.ops) ==> Contents(to.tree) == Visible(to.tree) == Visible(from.tree)
    {
      hide Store.Shape, Visible, Play, Extends, Mirror.Good, Store.Valid, Mirror.Sound, Mirror.KeysAt;
      hide Refinement.Keeping, Contents, Visibility.Unhidden, Machine.Run, Refinement.FlatRun, Refinement.Maximal;
      hide Refinement.Flat;
      WrittenNone(to.ops);
      while read < |w.eventChan|
        invariant Valid() && begun && Written(old(to.ops), to.ops)
        invariant to.live == old(to.live) && old(to.known) <= to.known && fresh(to.known - old(to.known))
        decreases |w.eventChan| - read
      {
        WrittenOne(old(to.ops), to.ops, Mirror.OpOf(w.eventChan[read]));
        ProcessEvent();
      }
      CatchUp();
      Source();
      GoodBounds(Sync(from.log[w.start..]));
      Mirror.Caught(Sync(from.log[w.start..]));
      Refinement.FlatNormal(Visible(from.tree));
      to.History();
    }

    /** What the source's log says of the source. */
    lemma Source()
      requires from.Valid() && Subscribed()
      ensures w.eventChan == from.log[w.start..]
      ensures Mirror.Sound(start, w.eventChan)
      ensures Mirror.KeysAt(start, w.eventChan, |w.eventChan|) == Visible(from.tree)
      ensures Refinement.Flat(Visible(from.tree))
    {
      hide Visible, Play, Mirror.Sound, Mirror.KeysAt, Refinement.Flat;
      Mirror.PlayedFlat(from.log);
      var begin := from.log[..w.start];
      RouteRoot(from.log[w.start..]);
      PlayConcat(map[], begin, from.log[w.start..]);
      TakeDrop(from.log, w.start);
      Mirror.PlayedFlat(begin);
      Mirror.PlayedSound(start, from.log[w.start..]);
    }

    /** Whatever the source did since. */
    lemma CatchUp()
      requires Valid() && begun
      ensures Mirror.Good(Sync(from.log[w.start..])) && |seen| <= |from.log| - w.start
      ensures read <= |seen|
    {
      hide Visible, Play, Mirror.Sound, Mirror.KeysAt;
      Source();
      assert seen + w.eventChan[|seen|..] == w.eventChan;
      Mirror.AppendGood(Sync(seen), w.eventChan[|seen|..]);
    }

    /** The source may do anything to itself in between. */
    twostate lemma SourceMoved()
      requires old(Valid()) && from.Valid() && w in from.live && Apart()
      requires Extends(old(from.log), from.log)
      requires unchanged(this) && unchanged(to) && unchanged(to.known) && unchanged(to.live)
      ensures Valid()
    {
      hide Mirror.Good, Store.Valid, Refinement.WritesNothing;
      assert from.log[..w.start] == old(from.log)[..w.start];
    }

    /** The target may be watched, the watches may end and it may be cleaned in between. */
    twostate lemma TargetMoved(local: seq<Machine.Op>)
      requires old(Valid()) && to.Valid() && Apart()
      requires to.ops == old(to.ops) + local && forall i :: 0 <= i < |local| ==> Refinement.WritesNothing(local[i])
      requires unchanged(this) && unchanged(from) && unchanged(from.known) && unchanged(from.live)
      ensures Valid()
    {
      hide Refinement.WritesNothing, Play, Mirror.Good, Store.Valid;
      if begun {
        LocalGood(old(Sync(seen)), local);
      }
    }
  }

  lemma LocalGood(m: Mirror.Sync, local: seq<Machine.Op>)
    requires Mirror.Good(m) && forall i :: 0 <= i < |local| ==> Refinement.WritesNothing(local[i])
    ensures Mirror.Good(m.(ops := m.ops + local))
  {
    hide Refinement.FlatRun, Refinement.WritesNothing;
    Refinement.FlatLocal(m.ops, local);
  }

  lemma GoodBounds(m: Mirror.Sync)
    requires Mirror.Good(m)
    ensures m.pos <= m.high <= |m.log|
  {
  }

  /** After the snapshot was put, the target was told what the source showed. */
  lemma SnapshotPut(before: seq<Machine.Op>, after: seq<Machine.Op>, value: Flatmap.Thing, v: map<Path, string>)
    requires forall i :: 0 <= i < |before| ==> Refinement.WritesNothing(before[i])
    requires value.Table? && Flatmap.ProperNames(value) && Flatten(Flatmap.Norm(value)) == v && Refinement.Flat(v)
    requires exists m: map<string, string>, order ::
               && Flatmap.Flattened(value, m) && Machine.Orders(order, m.Keys)
               && after == before + Machine.Puts([], m, order)
    ensures Refinement.FlatRun(after) == v
    ensures Written(before, after)
  {
    hide Flatmap.Flattened, Flatmap.ProperNames, Flatmap.Norm, Flatten, Refinement.Flat, Refinement.FlatRun;
    hide Machine.Puts, Refinement.WritesNothing, Helpers.Separate, Helpers.Cleaned;
    var m: map<string, string>, order :|
      Flatmap.Flattened(value, m) && Machine.Orders(order, m.Keys) && after == before + Machine.Puts([], m, order);
    Flatmap.FlatCleaned(value, m);
    assert [] + before == before;
    Refinement.FlatLocal([], before);
    assert Refinement.FlatRun([]) == map[] by { NothingTold(); }
    Refinement.FlatPutAll(before, m, order);
    AllPuts([], m, order);
  }

  lemma NothingTold()
    ensures Refinement.FlatRun([]) == map[]
  {
  }

  lemma {:induction false} AllPuts(p: Path, values: map<string, string>, order: seq<string>)
    requires forall k :: k in order ==> k in values
    ensures forall i :: 0 <= i < |order| ==> Machine.Puts(p, values, order)[i].Put?
    decreases |order|
  {
    if order != [] {
      AllPuts(p, values, order[..|order| - 1]);
    }
  }

  lemma TakeDrop(s: seq<Event>, i: nat)
    requires i <= |s|
    ensures s[..i] + s[i..] == s
  {
  }

  /** The backend's own data. */
  class Client {
    const data: Store

    constructor ()
      ensures data.Valid() && data.State() == Machine.INIT && data.ops == [] && data.live == {}
      ensures fresh(data) && fresh(data.known)
    {
      hide Store.Valid;
      data := new Store();
    }

    /** `Put`, with `replace` after a delete of the same path. */
    method Put(nodePath: Path, value: Flatmap.Thing, replace: bool)
      requires data.Valid() && (value.Text? || value.Table? || value.Slice?)
      modifies data, data.known, data.live
      ensures data.Valid() && data.live == old(data.live)
      ensures old(data.known) <= data.known && fresh(data.known - old(data.known))
      ensures value.Text? || Flatmap.ProperNames(value) ==>
                var s := if replace then Machine.Apply(old(data.State()), Machine.Delete(nodePath))
                         else old(data.State());
                data.State() == Machine.Apply(s,
                  if value.Text? then Machine.Put(nodePath, value.text)
                  else Machine.PutBulk(nodePath, Flatten(Flatmap.Norm(value))))
    {
      hide Store.Valid, Machine.Apply, Flatmap.ProperNames, Flatmap.Norm, Flatten, Machine.Puts, Machine.Orders;
      if replace {
        data.Delete(nodePath);
      }
      data.Put(nodePath, value);
    }
  }


  lemma SnapshotValue(meta: Val, v: map<Path, string>)
    requires Refinement.Flat(v) && forall q :: Lookup(meta, q) == Find(v, [] + q)
    ensures meta.Dir? && Flatten(meta) == v
  {
    hide Refinement.Flat, Lookup, Find;
    SnapshotDir(meta, v);
    forall q: Path
      ensures Find(Flatten(meta), q) == Find(v, q)
    {
      assert [] + q == q;
      assert Lookup(meta, q) == Find(v, [] + q);
    }
    SameFinds(Flatten(meta), v);
  }

  lemma SnapshotDir(meta: Val, v: map<Path, string>)
    requires Refinement.Flat(v) && Lookup(meta, []) == Find(v, [] + [])
    ensures meta.Dir?
  {
  }

  /** Operations were added, among them no watches. */
  ghost predicate Written(before: seq<Machine.Op>, after: seq<Machine.Op>) {
    before <= after && forall i :: |before| <= i < |after| ==> !Refinement.WatchOp(after[i])
  }

  lemma WrittenNone(ops: seq<Machine.Op>)
    ensures Written(ops, ops)
  {
  }

  lemma WrittenOne(before: seq<Machine.Op>, after: seq<Machine.Op>, op: Machine.Op)
    requires Written(before, after) && !Refinement.WatchOp(op)
    ensures Written(before, after + [op])
  {
  }

  ghost predicate Unwatched(ops: seq<Machine.Op>) {
    forall i :: 0 <= i < |ops| ==> !Refinement.WatchOp(ops[i])
  }
}
