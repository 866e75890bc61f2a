/** Calls put together: what a caller of several operations of stores in a row can rely on. */
module Scenarios {
  import opened Paths
  import opened Trees
  import opened Values
  import opened Stores
  import opened Replicas
  import Accounts
  import Flatmap
  import Helpers
  import Machine
  import Refinement
  import Visibility

  /** A value put at the root of an empty store and read back: scalars as strings, slices as maps by
      index, nothing where there was an empty map. */
  method PutThenGet(value: Flatmap.Thing) returns (v: Val)
    requires (value.Table? || value.Slice?) && Flatmap.ProperNames(value)
    ensures Pruned(v) && forall q :: Lookup(v, q) == Lookup(Flatmap.Norm(value), q)
  {
    hide Store.Valid, Visible, Lookup, Find, Pruned, Flatten, Machine.Apply, Machine.Run, Machine.Puts, Machine.Orders;
    hide Flatmap.ProperNames, Flatmap.Norm, Flatmap.Flattened, Visibility.Unhidden;
    var store := new Store();
    store.Put([], value);
    var _, val := store.Get([]);
    v := val.value;
    forall q: Path
      ensures Lookup(v, q) == Lookup(Flatmap.Norm(value), q)
    {
      assert [] + q == q;
      NormDir(value);
      Visibility.FirstBulk(Flatmap.Norm(value), q);
    }
  }

  lemma NormDir(value: Flatmap.Thing)
    requires value.Table? || value.Slice?
    ensures Flatmap.Norm(value).Dir?
  {
  }

  /** A replica of a store that changes before the snapshot and after it, and is itself watched in
      between: once the channel is empty, it holds what the source shows, unless an empty string was lost
      above the watch, and shows it too if none of its keys lies above the watch. */
  method Replicate(p: Path, value: string, gone: Path, watched: Option<Path>) returns (from: Store, to: Store)
    requires Helpers.Proper(p)
    ensures from.Valid() && to.Valid()
    ensures watched.None? ==> Visible(to.tree) == Visible(from.tree)
    ensures Refinement.Keeping(to.ops) ==>
              && Contents(to.tree) == Visible(from.tree)
              && (Visible(to.tree) == Visible(from.tree) <==> Visibility.Unhidden(to.State(), Visible(from.tree)))
  {
    hide Accounts.Account, Accounts.Writing, Accounts.Opening;
    hide Store.Valid, Visible, Machine.Apply, Machine.Run, Helpers.Proper, Machine.ProperOps, Extends;
    hide Replica.Kept, Replica.Subscribed, Refinement.Keeping, Visibility.Unhidden, Contents, Written, Unwatched;
    from := new Store();
    to := new Store();
    var r := new Replica(from, to);
    Parts(r);
    label Subscribed:
    from.Put(p, Flatmap.Text(value));
    r.SourceMoved@Subscribed();
    TwoProper(p, value);
    assert from.ops == [Machine.Watch([]), Machine.Put(p, value)];
    r.Snapshot();
    if watched.Some? {
      WatchTarget(r, watched.value);
    }
    ghost var before := to.ops;
    DeleteAtSource(r, gone);
    r.Drain();
    if watched.None? {
      NoWatch(before, to.ops);
    }
  }

  /** Somebody watches the target. */
  method WatchTarget(r: Replica, p: Path)
    requires r.Valid()
    modifies r.to, r.to.known, r.to.live
    ensures r.Valid() && r.to.ops == old(r.to.ops) + [Machine.Watch(p)]
    ensures old(r.to.known) <= r.to.known && fresh(r.to.known - old(r.to.known))
    ensures old(r.to.live) <= r.to.live && fresh(r.to.live - old(r.to.live))
  {
    hide Store.Valid, Machine.Apply, Extends, Replica.Kept, Replica.Subscribed;
    Parts(r);
    var w := r.to.Watch(p);
    assert forall i :: 0 <= i < 1 ==> Refinement.WritesNothing([Machine.Watch(p)][i]);
    r.TargetMoved([Machine.Watch(p)]);
  }

  /** The source changes. */
  method DeleteAtSource(r: Replica, p: Path)
    requires r.Valid()
    modifies r.from, r.from.known, r.from.live
    ensures r.Valid() && r.from.known == old(r.from.known) && r.from.live == old(r.from.live)
  {
    hide Store.Valid, Machine.Apply, Extends, Replica.Kept, Replica.Subscribed;
    Parts(r);
    r.from.Delete(p);
    r.SourceMoved();
  }

  lemma NoWatch(before: seq<Machine.Op>, after: seq<Machine.Op>)
    requires Written([], before) && Written(before, after)
    ensures Unwatched(after)
  {
  }

  lemma Parts(r: Replica)
    requires r.Valid()
    ensures r.w in r.from.live && r.Apart() && r.from.Valid() && r.to.Valid()
  {
  }

  lemma TwoProper(p: Path, value: string)
    requires Helpers.Proper(p)
    ensures Machine.ProperOps([Machine.Watch([]), Machine.Put(p, value)])
  {
  }
}
