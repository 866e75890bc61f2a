/** backends/etcdv3/client.go: the store as a mirror of the etcd keys under a prefix. The loop
    watches from the first change on, copies the keys once, applies the changes it is sent, and after
    a broken watch begins again at the last revision it saw, that revision included. */
module Etcd {
  import opened Paths
  import opened Strings
  import opened Events
  import opened Helpers
  import opened Machine
  import opened Refinement
  import Invariants
  import Mirror
  import Trees

  /** One change of one key; the changes of one transaction share a revision. */
  datatype Entry = Entry(rev: nat, put: bool, key: string, value: string)

  ghost function Changed(v: map<string, string>, e: Entry): map<string, string> {
    if e.put then v[e.key := e.value] else v - {e.key}
  }

  /** The keys after a log of changes. */
  ghost function KeysAfter(v: map<string, string>, log: seq<Entry>): map<string, string> {
    if log == [] then v else Changed(KeysAfter(v, log[..|log| - 1]), log[|log| - 1])
  }

  // ---- Keys under a prefix -----------------------------------------------------------------------

  /** A clean key strictly below the prefix. */
  predicate KeyUnder(prefix: string, key: string) {
    key == Text(PathOf(key)) && PathOf(prefix) < PathOf(key)
  }

  ghost predicate AllUnder(prefix: string, v: map<string, string>) {
    forall k :: k in v ==> KeyUnder(prefix, k)
  }

  /** The path below the prefix. */
  function Inner(prefix: string, key: string): (p: Path)
    requires KeyUnder(prefix, key)
    ensures PathOf(prefix) + p == PathOf(key) && p != []
  {
    PathOf(key)[|PathOf(prefix)|..]
  }

  /** Where a trimmed key leads in the store is the path below the prefix. */
  lemma TrimmedPath(prefix: string, key: string)
    requires KeyUnder(prefix, key)
    ensures PathOf(TrimPathPrefix(key, prefix)) == Inner(prefix, key) && !IsBlank(TrimPathPrefix(key, prefix))
    ensures Proper(Inner(prefix, key))
  {
    hide Key, Split, NonBlank, PathOf, TrimPathPrefix;
    var p := Inner(prefix, key);
    SplitProper(key);
    assert forall c :: c in p ==> c in PathOf(key);
    TrimClean(key, prefix);
    PathOfText(p);
    KeyStarts(p);
    assert '/' in Text(p);
  }

  lemma SameInner(prefix: string, a: string, b: string)
    requires KeyUnder(prefix, a) && KeyUnder(prefix, b) && Inner(prefix, a) == Inner(prefix, b)
    ensures a == b
  {
  }

  /** The keys as the paths they have in the store. */
  ghost function Strip(prefix: string, v: map<string, string>): (r: map<Path, string>)
    requires AllUnder(prefix, v)
    ensures forall k :: k in v ==> Inner(prefix, k) in r && r[Inner(prefix, k)] == v[k]
    ensures forall p :: p in r ==> exists k :: k in v && Inner(prefix, k) == p
  {
    map p | p in InnerPaths(prefix, v) :: v[InnerKey(prefix, v, p)]
  }

  ghost function InnerPaths(prefix: string, v: map<string, string>): (r: set<Path>)
    requires AllUnder(prefix, v)
    ensures forall p :: p in r <==> exists k :: k in v && Inner(prefix, k) == p
  {
    set k | k in v :: Inner(prefix, k)
  }

  ghost function InnerKey(prefix: string, v: map<string, string>, p: Path): (k: string)
    requires AllUnder(prefix, v) && p in InnerPaths(prefix, v)
    ensures k in v && Inner(prefix, k) == p
    ensures forall j :: j in v && Inner(prefix, j) == p ==> j == k
  {
    assert forall a, b :: a in v && b in v && Inner(prefix, a) == Inner(prefix, b) ==> a == b by {
      forall a, b | a in v && b in v && Inner(prefix, a) == Inner(prefix, b) ensures a == b {
        SameInner(prefix, a, b);
      }
    }
    var k :| k in v && Inner(prefix, k) == p; k
  }

  ghost function StripEntry(prefix: string, e: Entry): Event
    requires KeyUnder(prefix, e.key)
  {
    Event(if e.put then Update else Action.Delete, Inner(prefix, e.key), e.value)
  }

  /** A path is stored exactly if its key is there. */
  lemma StripAt(prefix: string, v: map<string, string>, k: string)
    requires AllUnder(prefix, v) && KeyUnder(prefix, k)
    ensures Inner(prefix, k) in Strip(prefix, v) <==> k in v
    ensures k in v ==> Strip(prefix, v)[Inner(prefix, k)] == v[k]
  {
    hide KeyUnder, Inner;
    if Inner(prefix, k) in Strip(prefix, v) {
      var j :| j in v && Inner(prefix, j) == Inner(prefix, k);
      SameInner(prefix, j, k);
    }
  }

  lemma StripChanged(prefix: string, v: map<string, string>, e: Entry)
    requires AllUnder(prefix, v) && KeyUnder(prefix, e.key)
    ensures AllUnder(prefix, Changed(v, e))
    ensures Strip(prefix, Changed(v, e)) == Mirror.Change(Strip(prefix, v), StripEntry(prefix, e))
  {
    hide Inner, Strip, StripEntry, Mirror.Change, KeyUnder;
    AllChanged(prefix, v, e);
    var a, b := Strip(prefix, Changed(v, e)), Mirror.Change(Strip(prefix, v), StripEntry(prefix, e));
    forall p
      ensures p in a <==> p in b
      ensures p in a ==> a[p] == b[p]
    {
      StripChangedAt(prefix, v, e, p);
    }
    assert a == b;
  }

  lemma StripChangedAt(prefix: string, v: map<string, string>, e: Entry, p: Path)
    requires AllUnder(prefix, v) && KeyUnder(prefix, e.key) && AllUnder(prefix, Changed(v, e))
    ensures var a, b := Strip(prefix, Changed(v, e)), Mirror.Change(Strip(prefix, v), StripEntry(prefix, e));
            (p in a <==> p in b) && (p in a ==> a[p] == b[p])
  {
    hide KeyUnder, Inner, Strip, AllUnder;
    if p == Inner(prefix, e.key) {
      StripAt(prefix, Changed(v, e), e.key);
    } else {
      StripOther(prefix, v, e, p);
    }
  }

  lemma AllChanged(prefix: string, v: map<string, string>, e: Entry)
    requires AllUnder(prefix, v) && KeyUnder(prefix, e.key)
    ensures AllUnder(prefix, Changed(v, e))
  {
  }

  lemma StripOther(prefix: string, v: map<string, string>, e: Entry, p: Path)
    requires AllUnder(prefix, v) && KeyUnder(prefix, e.key) && AllUnder(prefix, Changed(v, e))
    requires p != Inner(prefix, e.key)
    ensures p in Strip(prefix, Changed(v, e)) <==> p in Strip(prefix, v)
    ensures p in Strip(prefix, v) ==> Strip(prefix, Changed(v, e))[p] == Strip(prefix, v)[p]
  {
    hide KeyUnder, Inner, Strip;
    if p in Strip(prefix, v) {
      var k :| k in v && Inner(prefix, k) == p;
      StripAt(prefix, v, k);
      StripAt(prefix, Changed(v, e), k);
    }
    if p in Strip(prefix, Changed(v, e)) {
      var k :| k in Changed(v, e) && Inner(prefix, k) == p;
      StripAt(prefix, v, k);
    }
  }

  // ---- Keys of metad itself ----------------------------------------------------------------------

  const MAPPING := "/_metad/mapping"
  const RULES := "/_metad/rule"

  /** The prefixes under which metad's own keys are told apart. */
  predicate Everything(prefix: string) {
    prefix == "" || prefix == "/"
  }

  /** Keys that the snapshot leaves out. */
  predicate Uncopied(prefix: string, key: string) {
    Everything(prefix) && MAPPING <= key
  }

  /** Keys whose changes are passed over. */
  predicate Skipped(prefix: string, key: string) {
    Everything(prefix) && (MAPPING <= key || RULES <= key)
  }

  ghost function Copied(prefix: string, v: map<string, string>): map<string, string> {
    map k | k in v && !Uncopied(prefix, k) :: v[k]
  }

  ghost function Followed(prefix: string, v: map<string, string>): map<string, string> {
    map k | k in v && !Skipped(prefix, k) :: v[k]
  }

  /** What is copied though its changes are passed over: the rules, at the root. */
  ghost function Frozen(prefix: string, v: map<string, string>): map<string, string> {
    map k | k in v && !Uncopied(prefix, k) && Skipped(prefix, k) :: v[k]
  }

  /** The keys the store should have: those followed, and those that were copied once. */
  ghost function View(prefix: string, frozen: map<string, string>, v: map<string, string>): map<string, string> {
    Followed(prefix, v) + frozen
  }

  /** Every key other than the mapping's is in the store as it is in etcd, exactly if the rules are still
      what the snapshot found. */
  lemma ViewExactly(prefix: string, past: map<string, string>, v: map<string, string>)
    ensures View(prefix, Frozen(prefix, past), v) == Copied(prefix, v) <==> Frozen(prefix, v) == Frozen(prefix, past)
    ensures !Everything(prefix) ==> View(prefix, Frozen(prefix, past), v) == v == Copied(prefix, v)
  {
    var frozen := Frozen(prefix, past);
    var w := View(prefix, frozen, v);
    if w == Copied(prefix, v) {
      forall k
        ensures k in frozen <==> k in Frozen(prefix, v)
        ensures k in frozen ==> frozen[k] == Frozen(prefix, v)[k]
      {
        assert k in w <==> k in Copied(prefix, v);
        if k in frozen { assert w[k] == frozen[k]; }
      }
      assert Frozen(prefix, v) == frozen;
    }
    if Frozen(prefix, v) == frozen {
      assert w == Copied(prefix, v);
    }
  }

  /** Two moments differ to the store exactly if the followed keys differ. */
  lemma ViewsDiffer(prefix: string, past: map<string, string>, v: map<string, string>, w: map<string, string>)
    ensures View(prefix, Frozen(prefix, past), v) == View(prefix, Frozen(prefix, past), w) <==>
              Followed(prefix, v) == Followed(prefix, w)
  {
    var frozen := Frozen(prefix, past);
    if View(prefix, frozen, v) == View(prefix, frozen, w) {
      forall k
        ensures k in Followed(prefix, v) <==> k in Followed(prefix, w)
        ensures k in Followed(prefix, v) ==> Followed(prefix, v)[k] == Followed(prefix, w)[k]
      {
        assert k in View(prefix, frozen, v) <==> k in View(prefix, frozen, w);
        if k in Followed(prefix, v) { assert View(prefix, frozen, v)[k] == v[k]; }
      }
      assert Followed(prefix, v) == Followed(prefix, w);
    }
  }

  /** `handleGetResp`: the keys of the snapshot, trimmed, without those of the mapping at the root. */
  method HandleGetResp(prefix: string, kvs: map<string, string>) returns (vars: map<string, string>)
    requires AllUnder(prefix, kvs)
    ensures Separate(vars) && AllUnder(prefix, Copied(prefix, kvs))
    ensures Cleaned(vars) == Strip(prefix, Copied(prefix, kvs))
    ensures forall k :: k in kvs ==>
              (TrimPathPrefix(k, prefix) in vars <==>
                 !((prefix == "" || prefix == "/") && "/_metad/mapping" <= k))
  {
    hide KeyUnder, Inner, TrimPathPrefix, PathOf, IsBlank;
    vars := map[];
    ghost var copied := Copied(prefix, kvs);
    var keys := kvs.Keys;
    while keys != {}
      invariant keys <= kvs.Keys
      invariant forall s :: s in vars ==> exists k :: k in copied && k !in keys && s == TrimPathPrefix(k, prefix)
      invariant forall k :: k in copied && k !in keys ==>
                  TrimPathPrefix(k, prefix) in vars && vars[TrimPathPrefix(k, prefix)] == kvs[k]
      decreases keys
    {
      var k :| k in keys;
      keys := keys - {k};
      if (prefix == "" || prefix == "/") && MAPPING <= k {
        assert k !in copied;
        continue;
      }
      forall j | j in kvs && TrimPathPrefix(j, prefix) == TrimPathPrefix(k, prefix)
        ensures j == k
      {
        SameTrimmed(prefix, j, k);
      }
      vars := vars[TrimPathPrefix(k, prefix) := kvs[k]];
    }
    TrimmedCleaned(prefix, copied, vars);
    TrimmedIn(prefix, kvs, vars);
  }

  lemma TrimmedIn(prefix: string, kvs: map<string, string>, vars: map<string, string>)
    requires AllUnder(prefix, kvs)
    requires forall s :: s in vars ==> exists k :: k in Copied(prefix, kvs) && s == TrimPathPrefix(k, prefix)
    requires forall k :: k in Copied(prefix, kvs) ==> TrimPathPrefix(k, prefix) in vars
    ensures forall k :: k in kvs ==>
              (TrimPathPrefix(k, prefix) in vars <==>
                 !((prefix == "" || prefix == "/") && "/_metad/mapping" <= k))
  {
    hide KeyUnder, Inner, TrimPathPrefix, PathOf, IsBlank;
    forall k | k in kvs
      ensures TrimPathPrefix(k, prefix) in vars <==> k in Copied(prefix, kvs)
    {
      if TrimPathPrefix(k, prefix) in vars {
        var j :| j in Copied(prefix, kvs) && TrimPathPrefix(k, prefix) == TrimPathPrefix(j, prefix);
        SameTrimmed(prefix, j, k);
      }
    }
  }

  /** At the root metad's own keys are told by their text: those of the mapping are never copied, and
      neither they nor the rules are followed. */
  lemma OwnKeys(prefix: string, v: map<string, string>, k: string)
    ensures k in Copied(prefix, v) <==> k in v && !((prefix == "" || prefix == "/") && "/_metad/mapping" <= k)
    ensures k in Followed(prefix, v) <==>
              k in v && !((prefix == "" || prefix == "/") && ("/_metad/mapping" <= k || "/_metad/rule" <= k))
  {
  }

  lemma SameTrimmed(prefix: string, a: string, b: string)
    requires KeyUnder(prefix, a) && KeyUnder(prefix, b) && TrimPathPrefix(a, prefix) == TrimPathPrefix(b, prefix)
    ensures a == b
  {
    hide KeyUnder, Inner, TrimPathPrefix, PathOf;
    TrimmedPath(prefix, a);
    TrimmedPath(prefix, b);
    SameInner(prefix, a, b);
  }

  lemma TrimmedCleaned(prefix: string, kvs: map<string, string>, vars: map<string, string>)
    requires AllUnder(prefix, kvs)
    requires forall s :: s in vars ==> exists k :: k in kvs && s == TrimPathPrefix(k, prefix)
    requires forall k :: k in kvs ==>
               TrimPathPrefix(k, prefix) in vars && vars[TrimPathPrefix(k, prefix)] == kvs[k]
    ensures Separate(vars) && Cleaned(vars) == Strip(prefix, kvs)
  {
    hide KeyUnder, Inner, TrimPathPrefix, PathOf, IsBlank, Strip, Cleaned, Separate;
    forall k | k in kvs
      ensures PathOf(TrimPathPrefix(k, prefix)) == Inner(prefix, k) && !IsBlank(TrimPathPrefix(k, prefix))
    {
      TrimmedPath(prefix, k);
    }
    TrimmedSeparate(prefix, kvs, vars);
    var a, b := Cleaned(vars), Strip(prefix, kvs);
    forall p
      ensures p in a <==> p in b
      ensures p in a ==> a[p] == b[p]
    {
      if p in b {
        var k :| k in kvs && Inner(prefix, k) == p;
        assert TrimPathPrefix(k, prefix) in vars;
      }
      if p in a {
        var k := TrimmedFrom(prefix, kvs, vars, p);
      }
    }
    assert a == b;
  }

  lemma TrimmedFrom(prefix: string, kvs: map<string, string>, vars: map<string, string>, p: Path) returns (k: string)
    requires AllUnder(prefix, kvs) && Separate(vars) && p in Cleaned(vars)
    requires forall s :: s in vars ==> exists k :: k in kvs && s == TrimPathPrefix(k, prefix)
    ensures k in kvs && Inner(prefix, k) == p
  {
    hide KeyUnder, Inner, TrimPathPrefix, PathOf, IsBlank, Cleaned, Separate;
    var s :| s in vars && PathOf(s) == p;
    k :| k in kvs && s == TrimPathPrefix(k, prefix);
    TrimmedPath(prefix, k);
  }

  lemma TrimmedSeparate(prefix: string, kvs: map<string, string>, vars: map<string, string>)
    requires AllUnder(prefix, kvs)
    requires forall s :: s in vars ==> exists k :: k in kvs && s == TrimPathPrefix(k, prefix)
    ensures Separate(vars)
  {
    hide KeyUnder, Inner, TrimPathPrefix, PathOf, IsBlank;
    forall s | s in vars
      ensures !IsBlank(s)
    {
      var k :| k in kvs && s == TrimPathPrefix(k, prefix);
      TrimmedPath(prefix, k);
    }
    forall s, t | s in vars && t in vars && PathOf(s) == PathOf(t)
      ensures s == t
    {
      var j :| j in kvs && s == TrimPathPrefix(j, prefix);
      var k :| k in kvs && t == TrimPathPrefix(k, prefix);
      TrimmedPath(prefix, j);
      TrimmedPath(prefix, k);
      SameInner(prefix, j, k);
    }
  }

  // ---- The source --------------------------------------------------------------------------------

  /** Some key lies below `key`. */
  ghost predicate BelowKey(v: map<string, string>, key: string) {
    exists k :: k in v && PathOf(key) < PathOf(k)
  }

  /** No empty string has a key below it. */
  ghost predicate Holdable(v: map<string, string>) {
    forall k :: k in v && v[k] == "" ==> !BelowKey(v, k)
  }

  /** All keys lie under the prefix, and revisions never fall. Keys may nest; of what the store should
      have, no empty string ever has a key below it, and no key is deleted that has others below it. */
  ghost predicate Source(prefix: string, frozen: map<string, string>, start: map<string, string>, log: seq<Entry>) {
    && AllUnder(prefix, start) && AllUnder(prefix, frozen) && (forall k :: k in frozen ==> Skipped(prefix, k))
    && (forall i :: 0 <= i < |log| ==> KeyUnder(prefix, log[i].key))
    && (forall i, j :: 0 <= i <= j < |log| ==> log[i].rev <= log[j].rev)
    && (forall i :: 0 <= i <= |log| ==> Holdable(View(prefix, frozen, KeysAfter(start, log[..i]))))
    && (forall i :: 0 <= i < |log| && !log[i].put && !Skipped(prefix, log[i].key) ==>
          !BelowKey(View(prefix, frozen, KeysAfter(start, log[..i])), log[i].key))
  }

  /** The changes that are not passed over, as events. */
  ghost function Sent(prefix: string, log: seq<Entry>): (r: seq<Event>)
    requires forall i :: 0 <= i < |log| ==> KeyUnder(prefix, log[i].key)
  {
    if log == [] then []
    else
      var e := log[|log| - 1];
      Sent(prefix, log[..|log| - 1]) + if Skipped(prefix, e.key) then [] else [StripEntry(prefix, e)]
  }

  lemma SentOne(prefix: string, log: seq<Entry>, e: Entry)
    requires forall i :: 0 <= i < |log| ==> KeyUnder(prefix, log[i].key)
    requires KeyUnder(prefix, e.key)
    ensures Sent(prefix, log + [e])
         == Sent(prefix, log) + if Skipped(prefix, e.key) then [] else [StripEntry(prefix, e)]
  {
    hide KeyUnder, Skipped, StripEntry;
    assert (log + [e])[..|log|] == log;
  }

  /** How many of the first changes are sent. */
  ghost function Count(prefix: string, log: seq<Entry>, i: nat): nat
    requires i <= |log| && forall j :: 0 <= j < |log| ==> KeyUnder(prefix, log[j].key)
  {
    |Sent(prefix, log[..i])|
  }

  lemma CountNext(prefix: string, log: seq<Entry>, i: nat)
    requires i < |log| && forall j :: 0 <= j < |log| ==> KeyUnder(prefix, log[j].key)
    ensures Count(prefix, log, i + 1) == Count(prefix, log, i) + if Skipped(prefix, log[i].key) then 0 else 1
  {
    hide KeyUnder, Skipped, StripEntry;
    assert log[..i + 1] == log[..i] + [log[i]];
    SentOne(prefix, log[..i], log[i]);
  }

  lemma {:induction false} CountUp(prefix: string, log: seq<Entry>, i: nat, j: nat)
    requires i <= j <= |log| && forall n :: 0 <= n < |log| ==> KeyUnder(prefix, log[n].key)
    ensures Count(prefix, log, i) <= Count(prefix, log, j)
    decreases j
  {
    hide KeyUnder, Skipped, Count;
    if i < j {
      CountUp(prefix, log, i, j - 1);
      CountNext(prefix, log, j - 1);
    }
  }

  lemma {:induction false} SentPrefix(prefix: string, log: seq<Entry>, i: nat)
    requires i <= |log| && forall n :: 0 <= n < |log| ==> KeyUnder(prefix, log[n].key)
    ensures Sent(prefix, log[..i]) <= Sent(prefix, log)
    decreases |log|
  {
    hide KeyUnder, Skipped, StripEntry;
    if i == |log| {
      assert log[..i] == log;
    } else {
      var before := log[..|log| - 1];
      SentPrefix(prefix, before, i);
      assert before[..i] == log[..i];
    }
  }

  /** The change at `i`, if it is sent, is the next event after those sent before. */
  lemma SentAt(prefix: string, log: seq<Entry>, i: nat)
    requires i < |log| && (forall n :: 0 <= n < |log| ==> KeyUnder(prefix, log[n].key)) && !Skipped(prefix, log[i].key)
    ensures Count(prefix, log, i) < |Sent(prefix, log)|
    ensures Sent(prefix, log)[Count(prefix, log, i)] == StripEntry(prefix, log[i])
  {
    hide KeyUnder, Skipped, StripEntry, Sent;
    assert log[..i + 1] == log[..i] + [log[i]];
    SentOne(prefix, log[..i], log[i]);
    SentPrefix(prefix, log, i + 1);
  }

  lemma ViewUnder(prefix: string, frozen: map<string, string>, v: map<string, string>)
    requires AllUnder(prefix, frozen) && AllUnder(prefix, v)
    ensures AllUnder(prefix, View(prefix, frozen, v))
  {
  }

  /** What a change does to the store's keys. */
  lemma ViewChanged(prefix: string, frozen: map<string, string>, v: map<string, string>, e: Entry)
    requires forall k :: k in frozen ==> Skipped(prefix, k)
    ensures View(prefix, frozen, Changed(v, e)) ==
              if Skipped(prefix, e.key) then View(prefix, frozen, v) else Changed(View(prefix, frozen, v), e)
  {
    hide Skipped;
  }

  lemma {:induction false} KeysUnder(prefix: string, start: map<string, string>, log: seq<Entry>)
    requires AllUnder(prefix, start) && forall i :: 0 <= i < |log| ==> KeyUnder(prefix, log[i].key)
    ensures AllUnder(prefix, KeysAfter(start, log))
    decreases |log|
  {
    hide KeyUnder, AllUnder, Changed;
    if log != [] {
      KeysUnder(prefix, start, log[..|log| - 1]);
      AllChanged(prefix, KeysAfter(start, log[..|log| - 1]), log[|log| - 1]);
    }
  }

  /** The keys the store should have, as paths. */
  ghost function Goal(prefix: string, frozen: map<string, string>, v: map<string, string>): map<Path, string>
    requires AllUnder(prefix, frozen) && AllUnder(prefix, v)
  {
    ViewUnder(prefix, frozen, v);
    Strip(prefix, View(prefix, frozen, v))
  }

  lemma GoalChanged(prefix: string, frozen: map<string, string>, v: map<string, string>, e: Entry)
    requires AllUnder(prefix, frozen) && AllUnder(prefix, v) && KeyUnder(prefix, e.key)
    requires forall k :: k in frozen ==> Skipped(prefix, k)
    ensures AllUnder(prefix, Changed(v, e))
    ensures Goal(prefix, frozen, Changed(v, e)) ==
              if Skipped(prefix, e.key) then Goal(prefix, frozen, v)
              else Mirror.Change(Goal(prefix, frozen, v), StripEntry(prefix, e))
  {
    hide AllUnder, KeyUnder, Strip, Changed, View, Skipped, StripEntry, Mirror.Change;
    AllChanged(prefix, v, e);
    ViewChanged(prefix, frozen, v, e);
    ViewUnder(prefix, frozen, v);
    if !Skipped(prefix, e.key) {
      StripChanged(prefix, View(prefix, frozen, v), e);
    }
  }

  lemma {:induction false} GoalHistory(prefix: string, frozen: map<string, string>, start: map<string, string>,
                                       log: seq<Entry>)
    requires AllUnder(prefix, start) && AllUnder(prefix, frozen) && forall k :: k in frozen ==> Skipped(prefix, k)
    requires forall i :: 0 <= i < |log| ==> KeyUnder(prefix, log[i].key)
    ensures AllUnder(prefix, KeysAfter(start, log))
    ensures Goal(prefix, frozen, KeysAfter(start, log))
         == Mirror.History(Goal(prefix, frozen, start), Sent(prefix, log))
    decreases |log|
  {
    hide AllUnder, KeyUnder, Goal, Changed, Mirror.Change, StripEntry, Skipped, KeysAfter;
    NoChange(start);
    KeysUnder(prefix, start, log);
    if log != [] {
      var before, e := log[..|log| - 1], log[|log| - 1];
      GoalHistory(prefix, frozen, start, before);
      OneChange(start, log);
      GoalChanged(prefix, frozen, KeysAfter(start, before), e);
      var h := Sent(prefix, before) + [StripEntry(prefix, e)];
      assert h[..|h| - 1] == Sent(prefix, before) && Sent(prefix, before) + [] == Sent(prefix, before);
    }
  }

  /** What lies below a key lies below its path. */
  lemma StripBelow(prefix: string, v: map<string, string>, key: string)
    requires AllUnder(prefix, v) && KeyUnder(prefix, key)
    ensures KeyBelow(Strip(prefix, v), Inner(prefix, key)) <==> BelowKey(v, key)
  {
    hide KeyUnder, PathOf, Strip, Inner;
    var m, p, r := Strip(prefix, v), Inner(prefix, key), PathOf(prefix);
    if q :| q in m && p < q {
      var k :| k in v && Inner(prefix, k) == q;
      assert r + p < r + q;
    }
    if k :| k in v && PathOf(key) < PathOf(k) {
      var q := Inner(prefix, k);
      assert r + p < r + q && q in m;
      InnerLess(r, p, q);
    }
  }

  lemma InnerLess(r: Path, p: Path, q: Path)
    requires r + p < r + q
    ensures p < q
  {
    forall i | 0 <= i < |p|
      ensures p[i] == q[i]
    {
      assert (r + p)[|r| + i] == (r + q)[|r| + i];
    }
  }

  lemma StripStorable(prefix: string, v: map<string, string>)
    requires AllUnder(prefix, v) && Holdable(v)
    ensures Mirror.Storable(Strip(prefix, v))
  {
    hide KeyUnder, PathOf, Strip, KeyBelow, BelowKey;
    var m := Strip(prefix, v);
    forall p | p in m
      ensures p != [] && (m[p] == "" ==> !KeyBelow(m, p))
    {
      var k :| k in v && Inner(prefix, k) == p;
      StripBelow(prefix, v, k);
    }
  }

  /** Keys that have the same paths are the same. */
  lemma StripInjective(prefix: string, v: map<string, string>, w: map<string, string>)
    requires AllUnder(prefix, v) && AllUnder(prefix, w) && Strip(prefix, v) == Strip(prefix, w)
    ensures v == w
  {
    hide KeyUnder, Inner, Strip;
    forall k
      ensures k in v <==> k in w
      ensures k in v ==> v[k] == w[k]
    {
      if k in v || k in w {
        StripAt(prefix, v, k);
        StripAt(prefix, w, k);
      }
    }
  }

  lemma SourceKeys(prefix: string, frozen: map<string, string>, start: map<string, string>, log: seq<Entry>)
    requires Source(prefix, frozen, start, log)
    ensures AllUnder(prefix, start) && AllUnder(prefix, frozen) && forall k :: k in frozen ==> Skipped(prefix, k)
    ensures forall i :: 0 <= i < |log| ==> KeyUnder(prefix, log[i].key)
    ensures AllUnder(prefix, KeysAfter(start, log))
    ensures AllUnder(prefix, View(prefix, frozen, KeysAfter(start, log)))
  {
    hide KeyUnder, AllUnder, Skipped, Holdable, BelowKey, View;
    KeysUnder(prefix, start, log);
    ViewUnder(prefix, frozen, KeysAfter(start, log));
  }

  lemma SourceBefore(prefix: string, frozen: map<string, string>, start: map<string, string>, log: seq<Entry>)
    requires Source(prefix, frozen, start, log) && log != []
    ensures Source(prefix, frozen, start, log[..|log| - 1])
  {
    hide KeyUnder, AllUnder, Skipped, Holdable, BelowKey, View, KeysAfter;
    var before := log[..|log| - 1];
    assert forall i :: 0 <= i <= |before| ==> before[..i] == log[..i];
  }

  lemma SourceNow(prefix: string, frozen: map<string, string>, start: map<string, string>, log: seq<Entry>)
    requires Source(prefix, frozen, start, log)
    ensures Holdable(View(prefix, frozen, KeysAfter(start, log)))
    ensures log != [] && !log[|log| - 1].put && !Skipped(prefix, log[|log| - 1].key) ==>
              !BelowKey(View(prefix, frozen, KeysAfter(start, log[..|log| - 1])), log[|log| - 1].key)
  {
    hide KeyUnder, AllUnder, Skipped, Holdable, BelowKey, View, KeysAfter;
    assert log[..|log|] == log;
  }

  /** Such a source is sound for the mirror. */
  lemma {:induction false} SentSound(prefix: string, frozen: map<string, string>, start: map<string, string>,
                                     log: seq<Entry>)
    requires Source(prefix, frozen, start, log)
    ensures AllUnder(prefix, start) && AllUnder(prefix, frozen) && AllUnder(prefix, KeysAfter(start, log))
    ensures forall i :: 0 <= i < |log| ==> KeyUnder(prefix, log[i].key)
    ensures Mirror.Sound(Goal(prefix, frozen, start), Sent(prefix, log))
    ensures Mirror.KeysAt(Goal(prefix, frozen, start), Sent(prefix, log), |Sent(prefix, log)|)
         == Goal(prefix, frozen, KeysAfter(start, log))
    decreases |log|
  {
    hide *;
    SourceKeys(prefix, frozen, start, log);
    GoalHistory(prefix, frozen, start, log);
    AtEnd(Goal(prefix, frozen, start), Sent(prefix, log));
    if log == [] {
      NoChange(start);
      GoalStorable(prefix, frozen, start, log);
      NoneSent(prefix);
      FirstSound(Goal(prefix, frozen, start));
    } else {
      SourceBefore(prefix, frozen, start, log);
      SentSound(prefix, frozen, start, log[..|log| - 1]);
      SentSoundStep(prefix, frozen, start, log);
    }
  }

  lemma SentSoundStep(prefix: string, frozen: map<string, string>, start: map<string, string>, log: seq<Entry>)
    requires Source(prefix, frozen, start, log) && log != []
    requires AllUnder(prefix, start) && AllUnder(prefix, frozen)
    requires forall i :: 0 <= i < |log| ==> KeyUnder(prefix, log[i].key)
    requires Mirror.Sound(Goal(prefix, frozen, start), Sent(prefix, log[..|log| - 1]))
    ensures Mirror.Sound(Goal(prefix, frozen, start), Sent(prefix, log))
  {
    hide AllUnder, KeyUnder, Goal, Sent, Skipped, StripEntry, Source, KeysAfter, Mirror.Sound, Mirror.KeysAt;
    var before, e := log[..|log| - 1], log[|log| - 1];
    assert log == before + [e];
    SentOne(prefix, before, e);
    if Skipped(prefix, e.key) {
      assert Sent(prefix, before) + [] == Sent(prefix, before);
    } else {
      SourceBefore(prefix, frozen, start, log);
      SourceKeys(prefix, frozen, start, before);
      GoalHistory(prefix, frozen, start, before);
      AtEnd(Goal(prefix, frozen, start), Sent(prefix, before));
      SentSoundOne(prefix, frozen, start, log);
    }
  }

  lemma AtEnd(v: map<Path, string>, log: seq<Event>)
    ensures Mirror.KeysAt(v, log, |log|) == Mirror.History(v, log)
  {
    assert log[..|log|] == log;
  }

  lemma NoneSent(prefix: string)
    ensures Sent(prefix, []) == []
  {
  }

  lemma GoalStorable(prefix: string, frozen: map<string, string>, start: map<string, string>, log: seq<Entry>)
    requires Source(prefix, frozen, start, log)
    ensures AllUnder(prefix, frozen) && AllUnder(prefix, KeysAfter(start, log))
    ensures Mirror.Storable(Goal(prefix, frozen, KeysAfter(start, log)))
  {
    hide AllUnder, KeyUnder, Source, KeysAfter, View, Strip, Holdable, Mirror.Storable;
    SourceKeys(prefix, frozen, start, log);
    SourceNow(prefix, frozen, start, log);
    StripStorable(prefix, View(prefix, frozen, KeysAfter(start, log)));
  }

  lemma SentSoundOne(prefix: string, frozen: map<string, string>, start: map<string, string>, log: seq<Entry>)
    requires Source(prefix, frozen, start, log) && log != [] && !Skipped(prefix, log[|log| - 1].key)
    requires AllUnder(prefix, start) && AllUnder(prefix, frozen)
    requires forall i :: 0 <= i < |log| ==> KeyUnder(prefix, log[i].key)
    requires AllUnder(prefix, KeysAfter(start, log[..|log| - 1]))
    requires Mirror.Sound(Goal(prefix, frozen, start), Sent(prefix, log[..|log| - 1]))
    requires var sent := Sent(prefix, log[..|log| - 1]);
             Mirror.KeysAt(Goal(prefix, frozen, start), sent, |sent|)
               == Goal(prefix, frozen, KeysAfter(start, log[..|log| - 1]))
    ensures var before, e := log[..|log| - 1], log[|log| - 1];
            Mirror.Sound(Goal(prefix, frozen, start), Sent(prefix, before) + [StripEntry(prefix, e)])
  {
    hide AllUnder, KeyUnder, View, Strip, Sent, Skipped, Source, KeysAfter, Changed, Inner, BelowKey, KeyBelow;
    hide Mirror.Sound, Mirror.KeysAt, Mirror.Storable, Mirror.Change;
    var before, e := log[..|log| - 1], log[|log| - 1];
    SourceKeys(prefix, frozen, start, log);
    ViewUnder(prefix, frozen, KeysAfter(start, before));
    OneChange(start, log);
    GoalChanged(prefix, frozen, KeysAfter(start, before), e);
    GoalStorable(prefix, frozen, start, log);
    SourceNow(prefix, frozen, start, log);
    StripBelow(prefix, View(prefix, frozen, KeysAfter(start, before)), e.key);
    Mirror.SoundOne(Goal(prefix, frozen, start), Sent(prefix, before), StripEntry(prefix, e));
  }

  lemma OneChange(start: map<string, string>, log: seq<Entry>)
    requires log != []
    ensures KeysAfter(start, log) == Changed(KeysAfter(start, log[..|log| - 1]), log[|log| - 1])
  {
  }

  lemma NoChange(start: map<string, string>)
    ensures KeysAfter(start, []) == start
  {
  }

  lemma FirstSound(v: map<Path, string>)
    requires Mirror.Storable(v)
    ensures Mirror.Sound(v, [])
  {
    var none: seq<Event> := [];
    assert none[..0] == none && Mirror.KeysAt(v, none, 0) == v;
  }

  // ---- The loop ----------------------------------------------------------------------------------

  /** `start`: the keys when the first watch began; `frozen`: what the snapshot took of keys whose changes
      are passed over; `log`: the changes since; `ops`: what was done to the store; `pos`: where in the log
      the watch stands; `rev`: the revision of the last response; `high`: how many changes the store may
      reflect. */
  datatype Loop = Loop(prefix: string, start: map<string, string>, frozen: map<string, string>, log: seq<Entry>,
    ops: seq<Op>, pos: nat, rev: nat, high: nat)

  datatype Step =
    | Commit(entry: Entry)                // somebody changes a key
    | Receive(count: nat, revision: nat)  // a response with the next changes
    | Reconnect                           // the watch broke and begins again at `rev`, or now if that is 0
    | Local(op: Op)                       // somebody watches the store, or it is cleaned

  /** The changes before revision `rev`. */
  ghost function Before(log: seq<Entry>, rev: nat): (i: nat)
    ensures i <= |log| && (forall j :: 0 <= j < i ==> log[j].rev < rev) && (i < |log| ==> rev <= log[i].rev)
  {
    if log == [] || rev <= log[0].rev then 0 else 1 + Before(log[1..], rev)
  }

  /** The operation a change is mirrored by: its trimmed key put or deleted. */
  ghost function OpFor(prefix: string, e: Entry): Op {
    var p := PathOf(TrimPathPrefix(e.key, prefix));
    if e.put then Put(p, e.value) else Op.Delete(p)
  }

  ghost function OpsFor(prefix: string, es: seq<Entry>): seq<Op> {
    if es == [] then []
    else
      var e := es[|es| - 1];
      OpsFor(prefix, es[..|es| - 1]) + if Skipped(prefix, e.key) then [] else [OpFor(prefix, e)]
  }

  /** Watching, and the snapshot taken after all of `log`, trimmed and put into an empty store. */
  ghost function Init(prefix: string, start: map<string, string>, log: seq<Entry>, vars: map<string, string>): Loop
    requires Separate(vars)
  {
    Loop(prefix, start, Frozen(prefix, KeysAfter(start, log)), log, [PutBulk([], Cleaned(vars))], 0, 0, |log|)
  }

  /** The next watch, from the revision of the last response, or from now if there was none. */
  ghost function Restart(m: Loop): Loop {
    if m.rev == 0 then m.(pos := |m.log|, high := |m.log|) else m.(pos := Before(m.log, m.rev))
  }

  ghost predicate Enabled(m: Loop, s: Step) {
    match s
    case Commit(e) => Source(m.prefix, m.frozen, m.start, m.log + [e]) && m.rev <= e.rev
    case Receive(n, h) => m.pos + n <= |m.log| && 0 < h && m.rev <= h && Before(m.log, h) <= m.pos + n
    case Reconnect => true
    case Local(op) => WritesNothing(op)
  }

  ghost function Take(m: Loop, s: Step): Loop
    requires Enabled(m, s)
  {
    match s
    case Commit(e) => m.(log := m.log + [e])
    case Receive(n, h) => Further(m, n).(rev := h)
    case Reconnect => Restart(m)
    case Local(op) => m.(ops := m.ops + [op])
  }

  ghost predicate EnabledAll(m: Loop, ss: seq<Step>)
    decreases |ss|
  {
    ss == [] || (Enabled(m, ss[0]) && EnabledAll(Take(m, ss[0]), ss[1..]))
  }

  ghost function TakeAll(m: Loop, ss: seq<Step>): Loop
    requires EnabledAll(m, ss)
    decreases |ss|
  {
    if ss == [] then m else TakeAll(Take(m, ss[0]), ss[1..])
  }

  /** No watch breaks before its first response. */
  ghost predicate Answered(m: Loop, ss: seq<Step>)
    requires EnabledAll(m, ss)
    decreases |ss|
  {
    ss == [] || ((ss[0].Reconnect? ==> 0 < m.rev) && Answered(Take(m, ss[0]), ss[1..]))
  }

  ghost predicate SourceOf(m: Loop) {
    Source(m.prefix, m.frozen, m.start, m.log) && m.pos <= m.high <= |m.log|
  }

  ghost function SyncOf(m: Loop): Mirror.Sync
    requires SourceOf(m)
  {
    Mirror.Sync(Goal(m.prefix, m.frozen, m.start), Sent(m.prefix, m.log), m.ops,
      Count(m.prefix, m.log, m.pos), Count(m.prefix, m.log, m.high))
  }

  /** The loop keeps the mirror's invariant, and was sent everything before its revision. */
  ghost predicate Good(m: Loop) {
    SourceOf(m) && Mirror.Good(SyncOf(m)) && (0 < m.rev ==> Before(m.log, m.rev) <= m.pos)
  }

  /** What the snapshot of these keys is put into the store as. */
  ghost predicate Snapshot(prefix: string, start: map<string, string>, log: seq<Entry>, vars: map<string, string>) {
    var v := KeysAfter(start, log);
    && Source(prefix, Frozen(prefix, v), start, log)
    && Separate(vars) && AllUnder(prefix, Copied(prefix, v)) && Cleaned(vars) == Strip(prefix, Copied(prefix, v))
  }

  lemma SnapshotSeparate(prefix: string, start: map<string, string>, log: seq<Entry>, vars: map<string, string>)
    requires Snapshot(prefix, start, log, vars)
    ensures Separate(vars)
  {
    hide Separate;
  }

  lemma InitTold(prefix: string, start: map<string, string>, log: seq<Entry>, vars: map<string, string>)
    requires Snapshot(prefix, start, log, vars)
    ensures SourceOf(Init(prefix, start, log, vars)) && AllUnder(prefix, KeysAfter(start, log))
    ensures var m := Init(prefix, start, log, vars);
            FlatRun(m.ops) == Goal(prefix, m.frozen, KeysAfter(start, log))
    ensures AllUnder(prefix, Frozen(prefix, KeysAfter(start, log)))
  {
    hide AllUnder, KeyUnder, Strip, Separate, Cleaned, KeysAfter, Source, View, Copied, Frozen, Holdable, FlatRun;
    var v := KeysAfter(start, log);
    SourceKeys(prefix, Frozen(prefix, v), start, log);
    ViewExactly(prefix, v, v);
    SourceNow(prefix, Frozen(prefix, v), start, log);
    StripStorable(prefix, Copied(prefix, v));
    Mirror.SnapshotHeld(Cleaned(vars));
  }

  lemma InitGood(prefix: string, start: map<string, string>, log: seq<Entry>, vars: map<string, string>)
    requires Snapshot(prefix, start, log, vars)
    ensures Good(Init(prefix, start, log, vars))
  {
    hide AllUnder, KeyUnder, Goal, Separate, Cleaned, KeysAfter, Source, Frozen, FlatRun, Snapshot;
    hide Mirror.KeysAt, Mirror.Good, Mirror.Sound;
    SnapshotSeparate(prefix, start, log, vars);
    var m := Init(prefix, start, log, vars);
    InitTold(prefix, start, log, vars);
    SentSound(prefix, m.frozen, start, log);
    assert log[..|log|] == log && log[..0] == [];
    Mirror.CopiedGood(SyncOf(m));
  }

  lemma OpForIs(prefix: string, e: Entry)
    requires KeyUnder(prefix, e.key)
    ensures OpFor(prefix, e) == Mirror.OpOf(StripEntry(prefix, e))
  {
    hide KeyUnder, PathOf, TrimPathPrefix, Inner;
    TrimmedPath(prefix, e.key);
  }

  /** The loop after the next `n` changes were received. */
  ghost function Further(m: Loop, n: nat): Loop
    requires m.pos + n <= |m.log|
  {
    m.(ops := m.ops + OpsFor(m.prefix, m.log[m.pos..m.pos + n]), pos := m.pos + n,
       high := if m.high < m.pos + n then m.pos + n else m.high)
  }

  lemma OpsForOne(prefix: string, es: seq<Entry>, e: Entry)
    ensures OpsFor(prefix, es + [e]) == OpsFor(prefix, es) + if Skipped(prefix, e.key) then [] else [OpFor(prefix, e)]
  {
    hide OpFor, Skipped;
    assert (es + [e])[..|es|] == es;
  }

  lemma FurtherOne(m: Loop, n: nat)
    requires m.pos + n < |m.log| && m.pos <= m.high
    ensures Further(m, n + 1) == Further(Further(m, n), 1)
  {
    var k := m.pos + n;
    hide OpFor, OpsFor, Skipped;
    assert m.log[m.pos..k + 1] == m.log[m.pos..k] + [m.log[k]];
    assert m.log[k..k + 1] == [] + [m.log[k]];
    OpsForOne(m.prefix, m.log[m.pos..k], m.log[k]);
    OpsForOne(m.prefix, [], m.log[k]);
    NoOps(m.prefix);
    var x := if Skipped(m.prefix, m.log[k].key) then [] else [OpFor(m.prefix, m.log[k])];
    assert [] + x == x;
    assert m.ops + (OpsFor(m.prefix, m.log[m.pos..k]) + x) == m.ops + OpsFor(m.prefix, m.log[m.pos..k]) + x;
  }

  lemma NoOps(prefix: string)
    ensures OpsFor(prefix, []) == []
  {
  }

  /** The loop after one more change. */
  lemma NextOne(m: Loop)
    requires m.pos < |m.log|
    ensures var e := m.log[m.pos];
            Further(m, 1) == m.(ops := if Skipped(m.prefix, e.key) then m.ops else m.ops + [OpFor(m.prefix, e)],
                                pos := m.pos + 1, high := if m.high < m.pos + 1 then m.pos + 1 else m.high)
  {
    hide OpFor, OpsFor, Skipped;
    var e := m.log[m.pos];
    assert m.log[m.pos..m.pos + 1] == [] + [e];
    OpsForOne(m.prefix, [], e);
    NoOps(m.prefix);
    assert m.ops + ([] + []) == m.ops && m.ops + ([] + [OpFor(m.prefix, e)]) == m.ops + [OpFor(m.prefix, e)];
  }

  /** Where the mirror stands after one more change. */
  lemma NextCounts(m: Loop)
    requires SourceOf(m) && m.pos < |m.log| && forall j :: 0 <= j < |m.log| ==> KeyUnder(m.prefix, m.log[j].key)
    ensures var pos, high := Count(m.prefix, m.log, m.pos), Count(m.prefix, m.log, m.high);
            var next := pos + if Skipped(m.prefix, m.log[m.pos].key) then 0 else 1;
            && Count(m.prefix, m.log, m.pos + 1) == next
            && Count(m.prefix, m.log, if m.high < m.pos + 1 then m.pos + 1 else m.high) ==
                 if high < next then next else high
  {
    hide Source, Count, Skipped, KeyUnder;
    CountNext(m.prefix, m.log, m.pos);
    if m.pos + 1 <= m.high { CountUp(m.prefix, m.log, m.pos + 1, m.high); }
  }

  lemma OneGood(m: Loop)
    requires SourceOf(m) && Mirror.Good(SyncOf(m)) && m.pos < |m.log|
    ensures SourceOf(Further(m, 1)) && Mirror.Good(SyncOf(Further(m, 1)))
  {
    hide Source, Mirror.Good, OpFor, Further, Goal, StripEntry, Mirror.OpOf, Count, Sent, Skipped, KeyUnder;
    SourceKeys(m.prefix, m.frozen, m.start, m.log);
    var e, u := m.log[m.pos], Further(m, 1);
    NextOne(m);
    NextCounts(m);
    CountUp(m.prefix, m.log, m.pos, m.high);
    if Skipped(m.prefix, e.key) {
      assert SyncOf(u) == SyncOf(m);
    } else {
      OpForIs(m.prefix, e);
      SentAt(m.prefix, m.log, m.pos);
      Mirror.DeliverGood(SyncOf(m));
      assert SyncOf(u) == Mirror.Take(SyncOf(m), Mirror.Deliver);
    }
  }

  /** A response of `n` changes is as many deliveries, less the changes passed over. */
  lemma {:induction false} ReceiveGood(m: Loop, n: nat)
    requires SourceOf(m) && Mirror.Good(SyncOf(m)) && m.pos + n <= |m.log|
    ensures SourceOf(Further(m, n)) && Mirror.Good(SyncOf(Further(m, n)))
    decreases n
  {
    hide Source, Mirror.Good, OpsFor, Goal, Sent, Count;
    if n == 0 {
      NoFurther(m);
    } else {
      ReceiveGood(m, n - 1);
      FurtherOne(m, n - 1);
      OneGood(Further(m, n - 1));
    }
  }

  lemma NoFurther(m: Loop)
    requires m.pos <= |m.log| && m.pos <= m.high
    ensures Further(m, 0) == m
  {
    assert m.log[m.pos..m.pos] == [] && m.ops + [] == m.ops;
  }

  lemma {:induction false} BeforeMore(log: seq<Entry>, e: Entry, rev: nat)
    requires rev <= e.rev
    ensures Before(log + [e], rev) == Before(log, rev)
    decreases |log|
  {
    if log != [] && !(rev <= log[0].rev) {
      assert (log + [e])[1..] == log[1..] + [e];
      BeforeMore(log[1..], e, rev);
    }
  }

  lemma CommitGood(m: Loop, e: Entry)
    requires Good(m) && Enabled(m, Commit(e))
    ensures Good(Take(m, Commit(e)))
  {
    hide Source, Mirror.Good, Goal, Sent, Mirror.Sound, Before, Mirror.KeysAt, Skipped, StripEntry;
    SourceKeys(m.prefix, m.frozen, m.start, m.log + [e]);
    SourceKeys(m.prefix, m.frozen, m.start, m.log);
    assert (m.log + [e])[|m.log|] == e;
    SentSound(m.prefix, m.frozen, m.start, m.log + [e]);
    SentOne(m.prefix, m.log, e);
    Mirror.AppendGood(SyncOf(m), if Skipped(m.prefix, e.key) then [] else [StripEntry(m.prefix, e)]);
    assert (m.log + [e])[..m.pos] == m.log[..m.pos] && (m.log + [e])[..m.high] == m.log[..m.high];
    BeforeMore(m.log, e, m.rev);
  }

  lemma ReconnectGood(m: Loop)
    requires Good(m) && 0 < m.rev
    ensures Good(Take(m, Reconnect))
  {
    hide Source, Mirror.Good, Goal, Sent, Before, Count;
    SourceKeys(m.prefix, m.frozen, m.start, m.log);
    CountUp(m.prefix, m.log, Before(m.log, m.rev), m.pos);
    Mirror.ResumeGood(SyncOf(m), Count(m.prefix, m.log, Before(m.log, m.rev)));
  }

  lemma StepGood(m: Loop, s: Step)
    requires Good(m) && Enabled(m, s) && (s.Reconnect? ==> 0 < m.rev)
    ensures Good(Take(m, s))
  {
    hide Source, Mirror.Good, Goal, Sent, Before, Count;
    match s {
      case Commit(e) => CommitGood(m, e);
      case Receive(n, h) => ReceiveGood(m, n);
      case Reconnect => ReconnectGood(m);
      case Local(op) => Mirror.TakeGood(SyncOf(m), Mirror.Local(op));
    }
  }

  lemma {:induction false} AllGood(m: Loop, ss: seq<Step>)
    requires Good(m) && EnabledAll(m, ss) && Answered(m, ss)
    ensures Good(TakeAll(m, ss))
    decreases |ss|
  {
    hide Good, Enabled, Take;
    if ss != [] {
      StepGood(m, ss[0]);
      AllGood(Take(m, ss[0]), ss[1..]);
    }
  }

  /** Once everything was received, the store has the keys it should have. */
  ghost predicate UpToDate(m: Loop) {
    && AllUnder(m.prefix, m.frozen) && AllUnder(m.prefix, KeysAfter(m.start, m.log))
    && (m.pos == |m.log| ==> Mirror.Equals(m.ops, Goal(m.prefix, m.frozen, KeysAfter(m.start, m.log))))
  }

  lemma GoodUpToDate(m: Loop)
    requires Good(m)
    ensures UpToDate(m)
  {
    hide Source, Goal, Sent, Before, KeysAfter, AllUnder, KeyUnder;
    hide Mirror.Good, Mirror.KeysAt, Mirror.Equals, Mirror.Sound;
    SourceKeys(m.prefix, m.frozen, m.start, m.log);
    SentSound(m.prefix, m.frozen, m.start, m.log);
    assert m.log[..|m.log|] == m.log;
    if m.pos == |m.log| {
      Mirror.Caught(SyncOf(m));
    }
  }

  /** Whatever changes the snapshot already held, however the changes are cut into responses, however
      often the watch breaks after a first response and whoever watches the store: once everything was
      received, the store has exactly the etcd keys under the prefix, except that at the root it has none
      of the mapping's and the rules as the snapshot found them. */
  lemma Mirrors(prefix: string, start: map<string, string>, log: seq<Entry>, vars: map<string, string>, ss: seq<Step>)
    requires Snapshot(prefix, start, log, vars)
    requires EnabledAll(Init(prefix, start, log, vars), ss) && Answered(Init(prefix, start, log, vars), ss)
    ensures UpToDate(TakeAll(Init(prefix, start, log, vars), ss))
  {
    hide Good, Snapshot, UpToDate, Enabled, Take, Separate;
    SnapshotSeparate(prefix, start, log, vars);
    InitGood(prefix, start, log, vars);
    AllGood(Init(prefix, start, log, vars), ss);
    GoodUpToDate(TakeAll(Init(prefix, start, log, vars), ss));
  }

  // ---- A watch that breaks before its first response ----------------------------------------------

  ghost predicate Unanswered(ss: seq<Step>) {
    forall i :: 0 <= i < |ss| ==> !ss[i].Receive?
  }

  /** Before the first response nothing but the snapshot has reached the store. */
  ghost predicate Fresh(m: Loop, told: map<Path, string>) {
    m.rev == 0 && Source(m.prefix, m.frozen, m.start, m.log) && FlatRun(m.ops) == told
  }

  lemma {:induction false} StaysFresh(m: Loop, ss: seq<Step>, told: map<Path, string>)
    requires Fresh(m, told) && EnabledAll(m, ss) && Unanswered(ss)
    ensures var u := TakeAll(m, ss);
            Fresh(u, told) && u.prefix == m.prefix && u.start == m.start && u.frozen == m.frozen
    decreases |ss|
  {
    hide Source, FlatRun, Before, Further, FlatApply;
    if ss != [] {
      if ss[0].Local? {
        FlatRunOne(m.ops, ss[0].op);
        LocalKeeps(FlatRun(m.ops), ss[0].op);
      }
      StaysFresh(Take(m, ss[0]), ss[1..], told);
    }
  }

  /** From here on, whatever comes, the store has the keys it should have once everything was received. */
  ghost predicate AlwaysUpToDate(m: Loop) {
    forall ss :: EnabledAll(m, ss) && Answered(m, ss) ==> UpToDate(TakeAll(m, ss))
  }

  /** A watch that breaks before its first response begins again at the present. That does no harm exactly
      if at that moment the keys whose changes are followed are what they were for the snapshot. */
  lemma ReconnectedExactly(prefix: string, start: map<string, string>, log: seq<Entry>, vars: map<string, string>,
                           ss: seq<Step>)
    requires Snapshot(prefix, start, log, vars)
    requires EnabledAll(Init(prefix, start, log, vars), ss) && Unanswered(ss)
    ensures var m := TakeAll(Init(prefix, start, log, vars), ss);
            AlwaysUpToDate(Restart(m)) <==>
              Followed(prefix, KeysAfter(start, m.log)) == Followed(prefix, KeysAfter(start, log))
  {
    hide Good, Snapshot, UpToDate, Separate, Source, Fresh, EnabledAll, TakeAll, AlwaysUpToDate;
    hide FlatRun, Followed, Goal, KeysAfter, AllUnder, KeyUnder, Frozen, Cleaned, Take, Strip, View, Copied;
    SnapshotSeparate(prefix, start, log, vars);
    var i := Init(prefix, start, log, vars);
    InitTold(prefix, start, log, vars);
    var told := Goal(prefix, i.frozen, KeysAfter(start, log));
    InitFresh(i, told);
    StaysFresh(i, ss, told);
    var m := TakeAll(i, ss);
    StillFresh(m, told);
    RestartedExactly(Restart(m), log, told);
  }

  lemma StillFresh(m: Loop, told: map<Path, string>)
    requires Fresh(m, told)
    ensures var u := Restart(m);
            && Fresh(u, told) && u.pos == u.high == |u.log| && u.log == m.log
            && u.prefix == m.prefix && u.start == m.start && u.frozen == m.frozen
  {
    hide Source, FlatRun;
  }

  lemma InitFresh(m: Loop, told: map<Path, string>)
    requires SourceOf(m) && m.rev == 0 && FlatRun(m.ops) == told
    ensures Fresh(m, told)
  {
  }

  lemma RestartedExactly(m: Loop, log: seq<Entry>, told: map<Path, string>)
    requires Fresh(m, told) && m.pos == m.high == |m.log|
    requires m.frozen == Frozen(m.prefix, KeysAfter(m.start, log))
    requires AllUnder(m.prefix, m.frozen) && AllUnder(m.prefix, KeysAfter(m.start, log))
    requires told == Goal(m.prefix, m.frozen, KeysAfter(m.start, log))
    ensures AlwaysUpToDate(m) <==>
              Followed(m.prefix, KeysAfter(m.start, m.log)) == Followed(m.prefix, KeysAfter(m.start, log))
  {
    hide Source, FlatRun, Followed, KeysAfter, AllUnder, KeyUnder, Frozen, Sent, Good, UpToDate, View, Strip, Enabled;
    hide Take, Mirror.Good, Mirror.KeysAt, Mirror.Sound;
    var past, now := KeysAfter(m.start, log), KeysAfter(m.start, m.log);
    SourceKeys(m.prefix, m.frozen, m.start, m.log);
    ViewUnder(m.prefix, m.frozen, past);
    ViewsDiffer(m.prefix, past, now, past);
    if AlwaysUpToDate(m) {
      assert EnabledAll(m, []) && TakeAll(m, []) == m && Answered(m, []);
      UpToDateNow(m);
      StripInjective(m.prefix, View(m.prefix, m.frozen, now), View(m.prefix, m.frozen, past));
    }
    if Followed(m.prefix, now) == Followed(m.prefix, past) {
      SentSound(m.prefix, m.frozen, m.start, m.log);
      assert m.log[..|m.log|] == m.log;
      Mirror.LevelGood(SyncOf(m));
      RestartGood(m);
      forall ss | EnabledAll(m, ss) && Answered(m, ss)
        ensures UpToDate(TakeAll(m, ss))
      {
        AllGood(m, ss);
        GoodUpToDate(TakeAll(m, ss));
      }
    }
  }

  lemma UpToDateNow(m: Loop)
    requires UpToDate(m) && m.pos == |m.log|
    ensures AllUnder(m.prefix, m.frozen) && AllUnder(m.prefix, KeysAfter(m.start, m.log))
    ensures FlatRun(m.ops) == Goal(m.prefix, m.frozen, KeysAfter(m.start, m.log))
  {
    hide Goal, KeysAfter, AllUnder, FlatRun;
  }

  lemma RestartGood(m: Loop)
    requires SourceOf(m) && m.rev == 0 && Mirror.Good(SyncOf(m))
    ensures Good(m)
  {
  }

  /** A change that is lost that way: nothing is left to receive, and the store is empty. */
  lemma BrokenBeforeFirstResponse()
    ensures var m, ss := Init("/p", map[], [], map[]), [Commit(Entry(1, true, "/p/a", "1")), Reconnect];
            && Snapshot("/p", map[], [], map[]) && EnabledAll(m, ss)
            && var u := TakeAll(m, ss);
               u.pos == |u.log| && KeysAfter(u.start, u.log) == map["/p/a" := "1"] && FlatRun(u.ops) == map[]
  {
    hide KeyUnder, FlatRun, Source, Snapshot, KeysAfter, Frozen, Separate, Cleaned;
    var e := Entry(1, true, "/p/a", "1");
    OneEntry(e);
    SnapshotSeparate("/p", map[], [], map[]);
    NothingCopied();
    var m := Init("/p", map[], [], map[]);
    assert m.log + [e] == [e];
    TwoSteps(m, Commit(e), Reconnect);
  }

  /** At the root a rule that is deleted in etcd after the snapshot stays in the store. */
  lemma DeletedRuleStays()
    ensures var rule: string, p: Path := "/_metad/rule/h", ["_metad", "rule", "h"];
            && Snapshot("/", map[rule := "1"], [], map[rule := "1"])
            && var m := Init("/", map[rule := "1"], [], map[rule := "1"]);
               var ss := [Commit(Entry(1, false, rule, "")), Receive(1, 1)];
            && EnabledAll(m, ss)
            && var u := TakeAll(m, ss);
               u.pos == |u.log| && KeysAfter(u.start, u.log) == map[] && FlatRun(u.ops) == map[p := "1"]
  {
    hide KeyUnder, FlatRun, Source, Snapshot, KeysAfter, Separate, Cleaned, Skipped;
    var rule: string, p: Path := "/_metad/rule/h", ["_metad", "rule", "h"];
    var e, one := Entry(1, false, rule, ""), map[rule := "1"];
    RuleKey(rule, p);
    OneFrozen(rule, e);
    OneRule(rule, p);
    SnapshotSeparate("/", one, [], one);
    OneSkipped(Init("/", one, [], one), e);
  }

  lemma OneSkipped(m: Loop, e: Entry)
    requires m.log == [] && m.pos == m.high == m.rev == 0 && e.rev == 1
    requires Source(m.prefix, m.frozen, m.start, [e]) && Skipped(m.prefix, e.key)
    ensures var ss := [Commit(e), Receive(1, 1)];
            EnabledAll(m, ss) && TakeAll(m, ss) == m.(log := [e], pos := 1, rev := 1, high := 1)
  {
    hide Source, Skipped;
    assert m.log + [e] == [e];
    var n := m.(log := [e]);
    assert n.log[0..1] == [e] && [e][..0] == [] && n.ops + ([] + []) == n.ops;
    OpsForOne(m.prefix, [], e);
    NoOps(m.prefix);
    assert Further(n, 1) == n.(pos := 1, high := 1);
    TwoSteps(m, Commit(e), Receive(1, 1));
  }

  lemma RuleKey(rule: string, p: Path)
    requires rule == "/_metad/rule/h" && p == ["_metad", "rule", "h"]
    ensures KeyUnder("/", rule) && Inner("/", rule) == p && PathOf(rule) == p && PathOf("/") == []
    ensures Skipped("/", rule) && !Uncopied("/", rule) && !IsBlank(rule)
  {
    hide PathOf, Text;
    RuleText(rule, p);
    PathOfText(p);
    PathOfText([]);
    assert Text([]) == "/" by { RootText(); }
    assert rule[0] == '/' && '/' in rule && rule[8] == 'r' && MAPPING[8] == 'm';
    assert rule[..|RULES|] == RULES;
  }

  lemma RootText()
    ensures Text([]) == "/"
  {
  }

  lemma RuleText(rule: string, p: Path)
    requires rule == "/_metad/rule/h" && p == ["_metad", "rule", "h"]
    ensures Text(p) == rule && Proper(p)
  {
    var a, b: Path := ["_metad"], ["_metad", "rule"];
    assert Parent(a) == [] && Parent(b) == a && Parent(p) == b;
    assert Key(a) == Key([]) + "/" + "_metad" && Key(b) == Key(a) + "/" + "rule" && Key(p) == Key(b) + "/" + "h";
  }

  lemma OneFrozen(rule: string, e: Entry)
    requires KeyUnder("/", rule) && Skipped("/", rule) && !Uncopied("/", rule) && !e.put && e.key == rule
    ensures var one := map[rule := "1"];
            && KeysAfter(one, []) == Frozen("/", one) == one && KeysAfter(one, [e]) == map[]
            && Source("/", one, one, []) && Source("/", one, one, [e])
  {
    hide KeyUnder, PathOf, Skipped, Uncopied;
    var one := map[rule := "1"];
    assert Frozen("/", one) == one;
    assert [e][..0] == [] && [e][..1] == [e];
    assert KeysAfter(one, [e]) == map[];
    assert forall i :: 0 <= i <= 1 ==> View("/", one, KeysAfter(one, [e][..i])) == one;
    assert View("/", one, KeysAfter(one, [])) == one;
  }

  lemma OneRule(rule: string, p: Path)
    requires KeyUnder("/", rule) && Inner("/", rule) == p == PathOf(rule) && !Uncopied("/", rule) && p != []
    requires Source("/", map[rule := "1"], map[rule := "1"], []) && !IsBlank(rule)
    requires Frozen("/", map[rule := "1"]) == map[rule := "1"] == KeysAfter(map[rule := "1"], [])
    ensures var one := map[rule := "1"];
            Snapshot("/", one, [], one) && FlatRun([PutBulk([], Cleaned(one))]) == map[p := "1"]
  {
    hide PathOf, Uncopied, Source, KeyUnder, Inner, IsBlank, Strip, Cleaned, KeysAfter, FlatRun, Frozen;
    var one, m := map[rule := "1"], map[p := "1"];
    assert Separate(one) && Copied("/", one) == one && AllUnder("/", one);
    OneCleaned(rule, "1", p);
    OneStripped("/", rule, "1", p);
    OneFlat(p, "1");
    SnapshotStored(m);
  }

  lemma OneCleaned(k: string, x: string, p: Path)
    requires Separate(map[k := x]) && PathOf(k) == p
    ensures Cleaned(map[k := x]) == map[p := x]
  {
    hide PathOf, Separate, Cleaned;
    var one := map[k := x];
    assert k in one;
    assert forall q :: q in Cleaned(one) ==> q == p;
  }

  lemma OneStripped(prefix: string, k: string, x: string, p: Path)
    requires AllUnder(prefix, map[k := x]) && KeyUnder(prefix, k) && Inner(prefix, k) == p
    ensures Strip(prefix, map[k := x]) == map[p := x]
  {
    hide PathOf, KeyUnder, Inner, Strip;
    var one := map[k := x];
    assert k in one;
    assert forall q :: q in Strip(prefix, one) ==> q == p;
  }

  lemma OneFlat(p: Path, x: string)
    requires p != []
    ensures Flat(map[p := x])
  {
  }

  lemma TwoSteps(m: Loop, x: Step, y: Step)
    requires Enabled(m, x) && Enabled(Take(m, x), y)
    ensures EnabledAll(m, [x, y]) && TakeAll(m, [x, y]) == Take(Take(m, x), y)
  {
    hide Enabled, Take;
    assert [x, y][1..] == [y] && [y][1..] == [];
    var u := Take(m, x);
    assert EnabledAll(Take(u, y), []) && TakeAll(Take(u, y), []) == Take(u, y);
    assert EnabledAll(u, [y]) && TakeAll(u, [y]) == Take(u, y);
  }

  lemma NothingCopied()
    ensures Separate(map[]) && FlatRun([PutBulk([], Cleaned(map[]))]) == map[]
  {
    assert Cleaned(map[]) == map[];
    SnapshotStored(map[]);
  }

  lemma OneEntry(e: Entry)
    requires e == Entry(1, true, "/p/a", "1")
    ensures Snapshot("/p", map[], [], map[]) && Frozen("/p", KeysAfter(map[], [])) == map[]
    ensures Source("/p", map[], map[], [e]) && KeysAfter(map[], [e]) == map["/p/a" := "1"]
  {
    hide KeyUnder, PathOf, BelowKey, View, KeysAfter, Strip, Cleaned, Source;
    UnderP();
    NoChange(map[]);
    OneChange(map[], [e]);
    assert [e][..0] == [] && [e][..1] == [e];
    NothingYet();
    OneSource("/p", e);
  }

  lemma NothingYet()
    ensures Source("/p", map[], map[], []) && Cleaned(map[]) == map[] == Strip("/p", map[])
  {
    assert View("/p", map[], map[]) == map[];
    assert Cleaned(map[]) == map[];
    assert Strip("/p", map[]) == map[];
  }

  lemma OneSource(prefix: string, e: Entry)
    requires e.put && KeyUnder(prefix, e.key) && !Skipped(prefix, e.key) && e.value != ""
    ensures Source(prefix, map[], map[], [e])
  {
    hide KeyUnder, PathOf, BelowKey;
    assert [e][..0] == [] && [e][..1] == [e];
    assert KeysAfter(map[], [e]) == map[e.key := e.value];
  }

  lemma UnderP()
    ensures KeyUnder("/p", "/p/a")
  {
    hide PathOf;
    var p, a: Path := ["p"], ["p", "a"];
    assert Key(p) == Key([]) + "/" + "p" && Parent(p) == [];
    assert Key(a) == Key(p) + "/" + "a" && Parent(a) == p;
    assert Text(p) == "/p" && Text(a) == "/p/a";
    PathOfText(p);
    PathOfText(a);
  }
}
