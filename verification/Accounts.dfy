/** Which events an operation of a store adds to the log: one for each path at which the visible leaves
    change, and with which value. */
module Accounts {
  import opened Paths
  import opened Events
  import opened Trees
  import opened Values
  import opened Invariants
  import Machine

  // ---- One event for each change -------------------------------------------------------------------

  ghost predicate Differs(t: Tree, u: Tree, k: Path) {
    Find(Visible(t), k) != Find(Visible(u), k)
  }

  /** An UPDATE carries the new value. A DELETE carries what the node holds afterwards, hidden or
      cleared, or what it held if it is gone. */
  ghost predicate Told(t: Tree, u: Tree, e: Event) {
    match e.action
    case Update => Find(Visible(u), e.path) == Some(e.value)
    case Delete =>
      && e.path in t && !t[e.path].dir && (e.path in u ==> u[e.path].dir)
      && e.value == if e.path in u then u[e.path].value else t[e.path].value
  }

  /** The events tell each change from `t` to `u` once, and nothing else. */
  ghost predicate Account(t: Tree, u: Tree, es: seq<Event>) {
    && (forall i, j :: 0 <= i < j < |es| ==> es[i].path != es[j].path)
    && (forall k :: Differs(t, u, k) <==> exists i :: 0 <= i < |es| && es[i].path == k)
    && (forall i :: 0 <= i < |es| ==> Told(t, u, es[i]))
  }

  /** Events at the same path do the same. */
  ghost predicate Uniform(es: seq<Event>) {
    forall i, j :: 0 <= i < j < |es| && es[i].path == es[j].path ==>
      es[i].action == es[j].action && (es[i].action == Update ==> es[i].value == es[j].value)
  }

  ghost predicate At(es: seq<Event>, k: Path) {
    exists i :: 0 <= i < |es| && es[i].path == k
  }

  /** Each event is the only one at its path, and makes the difference there, and nowhere else is one. */
  ghost predicate Once(v: map<Path, string>, u: map<Path, string>, es: seq<Event>) {
    && (forall i, j :: 0 <= i < j < |es| ==> es[i].path != es[j].path)
    && (forall k :: At(es, k) <==> Find(v, k) != Find(u, k))
    && (forall i :: 0 <= i < |es| ==>
          Find(u, es[i].path) == if es[i].action == Update then Some(es[i].value) else None)
  }

  /** Where genuine changes are uniform there is one at each path, and it makes the difference. */
  lemma {:induction false} OnceEach(v: map<Path, string>, es: seq<Event>)
    requires Play(v, es).Some? && Uniform(es)
    ensures Once(v, Play(v, es).value, es)
    decreases |es|
  {
    hide Uniform, Once, Edit;
    if es == [] {
      NoneOnce(v);
    } else {
      var before, e := es[..|es| - 1], es[|es| - 1];
      UniformBefore(es);
      OnceEach(v, before);
      OnceMore(v, Play(v, before).value, es);
    }
  }

  lemma NoneOnce(v: map<Path, string>)
    ensures Once(v, v, [])
  {
  }

  lemma UniformBefore(es: seq<Event>)
    requires Uniform(es) && es != []
    ensures Uniform(es[..|es| - 1])
  {
  }

  lemma OnceMore(v: map<Path, string>, u: map<Path, string>, es: seq<Event>)
    requires es != [] && Uniform(es) && Once(v, u, es[..|es| - 1]) && Edit(u, es[|es| - 1]).Some?
    ensures Once(v, Edit(u, es[|es| - 1]).value, es)
  {
    hide Edit, Find;
    var before, e := es[..|es| - 1], es[|es| - 1];
    EditAt(u, e);
    forall i | 0 <= i < |before|
      ensures es[i] == before[i] && es[i].path != e.path
    {
    }
    forall k
      ensures At(es, k) <==> At(before, k) || k == e.path
    {
      if i :| 0 <= i < |es| && es[i].path == k && i < |before| { assert before[i].path == k; }
      if i :| 0 <= i < |before| && before[i].path == k { assert es[i].path == k; }
      assert es[|es| - 1] == e;
    }
  }

  lemma EditAt(u: map<Path, string>, e: Event)
    requires Edit(u, e).Some?
    ensures var w := Edit(u, e).value;
            && (forall k :: k != e.path ==> Find(w, k) == Find(u, k))
            && Find(w, e.path) == (if e.action == Update then Some(e.value) else None)
            && Find(w, e.path) != Find(u, e.path)
  {
  }

  lemma AccountOf(t: Tree, u: Tree, es: seq<Event>)
    requires Play(Visible(t), es) == Some(Visible(u)) && Uniform(es)
    requires forall i :: 0 <= i < |es| && es[i].action == Action.Delete ==> Told(t, u, es[i])
    ensures Account(t, u, es)
  {
    hide Visible, Play;
    OnceEach(Visible(t), es);
    forall k
      ensures Differs(t, u, k) <==> exists i :: 0 <= i < |es| && es[i].path == k
    {
      assert At(es, k) <==> Find(Visible(t), k) != Find(Visible(u), k);
    }
  }

  /** What was played on top of a log that led to `t`. */
  lemma PlayedOn(t: Tree, a: seq<Event>, b: seq<Event>)
    requires Play(map[], a) == Some(Visible(t)) && a <= b
    ensures Play(Visible(t), b[|a|..]) == Play(map[], b)
  {
    hide Play;
    PlayConcat(map[], a, b[|a|..]);
    assert a + b[|a|..] == b;
  }

  // ---- Cleaning and removing ----------------------------------------------------------------------

  /** A hidden value comes back. */
  ghost predicate Rises(t: Tree, e: Event) {
    e.action == Update && e.path in t && t[e.path].dir && t[e.path].value != "" && e.value == t[e.path].value
  }

  /** A leaf at or below `p` goes, with its value if nobody watches it; or a hidden value above comes
      back. */
  ghost predicate Falls(t: Tree, p: Path, e: Event) {
    match e.action
    case Delete =>
      && p <= e.path && e.path in t && !t[e.path].dir
      && e.value == if t[e.path].watched then "" else t[e.path].value
    case Update => Rises(t, e) && e.path < p
  }

  /** The events from `a` to `b` are such as cleaning reports that starts at `p` in `t`. */
  ghost predicate Cleans(t: Tree, p: Path, a: seq<Event>, b: seq<Event>) {
    a <= b && forall i :: |a| <= i < |b| ==> Rises(t, b[i]) && b[i].path <= p
  }

  /** The events from `a` to `b` are such as removing `p` from `t` reports. */
  ghost predicate Removes(t: Tree, p: Path, a: seq<Event>, b: seq<Event>) {
    a <= b && forall i :: |a| <= i < |b| ==> Falls(t, p, b[i])
  }

  lemma NoEvents(t: Tree, p: Path, a: seq<Event>)
    ensures Cleans(t, p, a, a) && Removes(t, p, a, a)
  {
  }

  lemma RemovesMore(t: Tree, p: Path, a: seq<Event>, b: seq<Event>, c: seq<Event>)
    requires Removes(t, p, a, b) && Removes(t, p, b, c)
    ensures Removes(t, p, a, c)
  {
    hide Falls;
    assert forall i :: |a| <= i < |b| ==> c[i] == b[i];
  }

  lemma Prefixed(t: Tree, p: Path, a: seq<Event>, b: seq<Event>)
    ensures Cleans(t, p, a, b) || Removes(t, p, a, b) ==> a <= b
  {
  }

  /** A directory without children turns back into a leaf. */
  lemma CleansBack(t: Tree, p: Path, a: seq<Event>)
    requires p in t && t[p].dir && t[p].value != ""
    ensures Cleans(t, p, a, a + [Event(Update, p, t[p].value)])
  {
  }

  /** Removing a directory without children reports what cleaning does. */
  lemma CleansBare(t: Tree, p: Path, a: seq<Event>, b: seq<Event>)
    requires p in t && t[p].dir && !HasBelow(t, p) && Removes(t, p, a, b)
    ensures Cleans(t, p, a, b)
  {
    forall i | |a| <= i < |b|
      ensures Rises(t, b[i]) && b[i].path <= p
    {
      if b[i].action == Delete && b[i].path != p { Strict(p, b[i].path); }
    }
  }

  /** Cleaning that starts above a node taken out. */
  lemma CleansAbove(t: Tree, p: Path, a: seq<Event>, b: seq<Event>)
    requires p != [] && Cleans(t - {p}, Parent(p), a, b)
    ensures Cleans(t, Parent(p), a, b)
  {
  }

  lemma RemovesBuried(t: Tree, p: Path, a: seq<Event>)
    requires p in t && !t[p].dir && t[p].watched
    ensures Removes(t, p, a, a + [Event(Action.Delete, p, "")])
  {
  }

  lemma RemovesUnlinked(t: Tree, p: Path, a: seq<Event>, c: seq<Event>)
    requires p in t && p != [] && !t[p].dir && !t[p].watched
    requires Cleans(t - {p}, Parent(p), a + [Event(Action.Delete, p, t[p].value)], c)
    ensures Removes(t, p, a, c)
  {
    assert Parent(p) < p;
    assert c[|a|] == Event(Action.Delete, p, t[p].value);
    forall i | |a| < i < |c|
      ensures Falls(t, p, c[i])
    {
      Strict(c[i].path, p);
    }
  }

  /** A child's removal, seen from the node whose children are removed. */
  lemma RemovesKid(t: Tree, p: Path, seen: set<string>, c: string, a: seq<Event>, b: seq<Event>)
    requires p in t && t[p].value == "" && c !in seen
    requires Removes(EmptyKids(t, p, seen), p + [c], a, b)
    ensures Removes(t, p, a, b)
  {
    var u := EmptyKids(t, p, seen);
    forall i | |a| <= i < |b|
      ensures Falls(t, p, b[i])
    {
      var k := b[i].path;
      if b[i].action == Delete {
        assert k[|p|] == c;
      } else {
        PrefixOfChild(k, p, c);
        EmptyKidsTop(t, p, seen);
        if k != p { Strict(k, p); }
      }
    }
  }

  /** That the node's own value goes first makes no difference. */
  lemma RemovesCleared(t: Tree, p: Path, a: seq<Event>, b: seq<Event>)
    requires p in t && t[p].dir && Removes(t[p := t[p].(value := "")], p, a, b)
    ensures Removes(t, p, a, b)
  {
  }

  /** After its children the node itself goes. */
  lemma RemovesLast(t: Tree, p: Path, kids: set<string>, a: seq<Event>, b: seq<Event>, c: seq<Event>)
    requires p in t && p != [] && Removes(t, p, a, b)
    requires Cleans(EmptyKids(t[p := t[p].(value := "")], p, kids), Parent(p), b, c)
    ensures Removes(t, p, a, c)
  {
    assert Parent(p) < p;
    forall i | |a| <= i < |c|
      ensures Falls(t, p, c[i])
    {
      if i < |b| {
        assert c[i] == b[i];
      } else {
        Strict(c[i].path, p);
      }
    }
  }

  // ---- What removing and cleaning report ------------------------------------------------------------

  lemma RemovalAccount(t: Tree, p: Path, a: seq<Event>, b: seq<Event>)
    requires Rooted(t) && p in t && Removes(t, p, a, b)
    requires Play(map[], a) == Some(Visible(t)) && Play(map[], b) == Some(Visible(Remove(t, p)))
    ensures Account(t, Remove(t, p), b[|a|..])
  {
    hide Visible, Play, Remove;
    var es, u := b[|a|..], Remove(t, p);
    PlayedOn(t, a, b);
    var s := RemoveResult(t, p);
    forall i | 0 <= i < |es| && es[i].action == Action.Delete
      ensures Told(t, u, es[i])
    {
      LeafRemoved(t, p, es[i].path);
    }
    AccountOf(t, u, es);
  }

  /** A leaf that is removed stays behind exactly if it is watched, with nothing in it. */
  lemma LeafRemoved(t: Tree, p: Path, k: Path)
    requires Rooted(t) && p in t && p <= k && k in t && !t[k].dir
    ensures k in Remove(t, p) <==> t[k].watched
    ensures k in Remove(t, p) ==> Remove(t, p)[k] == Cell(true, "", true)
  {
    hide Remove;
    var s := RemoveResult(t, p);
    forall w | w in t && k <= w
      ensures w == k
    {
      if w != k { Strict(k, w); }
    }
    assert k <= k;
  }

  lemma CleaningAccount(t: Tree, p: Path, a: seq<Event>, b: seq<Event>)
    requires Cleans(t, p, a, b)
    requires Play(map[], a) == Some(Visible(t)) && Play(map[], b) == Some(Visible(Clean(t, p)))
    ensures Account(t, Clean(t, p), b[|a|..])
  {
    hide Visible, Play, Clean;
    PlayedOn(t, a, b);
    AccountOf(t, Clean(t, p), b[|a|..]);
  }

  // ---- Writing and watching -------------------------------------------------------------------------

  /** The DELETE of the leaf on the way to `p`, if there is one, which becomes a directory. */
  ghost function Opening(t: Tree, p: Path): seq<Event>
    decreases |p|
  {
    if p == [] then []
    else
      var d := Parent(p);
      Opening(t, d) + if d in t && !t[d].dir then [Event(Action.Delete, d, t[d].value)] else []
  }

  /** What writing `v` at `p` reports. */
  ghost function Writing(t: Tree, p: Path, v: string): seq<Event> {
    if p == [] then []
    else if p in t && (if t[p].dir then HasBelow(t, p) else t[p].value == v) then Opening(t, p)
    else Opening(t, p) + [Event(Update, p, v)]
  }

  lemma {:induction false} OpeningEvents(t: Tree, p: Path)
    ensures forall i :: 0 <= i < |Opening(t, p)| ==>
              var e := Opening(t, p)[i];
              && e.action == Action.Delete && e.path < p && e.path in t && !t[e.path].dir
              && e.value == t[e.path].value
    decreases |p|
  {
    if p != [] {
      var d := Parent(p);
      OpeningEvents(t, d);
      assert d < p;
    }
  }

  lemma WatchAccount(t: Tree, p: Path, a: seq<Event>)
    requires Rooted(t) && Play(map[], a) == Some(Visible(t))
    requires Play(map[], a + Opening(t, p)) == Some(Visible(WatchAt(t, p)))
    ensures Account(t, WatchAt(t, p), (a + Opening(t, p))[|a|..])
  {
    hide Visible, Play, Opening;
    var es := Opening(t, p);
    OpeningEvents(t, p);
    PlayedOn(t, a, a + es);
    assert (a + es)[|a|..] == es;
    AccountOf(t, WatchAt(t, p), es);
  }

  lemma WriteAccount(t: Tree, p: Path, v: string, a: seq<Event>)
    requires Rooted(t) && Play(map[], a) == Some(Visible(t))
    requires Play(map[], a + Writing(t, p, v)) == Some(Visible(PutAt(t, p, v)))
    ensures Account(t, PutAt(t, p, v), (a + Writing(t, p, v))[|a|..])
  {
    hide Visible, Play, Opening, PutAt, HasBelow;
    var es := Writing(t, p, v);
    OpeningEvents(t, p);
    PlayedOn(t, a, a + es);
    assert (a + es)[|a|..] == es;
    forall i | 0 <= i < |es| && es[i].action == Action.Delete
      ensures Told(t, PutAt(t, p, v), es[i])
    {
      LeafOpened(t, p, v, es[i].path);
    }
    AccountOf(t, PutAt(t, p, v), es);
  }

  lemma LeafOpened(t: Tree, p: Path, v: string, k: Path)
    requires Rooted(t) && k in t && !t[k].dir && k < p
    ensures var u := PutAt(t, p, v); k in u && u[k].dir && u[k].value == t[k].value
  {
    hide HasBelow;
    assert p in map[p := v];
  }

  // ---- Writing and watching, step by step -------------------------------------------------------------

  /** The DELETE of a leaf at `d` that gets a child at `q`, unless that is there already. */
  ghost function Stepping(t: Tree, d: Path, q: Path): seq<Event>
    requires d in t
  {
    if q in t || t[d].dir then [] else [Event(Action.Delete, d, t[d].value)]
  }

  /** What the last step of writing reports: a child `q` of `d` is written, or added. */
  ghost function Ending(t: Tree, d: Path, q: Path, v: string): seq<Event>
    requires d in t
  {
    if q in t && (if t[q].dir then HasBelow(t, q) else t[q].value == v) then []
    else Stepping(t, d, q) + [Event(Update, q, v)]
  }

  lemma OpeningNone(t: Tree)
    ensures Opening(t, []) == []
  {
  }

  lemma OpeningStep(t: Tree, p: Path, c: string)
    requires Rooted(t)
    ensures p in Reach(t, p)
    ensures Opening(t, p + [c]) == Opening(t, p) + Stepping(Reach(t, p), p, p + [c])
  {
    ReachStep(t, p, c);
    assert Parent(p + [c]) == p && p < p + [c];
  }

  lemma WritingSteps(t: Tree, p: Path, v: string)
    requires Rooted(t) && p != []
    ensures Parent(p) in Reach(t, Parent(p))
    ensures Writing(t, p, v) == Opening(t, Parent(p)) + Ending(Reach(t, Parent(p)), Parent(p), p, v)
  {
    hide HasBelow, Reach;
    var d := Parent(p);
    assert p == d + [Last(p)] && d < p;
    OpeningStep(t, d, Last(p));
    ReachStep(t, d, Last(p));
    if p in t {
      ReachOld(t, d);
    }
    var o, e := Opening(t, d), Stepping(Reach(t, d), d, p);
    assert o + (e + [Event(Update, p, v)]) == o + e + [Event(Update, p, v)];
  }

  lemma WritingNone(t: Tree, v: string)
    ensures Writing(t, [], v) == []
  {
  }

  /** When writing a node changes what is visible there. */
  lemma WriteDiffers(t: Tree, p: Path, v: string)
    requires p in t
    ensures var u := t[p := Cell(t[p].dir && HasBelow(t, p), v, t[p].watched)];
            Find(Visible(u), p) != Find(Visible(t), p) <==> !(if t[p].dir then HasBelow(t, p) else t[p].value == v)
  {
  }

  /** What a bulk write of string keys reports that puts them in this order. */
  ghost function WritingAll(s: Machine.State, p: Path, values: map<string, string>, order: seq<string>): seq<Event>
    requires forall k :: k in order ==> k in values
  {
    if order == [] then []
    else
      var before, k := order[..|order| - 1], order[|order| - 1];
      WritingAll(s, p, values, before)
        + Writing(Machine.Run(s, Machine.Puts(p, values, before)).tree, Machine.Target(p, k), values[k])
  }

  lemma WritingOne(s: Machine.State, p: Path, values: map<string, string>, order: seq<string>, k: string)
    requires k in values && forall j :: j in order ==> j in values
    ensures WritingAll(s, p, values, order + [k]) ==
              WritingAll(s, p, values, order)
                + Writing(Machine.Run(s, Machine.Puts(p, values, order)).tree, Machine.Target(p, k), values[k])
  {
    hide Writing;
    assert (order + [k])[..|order|] == order;
  }

  lemma WritingNothing(s: Machine.State, p: Path, values: map<string, string>, a: seq<Event>)
    ensures a + WritingAll(s, p, values, []) == a
  {
  }

  lemma NoChange(t: Tree, a: seq<Event>)
    ensures Account(t, t, a[|a|..])
  {
  }
}
