/** metadata/metarepo.go: what a client is answered. Rules restrict what it can read of the data;
    a mapping, itself kept in a store, gives it its own names for places in the data. */
module Metadata {
  import opened Paths
  import opened Strings
  import opened Trees
  import opened Values
  import opened Stores
  import opened Access
  import opened Grants
  import opened Travellers
  import Flatmap
  import Helpers
  import Machine
  import Rules

  /** The place in the data that a path through a mapping leads to: through nested mappings to a
      link, and then on inside the linked data. */
  ghost function Resolve(mapping: Val, p: Path): Option<Path>
    decreases |p|
  {
    match mapping
    case Leaf(link) => Some(PathOf(link) + p)
    case Dir(entries) => if p == [] || p[0] !in entries then None else Resolve(entries[p[0]], p[1..])
  }

  /** What the rules let a client find through a mapping. */
  ghost function SelfFind(t: Rules.RuleTree, m: map<Path, string>, mapping: Val, p: Path): Option<string>
    requires [] in t
  {
    match Resolve(mapping, p)
    case None => None
    case Some(d) => Find(Shown(t, [], m), d)
  }

  /** An answer, read by path. */
  ghost function Answer(v: Option<Val>, q: Path): Option<string> {
    if v.Some? then Lookup(v.value, q) else None
  }

  /** There is an answer, be it an empty one. */
  ghost predicate Answered(t: Rules.RuleTree, tree: Tree, mapping: Val, p: Path)
    requires [] in t
    decreases |p|
  {
    match mapping
    case Leaf(link) => PathOf(link) + p in tree && Open(t, [], PathOf(link) + p)
    case Dir(entries) => p == [] || (p[0] in entries && Answered(t, tree, entries[p[0]], p[1..]))
  }

  /** The answer for a nested mapping lists the names there is an answer for. */
  ghost predicate Lists(t: Rules.RuleTree, tree: Tree, mapping: Val, p: Path, val: Option<Val>)
    requires [] in t
    decreases |p|
  {
    match mapping
    case Leaf(_) => true
    case Dir(entries) =>
      if p == [] then
        && val.Some? && val.value.Dir?
        && forall c :: c in val.value.entries <==> c in entries && Answered(t, tree, entries[c], [])
      else p[0] in entries ==> Lists(t, tree, entries[p[0]], p[1..], val)
  }

  ghost predicate AtRoot(traveller: Traveller)
    reads traveller, traveller.store, traveller.store.known, traveller.store.live
    reads traveller.access, traveller.access.nodes.Values
  {
    traveller.Valid() && traveller.currNode.path == []
  }

  /** `getMappingData`: the value of one link, or of a path below it. */
  method GetMappingData(nodePath: Path, link: string, traveller: Traveller) returns (val: Option<Val>)
    requires AtRoot(traveller)
    modifies traveller
    ensures AtRoot(traveller)
    ensures val.Some? <==>
              var target := PathOf(link) + nodePath;
              target in traveller.store.tree && Open(traveller.access.tree, [], target)
    ensures forall q :: Answer(val, q) ==
              SelfFind(traveller.access.tree, Visible(traveller.store.tree), Leaf(link), nodePath + q)
  {
    hide Traveller.Valid, Open, Shown, Visible, Find, Lookup, Pruned, PathOf, Rooted;
    ghost var t, tree := traveller.access.tree, traveller.store.tree;
    var target := PathOf(link) + nodePath;
    traveller.Sound();
    assert [] + target == target;
    val := None;
    var entered := traveller.Enter(target);
    if entered {
      var v := traveller.GetValue();
      traveller.BackToRoot();
      val := Some(v);
    }
    forall q
      ensures Answer(val, q) == SelfFind(t, Visible(tree), Leaf(link), nodePath + q)
    {
      assert PathOf(link) + (nodePath + q) == target + q;
      assert SelfFind(t, Visible(tree), Leaf(link), nodePath + q) == Find(Shown(t, [], Visible(tree)), target + q);
      if entered {
        ShownFrom(t, target, Visible(tree), q);
      } else {
        ShownNowhere(t, target, tree, q);
      }
    }
  }

  /** `getMappingDatas`: the value of a mapping, or of a path through it. */
  method GetMappingDatas(nodePath: Path, mapping: Val, traveller: Traveller) returns (val: Option<Val>)
    requires AtRoot(traveller) && mapping.Dir?
    modifies traveller
    ensures AtRoot(traveller)
    ensures val.Some? <==> Answered(traveller.access.tree, traveller.store.tree, mapping, nodePath)
    ensures Lists(traveller.access.tree, traveller.store.tree, mapping, nodePath, val)
    ensures forall q :: Answer(val, q) ==
              SelfFind(traveller.access.tree, Visible(traveller.store.tree), mapping, nodePath + q)
    decreases mapping
  {
    hide Traveller.Valid, SelfFind, Answered, Lists, Lookup, Pruned, Visible, Open, PathOf;
    ghost var t, tree := traveller.access.tree, traveller.store.tree;
    traveller.Sound();
    if nodePath == [] {
      var meta: map<string, Val> := map[];
      var names := mapping.entries.Keys;
      while names != {}
        invariant AtRoot(traveller)
        invariant names <= mapping.entries.Keys && meta.Keys <= mapping.entries.Keys - names
        invariant forall k :: k in mapping.entries && k !in names ==>
                    EntryFound(t, Visible(tree), meta, k, mapping.entries[k])
          invariant forall k :: k in mapping.entries && k !in names ==>
                    (k in meta <==> Answered(t, tree, mapping.entries[k], []))
        decreases names
      {
        var k :| k in names;
        names := names - {k};
        ghost var before := meta;
        var v: Option<Val>;
        if mapping.entries[k].Dir? {
          v := GetMappingDatas([], mapping.entries[k], traveller);
        } else {
          v := GetMappingData([], mapping.entries[k].value, traveller);
          LinkAnswered(t, tree, mapping.entries[k].value, []);
        }
        if v.Some? {
          meta := meta[k := v.value];
        }
        forall d | d in mapping.entries && d !in names
          ensures EntryFound(t, Visible(tree), meta, d, mapping.entries[d])
        {
          if d == k {
            NewEntry(t, Visible(tree), before, k, v, mapping.entries[k]);
          } else {
            OldEntry(t, Visible(tree), before, meta, d, mapping.entries[d]);
          }
        }
      }
      val := Some(Dir(meta));
      AllFound(t, Visible(tree), meta, mapping);
      TopAnswered(t, tree, mapping, val);
    } else {
      StepFound(t, tree, mapping, nodePath);
      StepLists(t, tree, mapping, nodePath);
      if nodePath[0] in mapping.entries {
        var elemValue := mapping.entries[nodePath[0]];
        if elemValue.Dir? {
          val := GetMappingDatas(nodePath[1..], elemValue, traveller);
        } else {
          val := GetMappingData(nodePath[1..], elemValue.value, traveller);
          LinkAnswered(t, tree, elemValue.value, nodePath[1..]);
        }
      } else {
        val := None;
      }
    }
  }

  /** One entry of the answer to a mapping, against the entry of the mapping. */
  ghost predicate EntryFound(t: Rules.RuleTree, m: map<Path, string>, meta: map<string, Val>, k: string, sub: Val)
    requires [] in t
  {
    forall q :: (if k in meta then Lookup(meta[k], q) else None) == SelfFind(t, m, sub, q)
  }

  lemma NewEntry(t: Rules.RuleTree, m: map<Path, string>, meta: map<string, Val>, k: string, v: Option<Val>, sub: Val)
    requires [] in t && k !in meta && forall q :: Answer(v, q) == SelfFind(t, m, sub, [] + q)
    ensures EntryFound(t, m, if v.Some? then meta[k := v.value] else meta, k, sub)
  {
    hide SelfFind, Lookup;
    var more := if v.Some? then meta[k := v.value] else meta;
    forall q: Path
      ensures (if k in more then Lookup(more[k], q) else None) == SelfFind(t, m, sub, q)
    {
      assert [] + q == q;
      assert Answer(v, q) == SelfFind(t, m, sub, [] + q);
    }
  }

  lemma OldEntry(t: Rules.RuleTree, m: map<Path, string>, meta: map<string, Val>, more: map<string, Val>, k: string,
                 sub: Val)
    requires [] in t && EntryFound(t, m, meta, k, sub)
    requires (k in meta <==> k in more) && (k in meta ==> meta[k] == more[k])
    ensures EntryFound(t, m, more, k, sub)
  {
  }

  lemma AllFound(t: Rules.RuleTree, m: map<Path, string>, meta: map<string, Val>, mapping: Val)
    requires [] in t && mapping.Dir? && meta.Keys <= mapping.entries.Keys
    requires forall k :: k in mapping.entries ==> EntryFound(t, m, meta, k, mapping.entries[k])
    ensures forall q :: Lookup(Dir(meta), q) == SelfFind(t, m, mapping, [] + q)
  {
    hide Shown, Find;
    forall q
      ensures Lookup(Dir(meta), q) == SelfFind(t, m, mapping, [] + q)
    {
      assert [] + q == q;
      if q != [] && q[0] in mapping.entries {
        assert EntryFound(t, m, meta, q[0], mapping.entries[q[0]]);
        assert Resolve(mapping, q) == Resolve(mapping.entries[q[0]], q[1..]);
        assert SelfFind(t, m, mapping, q) == SelfFind(t, m, mapping.entries[q[0]], q[1..]);
      }
    }
  }

  lemma TopAnswered(t: Rules.RuleTree, tree: Tree, mapping: Val, val: Option<Val>)
    requires [] in t && mapping.Dir? && val.Some? && val.value.Dir? && val.value.entries.Keys <= mapping.entries.Keys
    requires forall k :: k in mapping.entries ==>
               (k in val.value.entries <==> Answered(t, tree, mapping.entries[k], []))
    ensures Answered(t, tree, mapping, []) && Lists(t, tree, mapping, [], val)
  {
  }

  lemma AnsweredTop(t: Rules.RuleTree, tree: Tree, mapping: Val)
    requires [] in t && mapping.Dir?
    ensures Answered(t, tree, mapping, [])
  {
  }

  lemma LinkAnswered(t: Rules.RuleTree, tree: Tree, link: string, p: Path)
    requires [] in t
    ensures Answered(t, tree, Leaf(link), p) <==> PathOf(link) + p in tree && Open(t, [], PathOf(link) + p)
    ensures forall val :: Lists(t, tree, Leaf(link), p, val)
  {
  }

  lemma StepLists(t: Rules.RuleTree, tree: Tree, mapping: Val, p: Path)
    requires [] in t && mapping.Dir? && p != []
    ensures forall val :: Lists(t, tree, mapping, p, val) <==>
              (p[0] in mapping.entries ==> Lists(t, tree, mapping.entries[p[0]], p[1..], val))
  {
  }

  lemma StepFound(t: Rules.RuleTree, tree: Tree, mapping: Val, p: Path)
    requires [] in t && mapping.Dir? && p != []
    ensures Answered(t, tree, mapping, p) <==>
              p[0] in mapping.entries && Answered(t, tree, mapping.entries[p[0]], p[1..])
    ensures forall q :: SelfFind(t, Visible(tree), mapping, p + q) ==
              if p[0] in mapping.entries then SelfFind(t, Visible(tree), mapping.entries[p[0]], p[1..] + q) else None
  {
    hide Shown, Find, Visible;
    forall q
      ensures SelfFind(t, Visible(tree), mapping, p + q) ==
              if p[0] in mapping.entries then SelfFind(t, Visible(tree), mapping.entries[p[0]], p[1..] + q) else None
    {
      assert (p + q)[1..] == p[1..] + q;
    }
  }

  // ---- Mappings as keys --------------------------------------------------------------------------

  /** `Resolve` on the keys of the mapping store: walking on from `at`, the first key that is met is
      the link to follow. */
  ghost function Resolved(m: map<Path, string>, at: Path, p: Path): Option<Path>
    decreases |p|
  {
    if at in m then Some(PathOf(m[at]) + p)
    else if p == [] then None
    else Resolved(m, at + [p[0]], p[1..])
  }

  lemma {:induction false} SameResolve(m: map<Path, string>, at: Path, v: Val, p: Path)
    requires forall q :: Lookup(v, q) == Find(m, at + q)
    ensures Resolve(v, p) == Resolved(m, at, p)
    decreases |p|
  {
    hide PathOf;
    var top: Path := [];
    assert at + top == at;
    assert Lookup(v, top) == Find(m, at + top);
    if v.Dir? && p != [] {
      forall q
        ensures (if p[0] in v.entries then Lookup(v.entries[p[0]], q) else None) == Find(m, at + [p[0]] + q)
      {
        assert ([p[0]] + q)[1..] == q && at + ([p[0]] + q) == at + [p[0]] + q;
        assert Lookup(v, [p[0]] + q) == Find(m, at + ([p[0]] + q));
      }
      if p[0] in v.entries {
        SameResolve(m, at + [p[0]], v.entries[p[0]], p[1..]);
      } else {
        NothingResolved(m, at + [p[0]], p[1..]);
      }
    }
  }

  lemma {:induction false} NothingResolved(m: map<Path, string>, at: Path, p: Path)
    requires forall q :: Find(m, at + q) == None
    ensures Resolved(m, at, p) == None
    decreases |p|
  {
    var top: Path := [];
    assert at + top == at;
    assert Find(m, at + top) == None;
    if p != [] {
      forall q
        ensures Find(m, at + [p[0]] + q) == None
      {
        assert at + ([p[0]] + q) == at + [p[0]] + q;
        assert Find(m, at + ([p[0]] + q)) == None;
      }
      NothingResolved(m, at + [p[0]], p[1..]);
    }
  }

  /** The first key on the way from `at` along `p` is met after `i` components. */
  ghost predicate FirstKey(m: map<Path, string>, at: Path, p: Path, i: nat)
    requires i <= |p|
  {
    at + p[..i] in m && forall j :: 0 <= j < i ==> at + p[..j] !in m
  }

  /** That is the link that is followed, and what remains of the path is walked on in the data. */
  lemma {:induction false} ResolvedExactly(m: map<Path, string>, at: Path, p: Path)
    ensures forall i :: 0 <= i <= |p| && FirstKey(m, at, p, i) ==>
              Resolved(m, at, p) == Some(PathOf(m[at + p[..i]]) + p[i..])
    ensures (forall i :: 0 <= i <= |p| ==> at + p[..i] !in m) ==> Resolved(m, at, p) == None
    decreases |p|
  {
    hide PathOf;
    assert at + p[..0] == at && p[0..] == p;
    if at !in m && p != [] {
      ResolvedExactly(m, at + [p[0]], p[1..]);
      forall i | 0 <= i <= |p[1..]|
        ensures at + p[..i + 1] == at + [p[0]] + p[1..][..i] && p[i + 1..] == p[1..][i..]
      {
      }
      forall i | 0 < i <= |p| && FirstKey(m, at, p, i)
        ensures Resolved(m, at, p) == Some(PathOf(m[at + p[..i]]) + p[i..])
      {
        FirstKeyStep(m, at, p, i);
      }
    }
  }

  lemma FirstKeyStep(m: map<Path, string>, at: Path, p: Path, i: nat)
    requires 0 < i <= |p| && FirstKey(m, at, p, i)
    ensures FirstKey(m, at + [p[0]], p[1..], i - 1)
    ensures at + p[..i] == at + [p[0]] + p[1..][..i - 1] && p[i..] == p[1..][i - 1..]
  {
    assert at + p[..i] == at + [p[0]] + p[1..][..i - 1];
    forall j | 0 <= j < i - 1
      ensures at + [p[0]] + p[1..][..j] !in m
    {
      assert at + [p[0]] + p[1..][..j] == at + p[..j + 1];
    }
  }

  // ---- When there is an answer ---------------------------------------------------------------------

  /** A link on the way to `p` leads to a place in the data that may be entered; `t` are the rules, if
      there are any. */
  ghost predicate Leads(t: Option<Rules.RuleTree>, tree: Tree, m: map<Path, string>, at: Path, p: Path, i: nat)
    requires (t.Some? ==> [] in t.value) && i <= |p|
  {
    && at + p[..i] in m
    && var d := PathOf(m[at + p[..i]]) + p[i..];
       d in tree && (t.Some? ==> Open(t.value, [], d))
  }

  /** There is an answer: the mapping goes on below `p`, or a link on the way leads somewhere. */
  ghost predicate HasAnswer(t: Option<Rules.RuleTree>, tree: Tree, m: map<Path, string>, at: Path, p: Path)
    requires t.Some? ==> [] in t.value
  {
    || (exists k :: k in m && at + p < k)
    || (exists i :: 0 <= i <= |p| && Leads(t, tree, m, at, p, i))
  }

  lemma {:induction false} AnsweredByKeys(t: Rules.RuleTree, tree: Tree, m: map<Path, string>, at: Path, v: Val,
                                          p: Path)
    requires [] in t && PrefixFree(m) && Pruned(v) && v != Dir(map[])
    requires forall q :: Lookup(v, q) == Find(m, at + q)
    ensures Answered(t, tree, v, p) <==> HasAnswer(Some(t), tree, m, at, p)
    decreases |p|
  {
    hide PathOf, Open, Pruned, PrefixFree;
    var top: Path := [];
    assert at + top == at && at + p[..0] == at && p[0..] == p;
    assert Lookup(v, top) == Find(m, at + top);
    if v.Leaf? {
      OnlyKey(m, at, p);
      assert Leads(Some(t), tree, m, at, p, 0) <==> Answered(t, tree, v, p);
    } else if p == [] {
      var q := SomethingInside(v);
      assert Lookup(v, q) == Find(m, at + q);
      assert at + p < at + q;
    } else {
      EntryKeys(m, at, v, p[0]);
      HasStep(Some(t), tree, m, at, p);
      if p[0] in v.entries {
        AnsweredByKeys(t, tree, m, at + [p[0]], v.entries[p[0]], p[1..]);
      } else {
        NoKeys(Some(t), tree, m, at + [p[0]], p[1..]);
      }
    }
  }

  lemma OnlyKey(m: map<Path, string>, at: Path, p: Path)
    requires PrefixFree(m) && at in m
    ensures forall k :: k in m ==> !(at + p < k)
    ensures forall i :: 0 < i <= |p| ==> at + p[..i] !in m
  {
    forall k | k in m
      ensures !(at + p < k)
    {
      assert at + p < k ==> at <= k && at != k;
    }
    forall i | 0 < i <= |p|
      ensures at + p[..i] !in m
    {
      assert at <= at + p[..i] && |at + p[..i]| > |at|;
    }
  }

  lemma EntryKeys(m: map<Path, string>, at: Path, v: Val, c: string)
    requires v.Dir? && Pruned(v) && forall q :: Lookup(v, q) == Find(m, at + q)
    ensures c in v.entries ==> Pruned(v.entries[c]) && v.entries[c] != Dir(map[])
    ensures forall q :: (if c in v.entries then Lookup(v.entries[c], q) else None) == Find(m, at + [c] + q)
  {
    forall q
      ensures (if c in v.entries then Lookup(v.entries[c], q) else None) == Find(m, at + [c] + q)
    {
      assert ([c] + q)[1..] == q && at + ([c] + q) == at + [c] + q;
      assert Lookup(v, [c] + q) == Find(m, at + ([c] + q));
    }
  }

  lemma HasStep(t: Option<Rules.RuleTree>, tree: Tree, m: map<Path, string>, at: Path, p: Path)
    requires (t.Some? ==> [] in t.value) && p != [] && at !in m
    ensures HasAnswer(t, tree, m, at, p) <==> HasAnswer(t, tree, m, at + [p[0]], p[1..])
  {
    hide PathOf, Open;
    assert at + p == at + [p[0]] + p[1..] && at + p[..0] == at;
    forall i | 0 < i <= |p|
      ensures Leads(t, tree, m, at, p, i) <==> Leads(t, tree, m, at + [p[0]], p[1..], i - 1)
    {
      assert at + p[..i] == at + [p[0]] + p[1..][..i - 1] && p[i..] == p[1..][i - 1..];
    }
    if i :| 0 <= i <= |p[1..]| && Leads(t, tree, m, at + [p[0]], p[1..], i) {
      assert Leads(t, tree, m, at, p, i + 1);
    }
  }

  lemma NoKeys(t: Option<Rules.RuleTree>, tree: Tree, m: map<Path, string>, at: Path, p: Path)
    requires (t.Some? ==> [] in t.value) && forall q :: Find(m, at + q) == None
    ensures !HasAnswer(t, tree, m, at, p)
  {
    hide PathOf, Open;
    forall k | at + p < k
      ensures k !in m
    {
      assert at + k[|at|..] == k && Find(m, at + k[|at|..]) == None;
    }
    forall i | 0 <= i <= |p|
      ensures at + p[..i] !in m
    {
      assert Find(m, at + p[..i]) == None;
    }
  }

  /** Without rules of its own a client may enter whatever its links lead to. */
  lemma FreeAnswer(t: Rules.RuleTree, tree: Tree, m: map<Path, string>, ip: string, p: Path)
    requires LinkTree(t, m, ip) && [] in t
    ensures HasAnswer(Some(t), tree, m, [ip], p) <==> HasAnswer(None, tree, m, [ip], p)
  {
    hide Open, Rules.Build, PathOf, AllRead;
    var rules :| t == Rules.Build(rules) && LinkRules(rules, m, ip);
    forall i | 0 <= i <= |p| && [ip] + p[..i] in m
      ensures Leads(Some(t), tree, m, [ip], p, i) <==> Leads(None, tree, m, [ip], p, i)
    {
      var link := PathOf(m[[ip] + p[..i]]);
      LinkOpen(rules, Rules.Rule(link, Rules.Read), link + p[i..]);
    }
  }

  /** The names an answer lists, by keys. */
  lemma {:induction false} ListsAnswered(t: Rules.RuleTree, tree: Tree, v: Val, p: Path, q: Path, val: Option<Val>)
    requires [] in t && Lists(t, tree, v, p, val) && q != [] && Lookup(v, p + q).Some?
    ensures val.Some? && val.value.Dir?
    ensures forall c :: c in val.value.entries <==> Answered(t, tree, v, p + [c])
    decreases |p|
  {
    hide Open;
    if p == [] {
      assert p + q == q;
      forall c
        ensures c in val.value.entries <==> Answered(t, tree, v, p + [c])
      {
        assert p + [c] == [c] && [c][1..] == [];
      }
    } else {
      assert (p + q)[1..] == p[1..] + q;
      ListsAnswered(t, tree, v.entries[p[0]], p[1..], q, val);
      forall c
        ensures Answered(t, tree, v, p + [c]) <==> Answered(t, tree, v.entries[p[0]], p[1..] + [c])
      {
        assert (p + [c])[1..] == p[1..] + [c];
      }
    }
  }

  /** What a client finds under its own names: the rules filter what its links lead to. A client
      whose mapping is not a map finds nothing. */
  ghost function SelfFound(t: Rules.RuleTree, data: map<Path, string>, mapping: map<Path, string>, ip: string, p: Path)
    : Option<string>
    requires [] in t
  {
    if [ip] in mapping then None else
      match Resolved(mapping, [ip], p)
      case None => None
      case Some(d) => Find(Shown(t, [], data), d)
  }

  /** The part of an answer below `p`. */
  ghost function Descend(v: Option<Val>, p: Path): Option<Val>
    decreases |p|
  {
    if p == [] || v == None then v
    else if v.value.Leaf? || p[0] !in v.value.entries then None
    else Descend(Some(v.value.entries[p[0]]), p[1..])
  }

  lemma {:induction false} DescendAnswer(v: Option<Val>, p: Path, q: Path)
    ensures Answer(Descend(v, p), q) == Answer(v, p + q)
    decreases |p|
  {
    if p == [] {
      assert p + q == q;
    } else {
      assert (p + q)[1..] == p[1..] + q;
      if v.Some? && v.value.Dir? && p[0] in v.value.entries {
        DescendAnswer(Some(v.value.entries[p[0]]), p[1..], q);
      }
    }
  }

  /** The tree made up for a client without rules: reading is allowed at every link. */
  ghost predicate LinkTree(t: Rules.RuleTree, mapping: map<Path, string>, ip: string) {
    exists rules :: t == Rules.Build(rules) && LinkRules(rules, mapping, ip)
  }

  ghost predicate LinkRules(rules: seq<Rules.Rule>, mapping: map<Path, string>, ip: string) {
    && AllRead(rules)
    && (forall k :: [ip] + k in mapping ==> Rules.Rule(PathOf(mapping[[ip] + k]), Rules.Read) in rules)
    && (forall r :: r in rules ==> exists k :: [ip] + k in mapping && r.path == PathOf(mapping[[ip] + k]))
  }

  /** What a client without rules finds. */
  ghost function LinkFound(data: map<Path, string>, mapping: map<Path, string>, ip: string, p: Path): Option<string> {
    if [ip] in mapping then None else
      match Resolved(mapping, [ip], p)
      case None => None
      case Some(d) => Find(data, d)
  }

  /** Such a client is shown everything its links lead to, whatever the links are. */
  lemma LinksComplete(t: Rules.RuleTree, data: map<Path, string>, mapping: map<Path, string>, ip: string, p: Path)
    requires LinkTree(t, mapping, ip) && [] in t && [ip] !in mapping
    ensures SelfFound(t, data, mapping, ip, p) == LinkFound(data, mapping, ip, p)
  {
    hide Open, Rules.Build, PathOf, AllRead;
    var rules :| t == Rules.Build(rules) && LinkRules(rules, mapping, ip);
    if Resolved(mapping, [ip], p).Some? {
      var d := Resolved(mapping, [ip], p).value;
      var k := LinkMet(mapping, [ip], p);
      LinkOpen(rules, Rules.Rule(PathOf(mapping[[ip] + k]), Rules.Read), d);
    }
  }

  /** The order of the links and repetitions among them make no difference to what is let through. */
  lemma SameLinksOpen(t: Rules.RuleTree, u: Rules.RuleTree, mapping: map<Path, string>, ip: string)
    requires LinkTree(t, mapping, ip) && LinkTree(u, mapping, ip) && [] in t && [] in u
    ensures forall base, p :: Open(t, base, p) <==> Open(u, base, p)
    ensures forall base, m :: Shown(t, base, m) == Shown(u, base, m)
  {
    hide Rules.BuildOnto, Allowed, PathOf, AllRead, Rules.WellFormed;
    var a :| t == Rules.Build(a) && LinkRules(a, mapping, ip);
    var b :| u == Rules.Build(b) && LinkRules(b, mapping, ip);
    forall r | r in a ensures r in b { LinkIn(a, b, mapping, ip, r); }
    forall r | r in b ensures r in a { LinkIn(b, a, mapping, ip, r); }
    SameReads(a, b);
    forall r: Path | r != []
      ensures Allowed(t, r) == Allowed(u, r)
    {
      SameMatch(t, u, r);
    }
  }

  lemma LinkIn(a: seq<Rules.Rule>, b: seq<Rules.Rule>, m: map<Path, string>, ip: string, r: Rules.Rule)
    requires LinkRules(a, m, ip) && LinkRules(b, m, ip) && r in a
    ensures r in b
  {
    hide PathOf;
    var k :| [ip] + k in m && r.path == PathOf(m[[ip] + k]);
    assert r.mode == Rules.Read;
  }

  lemma SameReads(a: seq<Rules.Rule>, b: seq<Rules.Rule>)
    requires AllRead(a) && AllRead(b) && forall r :: r in a <==> r in b
    ensures Rules.WellFormed(Rules.Build(a)) && Rules.WellFormed(Rules.Build(b))
    ensures Rules.SameLookups(Rules.Build(a), Rules.Build(b))
  {
    hide Rules.BuildOnto, Rules.WellFormed;
    Rules.BuildWell(a);
    Rules.BuildWell(b);
    forall p
      ensures p in Rules.Build(a) <==> p in Rules.Build(b)
      ensures p in Rules.Build(a) ==> Rules.Build(a)[p].mode == Rules.Build(b)[p].mode
    {
      Rules.BuildKeys(a, p);
      Rules.BuildKeys(b, p);
      if p in Rules.Build(a) {
        Rules.BuildMode(a, p);
        Rules.BuildMode(b, p);
        ReadModes(a, p);
        ReadModes(b, p);
      }
    }
  }

  lemma LinkOpen(rules: seq<Rules.Rule>, link: Rules.Rule, d: Path)
    requires AllRead(rules) && link in rules && link.path <= d
    ensures [] in Rules.Build(rules) && Open(Rules.Build(rules), [], d)
  {
    hide Open, Rules.BuildOnto, Granted, Rules.Parented, Rules.Listed, Rules.Distinct;
    RulesGiven(rules);
    ReadBelow(rules, link, d);
    OpenExactly(Rules.Build(rules), [], d);
  }

  lemma {:induction false} LinkMet(m: map<Path, string>, at: Path, p: Path) returns (k: Path)
    requires Resolved(m, at, p).Some?
    ensures at + k in m && PathOf(m[at + k]) <= Resolved(m, at, p).value
    decreases |p|
  {
    hide PathOf;
    k := [];
    assert at + k == at;
    if at !in m {
      var j := LinkMet(m, at + [p[0]], p[1..]);
      k := [p[0]] + j;
      assert at + k == at + [p[0]] + j;
    }
  }

  /** What `Root` finds: the filtered data, with the client's own names under "self" at the top. */
  ghost function RootFound(t: Rules.RuleTree, data: map<Path, string>, mapping: map<Path, string>, ip: string,
                           at: Path, q: Path): Option<string>
    requires [] in t
  {
    if at == [] && q != [] && q[0] == "self" && !NoMap(mapping, ip) then SelfFound(t, data, mapping, ip, q[1..])
    else Find(Shown(t, [], data), at + q)
  }

  ghost predicate RootAnswer(t: Rules.RuleTree, tree: Tree, mapping: map<Path, string>, ip: string, at: Path,
                             val: Option<Val>)
    requires [] in t
  {
    && (val.Some? <==> at in tree && Open(t, [], at))
    && (val.Some? ==> forall q :: Lookup(val.value, q) == RootFound(t, Visible(tree), mapping, ip, at, q))
    && (val.Some? && at == [] && !NoMap(mapping, ip) ==> val.value.Dir? && "self" in val.value.entries)
  }

  // ---- The repository ----------------------------------------------------------------------------

  class MetadataRepo {
    const data: Store
    const mapping: Store
    var accessTrees: map<string, AccessTree>

    constructor (data: Store, mapping: Store)
      ensures this.data == data && this.mapping == mapping && accessTrees == map[]
    {
      this.data, this.mapping, accessTrees := data, mapping, map[];
    }

    /** `accessStore.Put`. */
    method PutAccessRule(host: string, rules: seq<Rules.Rule>)
      modifies this
      ensures host in accessTrees && accessTrees[host].Valid() && accessTrees[host].tree == Rules.Build(rules)
      ensures forall ip :: ip != host ==> (ip in accessTrees <==> ip in old(accessTrees))
      ensures forall ip :: ip != host && ip in accessTrees ==> accessTrees[ip] == old(accessTrees)[ip]
    {
      hide AccessTree.Valid, Rules.BuildOnto;
      var tree := new AccessTree(rules);
      accessTrees := accessTrees[host := tree];
    }

    /** The stores and the client's rules are in order; the mapping was given clean paths only. */
    ghost predicate Ready(clientIP: string)
      reads this, data, data.known, data.live, mapping, mapping.known, mapping.live
      reads if clientIP in accessTrees then {accessTrees[clientIP]} else {}
      reads if clientIP in accessTrees then accessTrees[clientIP].nodes.Values else {}
    {
      && data.Valid() && mapping.Valid() && Machine.ProperOps(mapping.ops)
      && (clientIP in accessTrees ==> accessTrees[clientIP].Valid())
    }

    /** The tree a client's rules were put as, or the one made up from its links. */
    ghost predicate TreeFor(clientIP: string, t: Rules.RuleTree)
      reads this, mapping`tree
      reads if clientIP in accessTrees then {accessTrees[clientIP]} else {}
    {
      && [] in t
      && if clientIP in accessTrees then t == accessTrees[clientIP].tree
         else LinkTree(t, Visible(mapping.tree), clientIP)
    }

    /** `GetMapping` for a client. */
    method GetMapping(clientIP: string) returns (links: Option<Val>)
      requires mapping.Valid()
      ensures LinksOf(links, Visible(mapping.tree), clientIP)
      ensures links.Some? ==> Pruned(links.value) && links.value != Dir(map[])
    {
      hide Store.Valid, Visible, Lookup, Find;
      var _, val := mapping.Get([clientIP]);
      links := val;
      GotLinks(links, Visible(mapping.tree), clientIP);
    }

    /** The loop of `getAccessTree`: a read rule for every link. */
    method ReadRules(flat: map<string, string>) returns (rules: seq<Rules.Rule>)
      ensures AllRead(rules)
      ensures forall k :: k in flat ==> Rules.Rule(PathOf(flat[k]), Rules.Read) in rules
      ensures forall r :: r in rules ==> exists k :: k in flat && r.path == PathOf(flat[k])
    {
      hide PathOf;
      rules := [];
      var keys := flat.Keys;
      while keys != {}
        invariant keys <= flat.Keys && AllRead(rules)
        invariant forall k :: k in flat && k !in keys ==> Rules.Rule(PathOf(flat[k]), Rules.Read) in rules
        invariant forall r :: r in rules ==> exists k :: k in flat && r.path == PathOf(flat[k])
        decreases keys
      {
        var k :| k in keys;
        keys := keys - {k};
        rules := rules + [Rules.Rule(PathOf(flat[k]), Rules.Read)];
      }
    }

    /** `getAccessTree`: the rules put for a client or, failing these, rules made from its links. */
    method GetAccessTree(clientIP: string) returns (accessTree: AccessTree?)
      requires Ready(clientIP)
      ensures accessTree != null ==> accessTree.Valid()
      ensures clientIP in accessTrees ==> accessTree == accessTrees[clientIP]
      ensures accessTree != null ==> TreeFor(clientIP, accessTree.tree)
      ensures accessTree == null <==> clientIP !in accessTrees && NoMap(Visible(mapping.tree), clientIP)
    {
      hide Store.Valid, Visible, Lookup, Find, AccessTree.Valid, Rules.BuildOnto, PathOf, Machine.ProperOps;
      hide Flatmap.ThingOf, Flatmap.ProperNames, Flatmap.Norm, Flatmap.Flattened, Helpers.Proper, Pruned;
      if clientIP in accessTrees {
        accessTree := accessTrees[clientIP];
        accessTree.RootHere();
        return;
      }
      var links := GetMapping(clientIP);
      if links == None || !links.value.Dir? {
        return null;
      }
      var flat := Flatmap.Flatten(Flatmap.ThingOf(links.value));
      mapping.PathsProper();
      FlatLinks(links.value, flat, Visible(mapping.tree), clientIP);
      var rules := ReadRules(flat);
      accessTree := new AccessTree(rules);
      accessTree.RootHere();
      MadeFromLinks(rules, flat, Visible(mapping.tree), clientIP);
      assert LinkRules(rules, Visible(mapping.tree), clientIP);
    }

    /** What a client finds under its own names: filtered by its rules or, if it has none, just what
        its links lead to. */
    ghost function SelfOf(clientIP: string, p: Path): Option<string>
      reads this, data`tree, mapping`tree
      reads if clientIP in accessTrees then {accessTrees[clientIP]} else {}
    {
      if clientIP in accessTrees then
        var t := accessTrees[clientIP].tree;
        if [] in t then SelfFound(t, Visible(data.tree), Visible(mapping.tree), clientIP, p) else None
      else LinkFound(Visible(data.tree), Visible(mapping.tree), clientIP, p)
    }

    /** Whether a client has an answer under its own names, be it an empty one: its mapping is a map that
        goes on below the path, or a link on the way leads to a place it may enter. */
    ghost predicate SelfAnswers(clientIP: string, p: Path)
      reads this, data`tree, mapping`tree
      reads if clientIP in accessTrees then {accessTrees[clientIP]} else {}
    {
      var rules := if clientIP in accessTrees then Some(accessTrees[clientIP].tree) else None;
      && (rules.Some? ==> [] in rules.value) && [clientIP] !in Visible(mapping.tree)
      && HasAnswer(rules, data.tree, Visible(mapping.tree), [clientIP], p)
    }

    /** `Self`: what a client is answered under its own names; where its mapping goes on, exactly the names
        there is an answer for. */
    method Self(clientIP: string, nodePath: Path) returns (val: Option<Val>)
      requires Ready(clientIP)
      ensures forall q :: Answer(val, q) == SelfOf(clientIP, nodePath + q)
      ensures val.Some? <==> SelfAnswers(clientIP, nodePath)
      ensures (exists k :: k in Visible(mapping.tree) && [clientIP] + nodePath < k) ==>
                && val.Some? && val.value.Dir?
                && forall c :: c in val.value.entries <==> SelfAnswers(clientIP, nodePath + [c])
    {
      hide Store.Valid, Visible, AccessTree.Valid, SelfFound, TreeFor, NoMap, HasAnswer, SelfOf, SelfAnswers;
      hide Machine.ProperOps;
      var accessTree := GetAccessTree(clientIP);
      if accessTree == null {
        NothingFor(clientIP);
        return None;
      }
      accessTree.RootHere();
      val := SelfAs(clientIP, nodePath, accessTree);
      FoundFreely(clientIP, accessTree.tree);
      AnswersFreely(clientIP, accessTree);
    }

    /** `Self` with the client's access tree. */
    method SelfAs(clientIP: string, nodePath: Path, accessTree: AccessTree) returns (val: Option<Val>)
      requires data.Valid() && mapping.Valid() && accessTree.Valid() && [] in accessTree.tree
      ensures forall q :: Answer(val, q) ==
                SelfFound(accessTree.tree, Visible(data.tree), Visible(mapping.tree), clientIP, nodePath + q)
      ensures val.Some? <==>
                && [clientIP] !in Visible(mapping.tree)
                && HasAnswer(Some(accessTree.tree), data.tree, Visible(mapping.tree), [clientIP], nodePath)
      ensures (exists k :: k in Visible(mapping.tree) && [clientIP] + nodePath < k) ==>
                && val.Some? && val.value.Dir?
                && forall c :: c in val.value.entries <==>
                     HasAnswer(Some(accessTree.tree), data.tree, Visible(mapping.tree), [clientIP], nodePath + [c])
    {
      hide Store.Valid, Visible, AccessTree.Valid, Traveller.Valid, SelfFound, HasAnswer;
      var traveller := new Traveller(data, accessTree);
      val := SelfBy(clientIP, nodePath, traveller);
      traveller.Close();
    }

    lemma NothingFor(clientIP: string)
      requires Ready(clientIP) && clientIP !in accessTrees && NoMap(Visible(mapping.tree), clientIP)
      ensures forall p :: SelfOf(clientIP, p) == None && !SelfAnswers(clientIP, p)
      ensures forall k: Path, p: Path :: k in Visible(mapping.tree) ==> !([clientIP] + p < k)
    {
      hide Store.Valid, Visible, LinkFound, NoMap, HasAnswer, Machine.ProperOps, PrefixFree;
      NothingFound(Rules.BARE, Visible(data.tree), Visible(mapping.tree), clientIP);
      mapping.LeavesApart();
      NoMapNoAnswer(None, data.tree, Visible(mapping.tree), clientIP);
    }

    lemma AnswersFreely(clientIP: string, accessTree: AccessTree)
      requires Ready(clientIP) && TreeFor(clientIP, accessTree.tree)
      ensures forall p :: SelfAnswers(clientIP, p) <==>
                && [clientIP] !in Visible(mapping.tree)
                && HasAnswer(Some(accessTree.tree), data.tree, Visible(mapping.tree), [clientIP], p)
    {
      hide Visible, Store.Valid, AccessTree.Valid, HasAnswer, LinkTree, Machine.ProperOps;
      if clientIP !in accessTrees {
        forall p
          ensures HasAnswer(Some(accessTree.tree), data.tree, Visible(mapping.tree), [clientIP], p)
             <==> HasAnswer(None, data.tree, Visible(mapping.tree), [clientIP], p)
        {
          FreeAnswer(accessTree.tree, data.tree, Visible(mapping.tree), clientIP, p);
        }
      }
    }

    lemma FoundFreely(clientIP: string, t: Rules.RuleTree)
      requires Ready(clientIP) && TreeFor(clientIP, t)
      requires clientIP in accessTrees || !NoMap(Visible(mapping.tree), clientIP)
      ensures forall p :: SelfFound(t, Visible(data.tree), Visible(mapping.tree), clientIP, p) == SelfOf(clientIP, p)
    {
      hide Visible, Store.Valid, AccessTree.Valid, Machine.ProperOps, LinkTree;
      if clientIP !in accessTrees {
        forall p
          ensures SelfFound(t, Visible(data.tree), Visible(mapping.tree), clientIP, p) == SelfOf(clientIP, p)
        {
          LinksComplete(t, Visible(data.tree), Visible(mapping.tree), clientIP, p);
        }
      }
    }

    /** The trees made up for a client all let the same through. */
    lemma SameTrees(clientIP: string, t: Rules.RuleTree, u: Rules.RuleTree)
      requires TreeFor(clientIP, t) && TreeFor(clientIP, u)
      ensures forall base, p :: Open(t, base, p) <==> Open(u, base, p)
      ensures forall base, m :: Shown(t, base, m) == Shown(u, base, m)
    {
      hide LinkTree, Open, Shown, Visible;
      if clientIP !in accessTrees {
        SameLinksOpen(t, u, Visible(mapping.tree), clientIP);
      }
    }

    lemma MapAnswers(clientIP: string)
      requires Ready(clientIP) && (clientIP in accessTrees ==> [] in accessTrees[clientIP].tree)
      ensures SelfAnswers(clientIP, []) <==> !NoMap(Visible(mapping.tree), clientIP)
    {
      hide Visible, Store.Valid, AccessTree.Valid, Machine.ProperOps, Leads;
      MapBelow(Visible(mapping.tree), clientIP);
      var none: Path := [];
      assert [clientIP] + none == [clientIP] && none[..0] == none;
      LeadsNowhere(if clientIP in accessTrees then Some(accessTrees[clientIP].tree) else None, data.tree,
        Visible(mapping.tree), clientIP);
    }

    /** `Root`: what the rules let a client read at a path of the data; at the root its own names
        are added under "self". */
    method Root(clientIP: string, nodePath: Path) returns (currentVersion: nat, val: Option<Val>)
      requires Ready(clientIP)
      ensures currentVersion == if val.Some? then data.version else 0
      ensures clientIP !in accessTrees && NoMap(Visible(mapping.tree), clientIP) ==> val == None
      ensures clientIP in accessTrees || !NoMap(Visible(mapping.tree), clientIP) ==> exists t ::
                [] in t && TreeFor(clientIP, t) &&
                RootAnswer(t, data.tree, Visible(mapping.tree), clientIP, nodePath, val)
    {
      hide Store.Valid, Visible, AccessTree.Valid, Traveller.Valid, SelfFound, TreeFor, NoMap, RootAnswer;
      currentVersion, val := 0, None;
      var accessTree := GetAccessTree(clientIP);
      if accessTree == null {
        return;
      }
      accessTree.RootHere();
      currentVersion, val := RootBy(clientIP, nodePath, accessTree);
    }

    /** `Root` with the client's access tree. */
    method RootBy(clientIP: string, nodePath: Path, accessTree: AccessTree)
      returns (currentVersion: nat, val: Option<Val>)
      requires data.Valid() && mapping.Valid() && accessTree.Valid() && [] in accessTree.tree
      ensures currentVersion == if val.Some? then data.version else 0
      ensures RootAnswer(accessTree.tree, data.tree, Visible(mapping.tree), clientIP, nodePath, val)
    {
      hide Store.Valid, Visible, AccessTree.Valid, Traveller.Valid, SelfFound, NoMap, Open, Shown, Find, Lookup;
      hide Pruned;
      ghost var t := accessTree.tree;
      currentVersion, val := 0, None;
      var traveller := new Traveller(data, accessTree);
      assert [] + nodePath == nodePath;
      var entered := traveller.Enter(nodePath);
      if entered {
        currentVersion := traveller.GetVersion();
        var v := traveller.GetValue();
        val := Some(v);
        forall q
          ensures Lookup(v, q) == Find(Shown(t, [], Visible(data.tree)), nodePath + q)
        {
          ShownFrom(t, nodePath, Visible(data.tree), q);
        }
        if nodePath == [] {
          traveller.Sound();
          var selfVal := SelfBy(clientIP, [], traveller);
          assert v.Dir?;
          if selfVal.Some? && v.Dir? {
            val := Some(Dir(v.entries["self" := selfVal.value]));
            OneEntry(v, "self", selfVal.value);
            forall q
              ensures Lookup(val.value, q) ==
                RootFound(t, Visible(data.tree), Visible(mapping.tree), clientIP, nodePath, q)
            {
              if q != [] && q[0] == "self" {
                assert [] + q[1..] == q[1..];
                assert Answer(selfVal, q[1..]) ==
                  SelfFound(t, Visible(data.tree), Visible(mapping.tree), clientIP, [] + q[1..]);
              }
            }
          }
        }
      }
      traveller.Close();
    }

    /** `self`. */
    method SelfBy(clientIP: string, nodePath: Path, traveller: Traveller) returns (val: Option<Val>)
      requires mapping.Valid() && AtRoot(traveller) && traveller.store == data && [] in traveller.access.tree
      modifies traveller
      ensures AtRoot(traveller)
      ensures nodePath == [] ==> (val.Some? <==> !NoMap(Visible(mapping.tree), clientIP))
      ensures val.Some? <==>
                && [clientIP] !in Visible(mapping.tree)
                && HasAnswer(Some(traveller.access.tree), data.tree, Visible(mapping.tree), [clientIP], nodePath)
      ensures (exists k :: k in Visible(mapping.tree) && [clientIP] + nodePath < k) ==>
                && val.Some? && val.value.Dir?
                && forall c :: c in val.value.entries <==>
                     HasAnswer(Some(traveller.access.tree), data.tree, Visible(mapping.tree), [clientIP],
                               nodePath + [c])
      ensures forall q :: Answer(val, q) ==
                SelfFound(traveller.access.tree, Visible(data.tree), Visible(mapping.tree), clientIP, nodePath + q)
    {
      hide Store.Valid, Visible, AccessTree.Valid, Traveller.Valid, SelfFound, SelfFind, Lookup, Find, HasAnswer;
      hide Answered, Lists, Pruned, PrefixFree, LinksOf, NoMap;
      mapping.LeavesApart();
      var links := GetMapping(clientIP);
      ghost var t := traveller.access.tree;
      if links == None || !links.value.Dir? {
        LinksThere(links, Visible(mapping.tree), clientIP);
        NothingFound(t, Visible(data.tree), Visible(mapping.tree), clientIP);
        NoMapNoAnswer(Some(t), data.tree, Visible(mapping.tree), clientIP);
        return None;
      }
      LinksThere(links, Visible(mapping.tree), clientIP);
      AnsweredTop(t, data.tree, links.value);
      val := GetMappingDatas(nodePath, links.value, traveller);
      LinksAnswered(t, data.tree, Visible(mapping.tree), clientIP, links.value, nodePath, val);
      forall q
        ensures Answer(val, q) == SelfFound(t, Visible(data.tree), Visible(mapping.tree), clientIP, nodePath + q)
      {
        FoundByLinks(t, Visible(data.tree), links.value, Visible(mapping.tree), clientIP, nodePath + q);
      }
    }
  }

  /** A client's mapping as a value, against the keys of the mapping store. */
  ghost predicate LinksOf(links: Option<Val>, m: map<Path, string>, ip: string) {
    if links.Some? && links.value.Dir?
    then !NoMap(m, ip) && forall q :: Lookup(links.value, q) == Find(m, [ip] + q)
    else NoMap(m, ip)
  }

  /** The client has no mapping, or one that is a string. */
  ghost predicate NoMap(m: map<Path, string>, ip: string) {
    [ip] in m || forall q :: Find(m, [ip] + q) == None
  }

  lemma MapBelow(m: map<Path, string>, ip: string)
    ensures !NoMap(m, ip) <==> [ip] !in m && exists k :: k in m && [ip] < k
  {
    if [ip] !in m {
      if !NoMap(m, ip) {
        var q :| Find(m, [ip] + q) != None;
        assert [ip] + [] == [ip];
        assert [ip] < [ip] + q;
      }
      if k :| k in m && [ip] < k {
        assert k == [ip] + k[1..] && Find(m, [ip] + k[1..]) != None;
      }
    }
  }

  lemma LeadsNowhere(t: Option<Rules.RuleTree>, tree: Tree, m: map<Path, string>, ip: string)
    requires t.Some? ==> [] in t.value
    ensures [ip] !in m ==> !Leads(t, tree, m, [ip], [], 0)
  {
    assert [ip] + [] == [ip];
  }

  lemma LinksThere(links: Option<Val>, m: map<Path, string>, ip: string)
    requires LinksOf(links, m, ip)
    ensures links.Some? && links.value.Dir? <==> !NoMap(m, ip)
    ensures links.Some? && links.value.Dir? ==> forall q :: Lookup(links.value, q) == Find(m, [ip] + q)
    ensures !NoMap(m, ip) ==> [ip] !in m
  {
  }

  lemma NoMapNoAnswer(t: Option<Rules.RuleTree>, tree: Tree, m: map<Path, string>, ip: string)
    requires (t.Some? ==> [] in t.value) && NoMap(m, ip) && PrefixFree(m)
    ensures forall p :: [ip] !in m ==> !HasAnswer(t, tree, m, [ip], p)
    ensures forall k: Path, p: Path :: k in m ==> !([ip] + p < k)
  {
    hide HasAnswer, Find;
    if [ip] !in m {
      forall p
        ensures !HasAnswer(t, tree, m, [ip], p)
      {
        NoKeys(t, tree, m, [ip], p);
      }
    }
    forall k: Path, p: Path | k in m
      ensures !([ip] + p < k)
    {
      BelowNone(m, ip, k, p);
    }
  }

  lemma BelowNone(m: map<Path, string>, ip: string, k: Path, p: Path)
    requires NoMap(m, ip) && PrefixFree(m) && k in m
    ensures !([ip] + p < k)
  {
    if [ip] in m {
      assert [ip] + p < k ==> [ip] <= k && [ip] != k;
    } else if 1 <= |k| {
      var r := k[1..];
      assert [ip] + p < k ==> k == [ip] + r;
      assert Find(m, [ip] + r) == None;
    }
  }

  /** The answer to a client's mapping, by the keys of the mapping store. */
  lemma LinksAnswered(t: Rules.RuleTree, tree: Tree, m: map<Path, string>, ip: string, links: Val, p: Path,
                      val: Option<Val>)
    requires [] in t && PrefixFree(m) && Pruned(links) && links.Dir? && links != Dir(map[])
    requires forall q :: Lookup(links, q) == Find(m, [ip] + q)
    requires val.Some? <==> Answered(t, tree, links, p)
    requires Lists(t, tree, links, p, val)
    ensures val.Some? <==> HasAnswer(Some(t), tree, m, [ip], p)
    ensures (exists k :: k in m && [ip] + p < k) ==>
              && val.Some? && val.value.Dir?
              && forall c :: c in val.value.entries <==> HasAnswer(Some(t), tree, m, [ip], p + [c])
  {
    hide PrefixFree, Pruned, Lookup, Answered, Lists, HasAnswer;
    AnsweredByKeys(t, tree, m, [ip], links, p);
    if k :| k in m && [ip] + p < k {
      var q := k[|p| + 1..];
      assert q != [] && [ip] + (p + q) == k && Lookup(links, p + q) == Find(m, [ip] + (p + q));
      ListsAnswered(t, tree, links, p, q, val);
      forall c
        ensures Answered(t, tree, links, p + [c]) <==> HasAnswer(Some(t), tree, m, [ip], p + [c])
      {
        AnsweredByKeys(t, tree, m, [ip], links, p + [c]);
      }
    }
  }

  lemma OneEntry(v: Val, c: string, x: Val)
    requires v.Dir?
    ensures forall q ::
              Lookup(Dir(v.entries[c := x]), q) == if q != [] && q[0] == c then Lookup(x, q[1..]) else Lookup(v, q)
  {
  }

  lemma GotLinks(links: Option<Val>, m: map<Path, string>, ip: string)
    requires links.Some? ==> Pruned(links.value) && links.value != Dir(map[])
    requires forall q :: (if links == None then None else Lookup(links.value, q)) == Find(m, [ip] + q)
    ensures LinksOf(links, m, ip)
  {
    hide Pruned;
    var top: Path := [];
    assert [ip] + top == [ip];
    assert (if links == None then None else Lookup(links.value, top)) == Find(m, [ip] + top);
    if links.Some? {
      var p := SomethingInside(links.value);
      assert Lookup(links.value, p) == Find(m, [ip] + p);
    }
  }

  /** The flattened links are the links: each leads along its own path. */
  ghost predicate SameLinks(flat: map<string, string>, m: map<Path, string>, ip: string) {
    && (forall k :: [ip] + k in m ==> exists s :: s in flat && flat[s] == m[[ip] + k])
    && (forall s :: s in flat ==> [ip] + PathOf(s) in m && flat[s] == m[[ip] + PathOf(s)])
  }

  lemma FlatLinks(links: Val, flat: map<string, string>, m: map<Path, string>, ip: string)
    requires Pruned(links) && links.Dir? && LinksOf(Some(links), m, ip)
    requires Flatmap.Flattened(Flatmap.ThingOf(links), flat) && forall q :: q in m ==> Helpers.Proper(q)
    ensures SameLinks(flat, m, ip)
  {
    hide Helpers.Proper, PathOf, Flatmap.ThingOf, Flatmap.ProperNames, Flatmap.Norm, Flatmap.Flattened, Pruned, Flatten;
    hide Helpers.Separate, LinksOf, SameLinks;
    LinkLeaves(links, m, ip);
    Flatmap.ThingOfLeaves(links, Flatten(links));
    Flatmap.FlatCleaned(Flatmap.ThingOf(links), flat);
    CleanedLinks(flat, Flatten(links), m, ip);
  }

  lemma CleanedLinks(flat: map<string, string>, f: map<Path, string>, m: map<Path, string>, ip: string)
    requires Helpers.Separate(flat) && Helpers.Cleaned(flat) == f
    requires forall q :: q in f <==> [ip] + q in m
    requires forall q :: q in f ==> f[q] == m[[ip] + q]
    ensures SameLinks(flat, m, ip)
  {
    hide PathOf, Helpers.Separate, Helpers.Cleaned;
    forall k | [ip] + k in m
      ensures exists s :: s in flat && flat[s] == m[[ip] + k]
    {
      assert k in f;
    }
    forall s | s in flat
      ensures [ip] + PathOf(s) in m && flat[s] == m[[ip] + PathOf(s)]
    {
      assert PathOf(s) in f;
    }
  }

  lemma LinkLeaves(links: Val, m: map<Path, string>, ip: string)
    requires links.Dir? && LinksOf(Some(links), m, ip) && forall q :: q in m ==> Helpers.Proper(q)
    ensures forall q :: q in Flatten(links) <==> [ip] + q in m
    ensures forall q :: q in Flatten(links) ==> Flatten(links)[q] == m[[ip] + q] && Helpers.Proper(q)
  {
    hide Lookup, Helpers.Proper, Flatten;
    var f := Flatten(links);
    forall q
      ensures q in f <==> [ip] + q in m
      ensures q in f ==> f[q] == m[[ip] + q] && Helpers.Proper(q)
    {
      assert Find(f, q) == Lookup(links, q) == Find(m, [ip] + q);
      if q in f {
        ProperRest(ip, q);
      }
    }
  }

  lemma ProperRest(ip: string, q: Path)
    requires Helpers.Proper([ip] + q)
    ensures Helpers.Proper(q)
  {
    assert forall c :: c in q ==> c in [ip] + q;
  }

  lemma MadeFromLinks(rules: seq<Rules.Rule>, flat: map<string, string>, m: map<Path, string>, ip: string)
    requires AllRead(rules) && SameLinks(flat, m, ip)
    requires forall k :: k in flat ==> Rules.Rule(PathOf(flat[k]), Rules.Read) in rules
    requires forall r :: r in rules ==> exists k :: k in flat && r.path == PathOf(flat[k])
    ensures LinkRules(rules, m, ip)
  {
    hide PathOf, AllRead;
    forall r | r in rules
      ensures exists k :: [ip] + k in m && r.path == PathOf(m[[ip] + k])
    {
      var s :| s in flat && r.path == PathOf(flat[s]);
      assert [ip] + PathOf(s) in m;
    }
  }

  lemma NothingFound(t: Rules.RuleTree, data: map<Path, string>, m: map<Path, string>, ip: string)
    requires [] in t && NoMap(m, ip)
    ensures forall q :: SelfFound(t, data, m, ip, q) == None && LinkFound(data, m, ip, q) == None
  {
    forall q
      ensures SelfFound(t, data, m, ip, q) == None && LinkFound(data, m, ip, q) == None
    {
      if [ip] !in m {
        NothingResolved(m, [ip], q);
      }
    }
  }

  lemma FoundByLinks(t: Rules.RuleTree, data: map<Path, string>, links: Val, m: map<Path, string>, ip: string, p: Path)
    requires [] in t && LinksOf(Some(links), m, ip) && links.Dir?
    ensures SelfFind(t, data, links, p) == SelfFound(t, data, m, ip, p)
  {
    SameResolve(m, [ip], links, p);
  }
}
