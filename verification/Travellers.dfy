/** traveller.go: a cursor that walks the nodes of a store and the access tree together, with a
    stack to find the way back. The store is locked against writers as long as it is open. */
module Travellers {
  import opened Paths
  import opened Trees
  import opened Values
  import opened Stores
  import opened Access
  import opened Grants
  import Rules

  /** What a traveller that started at `base` is shown of the keys `m`. */
  ghost function Shown(t: Rules.RuleTree, base: Path, m: map<Path, string>): map<Path, string>
    requires [] in t
  {
    map p | p in m && Open(t, base, p) :: m[p]
  }

  lemma ShownLeaves(t: Rules.RuleTree, base: Path, tree: Tree)
    requires [] in t
    ensures forall k :: k in Shown(t, base, Visible(tree)) ==> k in tree && !tree[k].dir
  {
  }

  lemma ShownBelow(t: Rules.RuleTree, base: Path, c: string, m: map<Path, string>, q: Path)
    requires [] in t
    ensures Find(Shown(t, base, m), base + [c] + q) ==
              if Allowed(t, base + [c]) then Find(Shown(t, base + [c], m), base + [c] + q) else None
  {
  }

  /** Below a place that can be entered from the root, the root sees what is seen from there. */
  lemma ShownFrom(t: Rules.RuleTree, base: Path, m: map<Path, string>, q: Path)
    requires [] in t && Open(t, [], base)
    ensures Find(Shown(t, base, m), base + q) == Find(Shown(t, [], m), base + q)
  {
  }

  /** Below a place that cannot be entered from the root, nothing is seen. */
  lemma ShownNowhere(t: Rules.RuleTree, base: Path, tree: Tree, q: Path)
    requires [] in t && Rooted(tree) && !(base in tree && Open(t, [], base))
    ensures Find(Shown(t, [], Visible(tree)), base + q) == None
  {
    hide Open;
    OpenCompose(t, [], base, base + q);
    if base + q in tree && q != [] {
      assert base < base + q;
    }
    assert base + [] == base;
  }

  // ---- The filter as a reader would state it -----------------------------------------------------

  /** Under rules with modes other than `Nil`, what is shown from `base` are the keys that some
      rule lies strictly below the match of, or at which reading is in force. */
  lemma ShownExactly(rules: seq<Rules.Rule>, base: Path, m: map<Path, string>, p: Path)
    requires (forall r :: r in rules ==> r.mode != Rules.Nil) && base <= p
    ensures [] in Rules.Build(rules)
    ensures p in Shown(Rules.Build(rules), base, m) <==> p in m && (p == base || Granted(Rules.Build(rules), p))
  {
    RulesGiven(rules);
    OpenExactly(Rules.Build(rules), base, p);
  }

  /** A single rule to read everything lets a traveller go everywhere. */
  lemma OpenEverywhere(p: Path)
    ensures [] in Rules.Build([Rules.Rule([], Rules.Read)])
    ensures Open(Rules.Build([Rules.Rule([], Rules.Read)]), [], p)
  {
    hide Rules.BuildOnto, Granted, Open;
    var rules := [Rules.Rule([], Rules.Read)];
    RulesGiven(rules);
    assert [] <= p;
    ReadBelow(rules, rules[0], p);
    OpenExactly(Rules.Build(rules), [], p);
  }

  /** It filters nothing: the answer is the one `Get` gives. */
  lemma EverythingRead(m: map<Path, string>, at: Path, v: Val, w: Val)
    requires [] in Rules.Build([Rules.Rule([], Rules.Read)]) && Pruned(v) && Pruned(w)
    requires forall q :: Lookup(v, q) == Find(Shown(Rules.Build([Rules.Rule([], Rules.Read)]), at, m), at + q)
    requires forall q :: Lookup(w, q) == Find(m, at + q)
    ensures v == w
  {
    hide Rules.BuildOnto, Granted, Open, Lookup, Pruned;
    var rules := [Rules.Rule([], Rules.Read)];
    forall q
      ensures Lookup(v, q) == Lookup(w, q)
    {
      ShownExactly(rules, at, m, at + q);
      assert [] <= at + q;
      ReadBelow(rules, rules[0], at + q);
    }
    SameAnswers(v, w);
  }

  /** The order of rules for different paths makes no difference to what is shown. */
  lemma AnyOrderShows(a: seq<Rules.Rule>, b: seq<Rules.Rule>, base: Path, m: map<Path, string>)
    requires Rules.DistinctPaths(a) && Rules.DistinctPaths(b) && forall r :: r in a <==> r in b
    ensures [] in Rules.Build(a) && [] in Rules.Build(b)
    ensures Shown(Rules.Build(a), base, m) == Shown(Rules.Build(b), base, m)
  {
    hide Rules.BuildOnto, Allowed;
    var t, u := Rules.Build(a), Rules.Build(b);
    Rules.BuildWell(a);
    Rules.BuildWell(b);
    Rules.AnyOrder(a, b);
    forall p, r: Path | p in m && base < r && r in Prefixes(p)
      ensures Allowed(t, r) == Allowed(u, r)
    {
      SameMatch(t, u, r);
    }
    assert forall p :: p in m ==> (Open(t, base, p) <==> Open(u, base, p));
  }

  lemma Entered(values: map<string, Val>, c: string, x: Option<Val>, m: map<Path, string>, p: Path)
    requires c !in values && (x.Some? ==> Pruned(x.value))
    requires forall q :: (if x.Some? then Lookup(x.value, q) else None) == Find(m, p + [c] + q)
    ensures EntryOf(if x.Some? && x.value != Dir(map[]) then values[c := x.value] else values, c, m, p)
  {
  }

  lemma OtherEntry(values: map<string, Val>, more: map<string, Val>, c: string, m: map<Path, string>, p: Path)
    requires EntryOf(values, c, m, p)
    requires c in values <==> c in more
    requires c in values ==> more[c] == values[c]
    ensures EntryOf(more, c, m, p)
  {
  }

  lemma LeafAnswers(t: Rules.RuleTree, tree: Tree, p: Path)
    requires [] in t && Closed(tree) && p in tree && !tree[p].dir
    ensures Pruned(Leaf(tree[p].value))
    ensures forall q :: Lookup(Leaf(tree[p].value), q) == Find(Shown(t, p, Visible(tree)), p + q)
  {
    OpenHere(t, p);
    forall q
      ensures Lookup(Leaf(tree[p].value), q) == Find(Shown(t, p, Visible(tree)), p + q)
    {
      if q == [] {
        assert p + q == p;
      } else {
        assert p < p + q;
      }
    }
  }

  datatype Frame = Frame(node: AccessNode?, mode: Rules.Mode)

  datatype Place = Place(node: Node, accessNode: AccessNode?, mode: Rules.Mode, stack: seq<Frame>)

  class Traveller {
    const store: Store
    const access: AccessTree
    var closed: bool
    var currNode: Node
    var currAccessNode: AccessNode?
    var currMode: Rules.Mode
    var stack: seq<Frame>

    /** The access node and the mode are those of the path, and nothing else. */
    ghost predicate Cursor(p: Path, f: Frame)
      requires [] in access.tree
      reads access
    {
      && f.mode == Grants.Mode(access.tree, p)
      && match Match(access.tree, p)
         case None => f.node == null
         case Some(a) => f.node != null && access.Here(f.node) && f.node.path == a
    }

    ghost predicate Valid()
      reads this, store, store.known, store.live, access, access.nodes.Values
    {
      && !closed && store.Shape() && access.Valid()
      && InPlace(store.nodes, currNode) && currNode.store == store
      && Cursor(currNode.path, Frame(currAccessNode, currMode))
      && |stack| == |currNode.path|
      && forall i :: 0 <= i < |stack| ==> Cursor(currNode.path[..i], stack[i])
    }

    ghost function Where(): Place
      reads this
    {
      Place(currNode, currAccessNode, currMode, stack)
    }

    constructor (store: Store, access: AccessTree)
      requires store.Valid() && access.Valid()
      ensures Valid() && this.store == store && this.access == access
      ensures currNode.path == []
    {
      hide Store.Shape, AccessTree.Valid;
      store.RootAt();
      access.RootHere();
      access.Local(access.root);
      this.store, this.access, closed := store, access, false;
      currNode, currAccessNode, currMode, stack := store.root, access.root, access.root.mode, [];
    }

    /** `enter`: one step down, if there is such a node and the rules let it through. */
    method EnterChild(name: string) returns (result: bool)
      requires Valid()
      modifies this
      ensures Valid()
      ensures result <==> old(currNode.path) + [name] in store.tree && Allowed(access.tree, old(currNode.path) + [name])
      ensures result ==> currNode.path == old(currNode.path) + [name]
      ensures result ==> stack == old(stack) + [Frame(old(currAccessNode), old(currMode))]
      ensures !result ==> Where() == old(Where())
    {
      hide Store.Shape, AccessTree.Valid, AccessNode.Named, AccessNode.Linked, Match, Grants.Mode;
      result := false;
      access.RootHere();
      MatchStep(access.tree, currNode.path, name);
      var n := currNode.GetChild(name);
      if n == null {
        return;
      }
      var an: AccessNode? := null;
      if currAccessNode != null {
        an := currAccessNode.GetChild(name, false);
        access.Finds(currAccessNode, name);
        access.Finds(currAccessNode, WILDCARD);
      }
      if an != null {
        access.Finds(an, name);
      }
      assert Match(access.tree, n.path) == if an == null then None else Some(an.path);
      if an != null {
        if an.HasChild() || an.mode == Rules.Read {
          result := true;
        }
      } else {
        if currMode == Rules.Read {
          result := true;
        }
      }
      if result {
        Descend(n, an, name);
      }
    }

    method Descend(n: Node, an: AccessNode?, ghost name: string)
      requires Valid() && [] in access.tree
      requires InPlace(store.nodes, n) && n.store == store && n.path == currNode.path + [name]
      requires Match(access.tree, n.path) == if an == null then None else Some(an.path)
      requires an != null ==> access.Here(an) && an.path in access.tree && an.mode == access.tree[an.path].mode
      modifies this
      ensures Valid() && currNode == n && stack == old(stack) + [Frame(old(currAccessNode), old(currMode))]
    {
      hide Store.Shape, AccessTree.Valid, Match, Grants.Mode, Allowed;
      MatchStep(access.tree, currNode.path, name);
      ghost var below := n.path;
      assert forall i :: 0 <= i <= |stack| ==> below[..i] == currNode.path[..i];
      assert currNode.path[..|stack|] == currNode.path;
      stack := stack + [Frame(currAccessNode, currMode)];
      currNode := n;
      currAccessNode := an;
      if currAccessNode != null && currAccessNode.mode != Rules.Nil {
        currMode := currAccessNode.mode;
      }
    }

    /** `Enter`: a path of several steps; when one of them fails, those before it are undone. */
    method Enter(path: Path) returns (result: bool)
      requires Valid()
      modifies this
      ensures Valid()
      ensures var p := old(currNode.path) + path;
              result <==> p in store.tree && Open(access.tree, old(currNode.path), p)
      ensures result ==> currNode.path == old(currNode.path) + path && old(stack) <= stack
      ensures !result ==> Where() == old(Where())
    {
      hide Store.Shape, AccessTree.Valid, Cursor, Open, Allowed;
      access.RootHere();
      store.TreeRooted();
      store.AtIn(currNode);
      ghost var here, base := Where(), currNode.path;
      OpenHere(access.tree, base);
      var step := 0;
      while step < |path|
        invariant 0 <= step <= |path|
        invariant Valid() && currNode.path == old(currNode.path) + path[..step]
        invariant old(stack) <= stack
        invariant Open(access.tree, old(currNode.path), currNode.path)
        invariant currNode.path in store.tree
      {
        ghost var q := currNode.path + [path[step]];
        assert q == base + path[..step + 1] && q <= base + path;
        OpenChild(access.tree, currNode.path, path[step]);
        OpenCompose(access.tree, base, currNode.path, q);
        OpenCompose(access.tree, base, q, base + path);
        if q !in store.tree {
          MissingBelow(store.tree, q, base + path);
        }
        var entered := EnterChild(path[step]);
        if !entered {
          BackStep(step);
          SamePlace(here);
          return false;
        }
        step := step + 1;
      }
      assert path[..step] == path;
      return true;
    }

    /** `Back`: one step up. */
    method Back()
      requires Valid() && currNode.path != []
      modifies this
      ensures Valid() && currNode.path == Parent(old(currNode.path))
      ensures stack == old(stack)[..|old(stack)| - 1]
    {
      hide Store.Shape, AccessTree.Valid, Cursor;
      store.Local(currNode);
      ghost var p := currNode.path;
      assert forall i :: 0 <= i < |p| ==> Parent(p)[..i] == p[..i];
      var e := stack[|stack| - 1];
      stack := stack[..|stack| - 1];
      currNode := currNode.parent;
      currMode := e.mode;
      currAccessNode := e.node;
    }

    method BackStep(step: nat)
      requires Valid() && step <= |stack|
      modifies this
      ensures Valid()
      ensures currNode.path == old(currNode.path)[..|old(currNode.path)| - step]
      ensures stack == old(stack)[..|old(stack)| - step]
    {
      hide Store.Shape, AccessTree.Valid, Cursor;
      var i := 0;
      while i < step
        invariant 0 <= i <= step && Valid()
        invariant currNode.path == old(currNode.path)[..|old(currNode.path)| - i]
        invariant stack == old(stack)[..|old(stack)| - i]
      {
        Back();
        i := i + 1;
      }
    }

    method BackToRoot()
      requires Valid()
      modifies this
      ensures Valid() && currNode.path == []
    {
      hide Store.Shape, AccessTree.Valid;
      store.RootAt();
      access.RootHere();
      access.Local(access.root);
      stack := [];
      currNode := store.root;
      currAccessNode := access.root;
      currMode := currAccessNode.mode;
    }

    /** `GetValue`: the nested value below the cursor, as far as the rules let the cursor go. */
    method GetValue() returns (v: Val)
      requires Valid()
      modifies this
      ensures Valid() && Where() == old(Where())
      ensures Pruned(v) && v.Dir? == currNode.isDir
      ensures forall q ::
                Lookup(v, q) == Find(Shown(access.tree, currNode.path, Visible(store.tree)), currNode.path + q)
      decreases Weight(store.tree, currNode.path), 1
    {
      hide Store.Shape, AccessTree.Valid, Cursor, Open, Allowed, Pruned, Lookup, Find, EntryOf, Shown, Visible;
      hide Weight, Closed;
      access.RootHere();
      store.TreeRooted();
      store.Local(currNode);
      store.Kids(currNode);
      ghost var here := Where();
      ghost var shown := Shown(access.tree, currNode.path, Visible(store.tree));
      ShownLeaves(access.tree, currNode.path, store.tree);
      if currNode.isDir {
        var values: map<string, Val> := map[];
        var names := currNode.children.Keys;
        while names != {}
          invariant Valid() && Where() == here
          invariant names <= currNode.children.Keys && values.Keys <= currNode.children.Keys - names
          invariant forall c :: c in currNode.children && c !in names ==> EntryOf(values, c, shown, currNode.path)
          decreases names
        {
          var c :| c in names;
          names := names - {c};
          ghost var before := values;
          var x := ChildValue(c);
          if x.Some? && x.value != Dir(map[]) {
            values := values[c := x.value];
          }
          Entered(before, c, x, shown, currNode.path);
          forall d | d in currNode.children && d !in names
            ensures EntryOf(values, d, shown, currNode.path)
          {
            if d != c { OtherEntry(before, values, d, shown, currNode.path); }
          }
        }
        v := Dir(values);
        AllPruned(shown, currNode.path, values);
        forall q
          ensures Lookup(v, q) == Find(shown, currNode.path + q)
        {
          DirAnswers(store.tree, shown, currNode.path, values, q);
        }
      } else {
        v := Leaf(currNode.value);
        LeafAnswers(access.tree, store.tree, currNode.path);
      }
    }

    /** One round of the loop: the value of a child that can be entered. */
    method ChildValue(c: string) returns (x: Option<Val>)
      requires Valid() && c in currNode.children
      modifies this
      ensures Valid() && Where() == old(Where())
      ensures x.Some? ==> Pruned(x.value)
      ensures forall q :: (if x.Some? then Lookup(x.value, q) else None)
                       == Find(Shown(access.tree, currNode.path, Visible(store.tree)), currNode.path + [c] + q)
      decreases Weight(store.tree, currNode.path), 0
    {
      hide Store.Shape, AccessTree.Valid, Cursor, Open, Allowed, Pruned, Lookup, Find, Shown, Visible, Weight;
      access.RootHere();
      store.Kids(currNode);
      store.ChildBelow(currNode, c);
      store.Local(currNode.children[c]);
      assert Last(currNode.path + [c]) == c;
      ghost var here, base := Where(), currNode.path;
      ghost var seen := Visible(store.tree);
      OpenChild(access.tree, base, c);
      forall q
        ensures Find(Shown(access.tree, base, seen), base + [c] + q) ==
                  if Allowed(access.tree, base + [c]) then Find(Shown(access.tree, base + [c], seen), base + [c] + q)
                  else None
      {
        ShownBelow(access.tree, base, c, seen, q);
      }
      x := None;
      var entered := Enter([currNode.children[c].name]);
      if entered {
        var v := GetValue();
        x := Some(v);
        Back();
        SamePlace(here);
      }
    }

    lemma Sound()
      requires Valid()
      ensures [] in access.tree && Rooted(store.tree) && (currNode.path == [] ==> currNode.isDir)
    {
      store.Local(currNode);
      access.RootHere();
      store.TreeRooted();
    }

    /** The path and the stack say all there is to say of a traveller. */
    lemma SamePlace(p: Place)
      requires Valid() && p.stack == stack
      requires InPlace(store.nodes, p.node) && p.node.path == currNode.path
      requires [] in access.tree && Cursor(currNode.path, Frame(p.accessNode, p.mode))
      ensures Where() == p
    {
    }

    /** `GetVersion`: the version of the store, which is locked as long as the traveller is open. */
    method GetVersion() returns (version: nat)
      requires Valid()
      ensures version == store.version
    {
      version := store.version;
    }

    method Close()
      requires Valid()
      modifies this
      ensures closed
    {
      closed := true;
    }
  }
}
