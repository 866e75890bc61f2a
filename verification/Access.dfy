/** access.go: the tree of access nodes, built in place from a list of rules. */
module Access {
  import opened Paths
  import opened Rules
  import opened Grants
  import Listing

  // ---- Checking rules --------------------------------------------------------------------------

  /** A rule as a client sends it. */
  datatype RawRule = RawRule(path: string, mode: int)

  datatype RuleError = InvalidMode(mode: int) | Repeated(path: string)

  /** `CheckAccessMode`: nil, forbidden and read. */
  predicate CheckAccessMode(mode: int) {
    -2 < mode < 2
  }

  ghost predicate FirstWrong(rules: seq<RawRule>, i: nat) {
    i < |rules| && !CheckAccessMode(rules[i].mode) && forall j :: 0 <= j < i ==> CheckAccessMode(rules[j].mode)
  }

  /** `CheckAccessRules`. The paths seen are looked up in a map that is never filled, so that only the
      modes count: the first wrong one is reported, and a repeated path never is. */
  method CheckAccessRules(rules: seq<RawRule>) returns (err: Option<RuleError>)
    ensures err == None <==> forall r :: r in rules ==> CheckAccessMode(r.mode)
    ensures err.Some? ==> err.value.InvalidMode?
    ensures err.Some? ==> exists i: nat :: FirstWrong(rules, i) && err.value.mode == rules[i].mode
  {
    var keys: map<string, bool> := map[];
    var i := 0;
    while i < |rules|
      invariant 0 <= i <= |rules| && keys == map[]
      invariant forall j :: 0 <= j < i ==> CheckAccessMode(rules[j].mode)
    {
      var r := rules[i];
      if !CheckAccessMode(r.mode) {
        assert FirstWrong(rules, i);
        return Some(InvalidMode(r.mode));
      }
      if r.path in keys {
        return Some(Repeated(r.path));
      }
      i := i + 1;
    }
    return None;
  }

  /** Two rules for one path pass the check. */
  method RepeatedPathPasses() returns (err: Option<RuleError>)
    ensures err == None
  {
    err := CheckAccessRules([RawRule("/a", 0), RawRule("/a", 1)]);
  }

  class AccessNode {
    const name: string
    const parent: AccessNode?
    ghost const path: Path
    var mode: Rules.Mode
    var children: seq<AccessNode>

    constructor (name: string, parent: AccessNode?)
      ensures this.name == name && this.parent == parent && mode == Nil && children == []
      ensures path == if parent == null then [] else parent.path + [name]
      ensures parent == null || parent.Linked() ==> Linked()
    {
      this.name, this.parent, mode, children := name, parent, Nil, [];
      path := if parent == null then [] else parent.path + [name];
    }

    ghost predicate Linked()
      decreases |path|
    {
      if parent == null then path == [] else path == parent.path + [name] && parent.Linked()
    }

    /** `accessNode.Path`. */
    function FullPath(): (r: Path)
      requires Linked()
      ensures r == path
      decreases |path|
    {
      if parent == null then [] else parent.FullPath() + [name]
    }

    function HasChild(): bool
      reads this
    {
      |children| > 0
    }

    ghost predicate Named(c: string)
      reads this, children
    {
      exists i :: 0 <= i < |children| && children[i].name == c
    }

    /** The child of that name; failing that, unless `strict`, a wildcard child. */
    method GetChild(name: string, strict: bool) returns (child: AccessNode?)
      ensures child != null ==> child in children
      ensures Named(name) ==> child != null && child.name == name
      ensures !Named(name) && !strict && Named(WILDCARD) ==> child != null && child.name == WILDCARD
      ensures !Named(name) && (strict || !Named(WILDCARD)) ==> child == null
    {
      var wildcardNode: AccessNode? := null;
      var i := 0;
      while i < |children|
        invariant 0 <= i <= |children|
        invariant forall j :: 0 <= j < i ==> children[j].name != name
        invariant wildcardNode != null ==> !strict && wildcardNode in children && wildcardNode.name == WILDCARD
        invariant wildcardNode == null && !strict ==> forall j :: 0 <= j < i ==> children[j].name != WILDCARD
      {
        var c := children[i];
        if name == c.name {
          return c;
        }
        if !strict && c.name == WILDCARD {
          wildcardNode := c;
        }
        i := i + 1;
      }
      return wildcardNode;
    }
  }

  ghost predicate Attached(nodes: map<Path, AccessNode>, n: AccessNode) {
    n.path in nodes && nodes[n.path] == n
  }

  /** The children of the node at `p`, each in its place under its name. */
  ghost predicate KidsOf(nodes: map<Path, AccessNode>, names: seq<string>, p: Path, kids: seq<AccessNode>) {
    && |kids| == |names|
    && forall i :: 0 <= i < |kids| ==>
         Attached(nodes, kids[i]) && kids[i].path == p + [names[i]] && kids[i].name == names[i]
  }

  /** A node hangs on its parent. */
  ghost predicate Placed(nodes: map<Path, AccessNode>, n: AccessNode) {
    n.Linked() && (n.path != [] ==> n.parent != null && Attached(nodes, n.parent) && n.name == Last(n.path))
  }

  /** The node at `p` shows its entry of the tree: its mode, and its children in their order. */
  ghost predicate ShownBy(nodes: map<Path, AccessNode>, tree: RuleTree, p: Path)
    requires p in nodes
    reads nodes[p]
  {
    var n := nodes[p];
    && p in tree && n.path == p && Placed(nodes, n) && n.mode == tree[p].mode
    && KidsOf(nodes, tree[p].kids, p, n.children)
  }

  lemma StillPlaced(was: map<Path, AccessNode>, nodes: map<Path, AccessNode>, n: AccessNode, child: AccessNode)
    requires Placed(was, n) && child.path !in was && nodes == was[child.path := child]
    ensures Placed(nodes, n)
  {
  }

  lemma NewShown(nodes: map<Path, AccessNode>, child: AccessNode)
    requires child.path != [] && child.parent != null && Attached(nodes, child.parent)
    requires child.Linked() && child.name == Last(child.path)
    ensures Placed(nodes, child) && KidsOf(nodes, [], child.path, [])
  {
  }

  lemma StillKids(was: map<Path, AccessNode>, nodes: map<Path, AccessNode>, names: seq<string>, p: Path,
                  kids: seq<AccessNode>, child: AccessNode)
    requires KidsOf(was, names, p, kids) && child.path !in was && nodes == was[child.path := child]
    ensures KidsOf(nodes, names, p, kids)
  {
  }

  lemma OneKidMore(nodes: map<Path, AccessNode>, names: seq<string>, p: Path, kids: seq<AccessNode>, child: AccessNode,
                   c: string)
    requires KidsOf(nodes, names, p, kids) && Attached(nodes, child) && child.path == p + [c] && child.name == c
    ensures KidsOf(nodes, names + [c], p, kids + [child])
  {
  }

  /** The names of the children are those of the tree. */
  lemma NamedKid(nodes: map<Path, AccessNode>, tree: RuleTree, n: AccessNode, c: string)
    requires n.path in tree && KidsOf(nodes, tree[n.path].kids, n.path, n.children) && Parented(tree) && Listed(tree)
    ensures n.Named(c) <==> n.path + [c] in tree
    ensures forall k :: k in n.children && k.name == c ==> Attached(nodes, k) && k.path == n.path + [c]
  {
    var names := tree[n.path].kids;
    if n.path + [c] in tree {
      assert Parent(n.path + [c]) == n.path && Last(n.path + [c]) == c;
      var i :| 0 <= i < |names| && names[i] == c;
      assert n.children[i].name == c;
    }
    if n.Named(c) {
      var i :| 0 <= i < |n.children| && n.children[i].name == c;
      assert c in names;
    }
  }

  lemma NothingBuilt(rules: seq<Rule>)
    ensures Build(rules[..0]) == BARE && Build(rules[..|rules|]) == Build(rules)
  {
    assert rules[..|rules|] == rules && rules[..0] == [];
  }

  lemma BuiltOneMore(rules: seq<Rule>, i: nat)
    requires i < |rules| && [] in Build(rules[..i])
    ensures Build(rules[..i + 1]) == Insert(Build(rules[..i]), rules[i])
  {
    assert rules[..i + 1][..i] == rules[..i];
  }

  class AccessTree {
    const root: AccessNode
    ghost var nodes: map<Path, AccessNode>
    ghost var tree: RuleTree  // what the nodes show

    ghost predicate Here(n: AccessNode)
      reads this`nodes
    {
      Attached(nodes, n)
    }

    ghost predicate Shows(p: Path)
      requires p in nodes
      reads this, nodes.Values
    {
      ShownBy(nodes, tree, p)
    }

    ghost predicate Valid()
      reads this, nodes.Values
    {
      && nodes.Keys == tree.Keys && [] in nodes && nodes[[]] == root
      && WellFormed(tree)
      && forall p :: p in nodes ==> Shows(p)
    }

    /** What `GetChild` finds at an attached node. */
    lemma Finds(n: AccessNode, c: string)
      requires Valid() && Here(n)
      ensures n.Named(c) <==> n.path + [c] in tree
      ensures forall k :: k in n.children && k.name == c ==> Here(k) && k.path == n.path + [c]
      ensures n.mode == tree[n.path].mode && n.HasChild() == (tree[n.path].kids != []) && n.Linked()
    {
      hide KidsOf, AccessNode.Named, Parented, Listed, Distinct, AccessNode.Linked;
      Local(n);
      LocalKids(n);
      NamedKid(nodes, tree, n, c);
    }

    lemma RootHere()
      requires Valid()
      ensures Here(root) && root.path == [] && [] in tree
    {
    }

    lemma Kid(n: AccessNode, i: nat)
      requires Valid() && Here(n) && i < |n.children|
      ensures i < |tree[n.path].kids| && Here(n.children[i]) && n.children[i].path == n.path + [tree[n.path].kids[i]]
      ensures n.path + [tree[n.path].kids[i]] in tree
    {
    }

    lemma Local(n: AccessNode)
      requires Valid() && Here(n)
      ensures n.path in tree && n.Linked() && n.mode == tree[n.path].mode && |n.children| == |tree[n.path].kids|
    {
      assert Shows(n.path);
    }

    lemma LocalKids(n: AccessNode)
      requires Valid() && Here(n)
      ensures KidsOf(nodes, tree[n.path].kids, n.path, n.children) && WellFormed(tree)
    {
      assert Shows(n.path);
    }

    /** One child more changes what its parent shows, and adds what it shows itself. */
    twostate lemma ChildShown(new curr: AccessNode, new child: AccessNode, c: string)
      requires old(Valid()) && curr.path in old(nodes) && old(nodes)[curr.path] == curr
      requires curr.path + [c] !in old(tree)
      requires child.parent == curr && child.name == c && child.path == curr.path + [c] && child.Linked()
      requires child.mode == Nil && child.children == []
      requires curr.children == old(nodes[curr.path].children) + [child]
      requires curr.mode == old(nodes[curr.path].mode)
      requires forall n :: n in old(nodes.Values) && n != curr ==>
                 n.children == old(n.children) && n.mode == old(n.mode)
      requires tree == AddChild(old(tree), curr.path, c) && nodes == old(nodes)[child.path := child]
      ensures forall p :: p in nodes ==> Shows(p)
    {
      hide WellFormed, Placed, KidsOf;
      var q, was := curr.path, old(nodes);
      forall p | p in nodes
        ensures Shows(p)
      {
        if p == child.path {
          assert old(Shows(q));
          assert Parent(p) == q && Last(p) == c;
          NewShown(nodes, child);
        } else {
          assert old(Shows(p)) && nodes[p] in old(nodes.Values);
          StillPlaced(was, nodes, nodes[p], child);
          StillKids(was, nodes, old(tree)[p].kids, p, old(nodes[p].children), child);
          if p == q {
            OneKidMore(nodes, old(tree)[p].kids, p, old(nodes[p].children), child, c);
          }
        }
      }
    }

    twostate lemma ModeShown(curr: AccessNode)
      requires old(Valid()) && old(Here(curr)) && nodes == old(nodes)
      requires curr.children == old(curr.children)
      requires forall n :: n in old(nodes.Values) && n != curr ==>
                 n.children == old(n.children) && n.mode == old(n.mode)
      requires curr.path in old(tree) && tree == old(tree)[curr.path := old(tree)[curr.path].(mode := curr.mode)]
      ensures forall p :: p in nodes ==> Shows(p)
    {
      hide WellFormed;
      forall p | p in nodes
        ensures Shows(p)
      {
        assert old(Shows(p));
        assert nodes[p] in old(nodes.Values);
      }
    }

    /** `NewAccessTree`. */
    constructor (rules: seq<Rule>)
      ensures Valid() && tree == Build(rules) && fresh(nodes.Values)
    {
      hide WellFormed, Insert, Build;
      var r := new AccessNode("/", null);
      root := r;
      nodes, tree := map[[] := r], BARE;
      new;
      BareWell();
      NothingBuilt(rules);
      var i := 0;
      while i < |rules|
        invariant 0 <= i <= |rules|
        invariant Valid() && tree == Build(rules[..i]) && fresh(nodes.Values)
      {
        RootHere();
        BuiltOneMore(rules, i);
        AddRule(rules[i]);
        i := i + 1;
      }
    }

    /** One rule: the nodes on its way, then its mode. */
    method AddRule(rule: Rule)
      requires Valid()
      modifies this, nodes.Values
      ensures Valid() && tree == Insert(old(tree), rule)
      ensures fresh(nodes.Values - old(nodes.Values))
    {
      hide Valid, Shows, WellFormed, Walk, AddChild;
      ghost var t0 := tree;
      RootHere();
      WalkTop(t0);
      var curr := root;
      var i := 0;
      assert rule.path[..0] == [];
      while i < |rule.path|
        invariant 0 <= i <= |rule.path|
        invariant Valid() && Here(curr) && curr.path == rule.path[..i]
        invariant tree == Walk(t0, rule.path[..i])
        invariant fresh(nodes.Values - old(nodes.Values))
      {
        ghost var q := rule.path[..i + 1];
        assert Parent(q) == rule.path[..i] && Last(q) == rule.path[i];
        WalkStep(t0, q);
        curr := Step(curr, rule.path[i]);
        i := i + 1;
      }
      assert rule.path[..i] == rule.path;
      SetMode(curr, rule.mode);
    }

    method Step(curr: AccessNode, component: string) returns (child: AccessNode)
      requires Valid() && Here(curr)
      modifies this, nodes.Values
      ensures Valid() && tree == AddChild(old(tree), curr.path, component)
      ensures Here(child) && child.path == curr.path + [component]
      ensures fresh(nodes.Values - old(nodes.Values))
    {
      hide Shows, WellFormed, AccessNode.Named;
      var found := curr.GetChild(component, true);
      Finds(curr, component);
      Local(curr);
      if found != null {
        return found;
      }
      AddChildWell(tree, curr.path, component);
      child := new AccessNode(component, curr);
      curr.children := curr.children + [child];
      tree := AddChild(tree, curr.path, component);
      nodes := nodes[child.path := child];
      ChildShown(curr, child, component);
    }

    method SetMode(curr: AccessNode, mode: Rules.Mode)
      requires Valid() && Here(curr)
      modifies this, nodes.Values
      ensures Valid() && nodes == old(nodes)
      ensures tree == old(tree)[curr.path := old(tree)[curr.path].(mode := mode)]
    {
      hide Shows, WellFormed;
      Local(curr);
      ModeWell(tree, curr.path, mode);
      curr.mode := mode;
      tree := tree[curr.path := tree[curr.path].(mode := mode)];
      ModeShown(curr);
    }

    /** `ToAccessRule`. */
    method ToAccessRule() returns (rules: seq<Rule>)
      requires Valid()
      ensures rules == List(tree, [])
    {
      hide Shows, Parented, Distinct, List;
      RootHere();
      rules := CollectRules(root, []);
      assert [] + List(tree, []) == List(tree, []);
    }

    /** `toAccessRule`: a node's rule, then its children's, appended to what was collected. */
    method CollectRules(node: AccessNode, before: seq<Rule>) returns (rules: seq<Rule>)
      requires Valid() && Here(node)
      ensures rules == before + List(tree, node.path)
      decreases |NodesAt(tree, node.path)|
    {
      hide Shows, Parented, Listed, Distinct, List, ListKids, NodesAt;
      Local(node);
      Listing.ListSplits(tree, node.path);
      rules := before;
      if node.mode != Nil {
        rules := rules + [Rule(node.FullPath(), node.mode)];
      }
      Listing.NoKids(tree, node.path);
      if node.HasChild() {
        var i := 0;
        while i < |node.children|
          invariant 0 <= i <= |node.children|
          invariant rules == before + Own(tree, node.path) + ListKids(tree, node.path, i)
        {
          Kid(node, i);
          Listing.KidsSplit(tree, node.path, i + 1);
          FewerBelow(tree, node.path, tree[node.path].kids[i]);
          rules := CollectRules(node.children[i], rules);
          i := i + 1;
        }
      }
    }
  }
}
