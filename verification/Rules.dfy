/** Access rules as a value: the trie that access.go builds from a list of rules, how a path is
    matched in it, and the list of rules read back from it. */
module Rules {
  import opened Paths

  /** `Nil` is the mode of a node that no rule was given for. */
  datatype Mode = Nil | Forbidden | Read

  datatype Rule = Rule(path: Path, mode: Mode)

  /** One node: its mode and the names of its children, in the order they were appended. */
  datatype Entry = Entry(mode: Mode, kids: seq<string>)

  type RuleTree = map<Path, Entry>

  ghost const BARE: RuleTree := map[[] := Entry(Nil, [])]

  ghost predicate Distinct(s: seq<string>) {
    forall i, j :: 0 <= i < j < |s| ==> s[i] != s[j]
  }

  /** Names and paths agree, and siblings differ. */
  ghost predicate WellFormed(t: RuleTree) {
    [] in t && Parented(t) && Listed(t) && forall p :: p in t ==> Distinct(t[p].kids)
  }

  ghost predicate Parented(t: RuleTree) {
    forall p :: p in t && p != [] ==> Parent(p) in t && Last(p) in t[Parent(p)].kids
  }

  ghost predicate Listed(t: RuleTree) {
    forall p, c :: p in t && c in t[p].kids ==> p + [c] in t
  }

  ghost predicate UpClosed(t: RuleTree) {
    forall p, q :: q in t && p <= q ==> p in t
  }

  // ---- Building ------------------------------------------------------------------------------

  ghost function AddChild(t: RuleTree, p: Path, c: string): RuleTree {
    if p + [c] in t || p !in t then t
    else t[p := t[p].(kids := t[p].kids + [c])][p + [c] := Entry(Nil, [])]
  }

  /** The nodes on the way to `p`, each appended to its parent where it is new. */
  ghost function Walk(t: RuleTree, p: Path): (r: RuleTree)
    requires [] in t
    ensures p in r && t.Keys <= r.Keys
    decreases |p|
  {
    if p == [] then t else
      assert p == Parent(p) + [Last(p)];
      AddChild(Walk(t, Parent(p)), Parent(p), Last(p))
  }

  lemma WalkTop(t: RuleTree)
    requires [] in t
    ensures Walk(t, []) == t
  {
  }

  lemma WalkStep(t: RuleTree, p: Path)
    requires [] in t && p != []
    ensures Walk(t, p) == AddChild(Walk(t, Parent(p)), Parent(p), Last(p))
  {
  }

  ghost function Insert(t: RuleTree, r: Rule): RuleTree
    requires [] in t
  {
    var w := Walk(t, r.path);
    w[r.path := w[r.path].(mode := r.mode)]
  }

  ghost function BuildOnto(t: RuleTree, rules: seq<Rule>): (r: RuleTree)
    requires [] in t
    ensures [] in r
  {
    if rules == [] then t else Insert(BuildOnto(t, rules[..|rules| - 1]), rules[|rules| - 1])
  }

  ghost function Build(rules: seq<Rule>): RuleTree {
    BuildOnto(BARE, rules)
  }

  lemma AddChildWell(t: RuleTree, p: Path, c: string)
    requires WellFormed(t) && p in t
    ensures WellFormed(AddChild(t, p, c)) && p + [c] in AddChild(t, p, c)
  {
    hide Parented, Listed, Distinct;
    if p + [c] !in t {
      NewParented(t, p, c);
      NewListed(t, p, c);
      NewDistinct(t, p, c);
      assert Distinct([]) by { EmptyDistinct(); }
      assert p != p + [c];
    }
  }

  lemma EmptyDistinct()
    ensures Distinct([])
  {
  }

  lemma NewDistinct(t: RuleTree, p: Path, c: string)
    requires p in t && p + [c] !in t && Listed(t) && Distinct(t[p].kids)
    ensures Distinct(t[p].kids + [c])
  {
  }

  lemma NewParented(t: RuleTree, p: Path, c: string)
    requires p in t && p + [c] !in t && Parented(t)
    ensures Parented(AddChild(t, p, c))
  {
  }

  lemma NewListed(t: RuleTree, p: Path, c: string)
    requires p in t && p + [c] !in t && Listed(t)
    ensures Listed(AddChild(t, p, c))
  {
  }

  lemma {:induction false} WalkWell(t: RuleTree, p: Path)
    requires WellFormed(t)
    ensures WellFormed(Walk(t, p))
    ensures Walk(t, p).Keys == t.Keys + Prefixes(p)
    decreases |p|
  {
    hide Parented, Listed, Distinct;
    if p == [] {
      assert Prefixes(p) == {[]};
    } else {
      WalkWell(t, Parent(p));
      AddChildWell(Walk(t, Parent(p)), Parent(p), Last(p));
      assert p == Parent(p) + [Last(p)];
      PrefixesStep(Parent(p), Last(p));
      assert Walk(t, p).Keys == Walk(t, Parent(p)).Keys + {p};
    }
  }

  lemma {:induction false} WalkMode(t: RuleTree, p: Path, q: Path)
    requires [] in t && q in Walk(t, p)
    ensures Walk(t, p)[q].mode == if q in t then t[q].mode else Nil
    decreases |p|
  {
    if p != [] {
      assert p == Parent(p) + [Last(p)];
      if q in Walk(t, Parent(p)) {
        WalkMode(t, Parent(p), q);
      }
    }
  }

  lemma InsertWell(t: RuleTree, r: Rule)
    requires WellFormed(t)
    ensures WellFormed(Insert(t, r)) && Insert(t, r).Keys == t.Keys + Prefixes(r.path)
  {
    hide Distinct;
    WalkWell(t, r.path);
    ModeWell(Walk(t, r.path), r.path, r.mode);
  }

  lemma ModeWell(t: RuleTree, p: Path, m: Mode)
    requires WellFormed(t) && p in t
    ensures WellFormed(t[p := t[p].(mode := m)])
  {
  }

  /** The mode of the last rule given for `p`. */
  ghost function LastMode(rules: seq<Rule>, p: Path): Mode {
    if rules == [] then Nil
    else if rules[|rules| - 1].path == p then rules[|rules| - 1].mode
    else LastMode(rules[..|rules| - 1], p)
  }

  lemma {:induction false} BuildWell(rules: seq<Rule>)
    ensures WellFormed(Build(rules))
    decreases |rules|
  {
    hide WellFormed;
    if rules == [] {
      BareWell();
    } else {
      BuildWell(rules[..|rules| - 1]);
      InsertWell(Build(rules[..|rules| - 1]), rules[|rules| - 1]);
    }
  }

  lemma BareWell()
    ensures WellFormed(BARE)
  {
  }

  lemma {:induction false} BuildKeys(rules: seq<Rule>, p: Path)
    ensures p in Build(rules) <==> p == [] || exists r :: r in rules && p <= r.path
    decreases |rules|
  {
    hide WellFormed, Insert;
    if rules != [] {
      var before, last := rules[..|rules| - 1], rules[|rules| - 1];
      BuildKeys(before, p);
      BuildWell(before);
      InsertWell(Build(before), last);
      assert forall r :: r in rules <==> r == last || r in before;
    }
  }

  lemma {:induction false} BuildMode(rules: seq<Rule>, p: Path)
    requires p in Build(rules)
    ensures Build(rules)[p].mode == LastMode(rules, p)
    decreases |rules|
  {
    if rules != [] {
      var before, last := rules[..|rules| - 1], rules[|rules| - 1];
      WalkMode(Build(before), last.path, p);
      if p in Build(before) {
        BuildMode(before, p);
      } else {
        BuildKeys(before, p);
        NoMode(before, p);
      }
    }
  }

  lemma {:induction false} NoMode(rules: seq<Rule>, p: Path)
    requires forall r :: r in rules ==> !(p <= r.path)
    ensures LastMode(rules, p) == Nil
    decreases |rules|
  {
    if rules != [] {
      var last := rules[|rules| - 1];
      assert last in rules && (last.path == p ==> p <= last.path);
      NoMode(rules[..|rules| - 1], p);
    }
  }

  // ---- The order of the rules ------------------------------------------------------------------

  ghost predicate DistinctPaths(rules: seq<Rule>) {
    forall i, j :: 0 <= i < j < |rules| ==> rules[i].path != rules[j].path
  }

  lemma {:induction false} ModeOf(rules: seq<Rule>, r: Rule)
    requires DistinctPaths(rules) && r in rules
    ensures LastMode(rules, r.path) == r.mode
    decreases |rules|
  {
    var last := rules[|rules| - 1];
    if r != last {
      ModeOf(rules[..|rules| - 1], r);
    }
  }

  /** The nodes of a tree and their modes: all that matching a path can depend on. */
  ghost predicate SameLookups(t: RuleTree, u: RuleTree) {
    t.Keys == u.Keys && forall p :: p in t ==> t[p].mode == u[p].mode
  }

  /** Rules for different paths can be given in any order. */
  lemma AnyOrder(a: seq<Rule>, b: seq<Rule>)
    requires DistinctPaths(a) && DistinctPaths(b) && forall r :: r in a <==> r in b
    ensures SameLookups(Build(a), Build(b))
  {
    hide BuildOnto;
    forall p
      ensures p in Build(a) <==> p in Build(b)
      ensures p in Build(a) ==> Build(a)[p].mode == Build(b)[p].mode
    {
      BuildKeys(a, p);
      BuildKeys(b, p);
      if p in Build(a) {
        BuildMode(a, p);
        BuildMode(b, p);
        if r :| r in a && r.path == p {
          ModeOf(a, r);
          ModeOf(b, r);
        } else {
          NoRule(a, p);
          NoRule(b, p);
        }
      }
    }
  }

  lemma {:induction false} NoRule(rules: seq<Rule>, p: Path)
    requires forall r :: r in rules ==> r.path != p
    ensures LastMode(rules, p) == Nil
    decreases |rules|
  {
    if rules != [] {
      assert rules[|rules| - 1] in rules;
      NoRule(rules[..|rules| - 1], p);
    }
  }

  lemma {:induction false} GivenMode(rules: seq<Rule>, r: Rule)
    requires r in rules && forall x :: x in rules ==> x.mode != Nil
    ensures LastMode(rules, r.path) != Nil
    decreases |rules|
  {
    var last := rules[|rules| - 1];
    if last.path != r.path {
      GivenMode(rules[..|rules| - 1], r);
    }
  }

  // ---- Reading the rules back ------------------------------------------------------------------

  ghost function NodesAt(t: RuleTree, p: Path): set<Path> {
    set q | q in t && p <= q
  }

  lemma FewerBelow(t: RuleTree, p: Path, c: string)
    requires p in t
    ensures |NodesAt(t, p + [c])| < |NodesAt(t, p)|
  {
    assert p in NodesAt(t, p) && p !in NodesAt(t, p + [c]);
    Fewer(NodesAt(t, p + [c]) + {p}, NodesAt(t, p));
  }

  /** The rules in the order `toAccessRule` collects them: a node's own, then its children's. */
  ghost function List(t: RuleTree, p: Path): seq<Rule>
    requires Listed(t) && p in t
    decreases |NodesAt(t, p)|, |t[p].kids| + 1
  {
    Own(t, p) + ListKids(t, p, |t[p].kids|)
  }

  ghost function Own(t: RuleTree, p: Path): seq<Rule>
    requires p in t
  {
    if t[p].mode == Nil then [] else [Rule(p, t[p].mode)]
  }

  ghost function ListKids(t: RuleTree, p: Path, i: nat): seq<Rule>
    requires Listed(t) && p in t && i <= |t[p].kids|
    decreases |NodesAt(t, p)|, i
  {
    if i == 0 then [] else
      FewerBelow(t, p, t[p].kids[i - 1]);
      ListKids(t, p, i - 1) + List(t, p + [t[p].kids[i - 1]])
  }
}
