/** The list of rules read back from a rule tree (`ToAccessRule`), and what building a tree from
    that list gives. */
module Listing {
  import opened Paths
  import opened Rules

  // ---- What is listed --------------------------------------------------------------------------

  ghost predicate Named(t: RuleTree, p: Path, r: Rule) {
    r.path in t && p <= r.path && t[r.path].mode == r.mode && r.mode != Nil
  }

  ghost predicate Through(p: Path, kids: seq<string>, q: Path) {
    p < q && q[|p|] in kids
  }

  lemma {:induction false} Upward(t: RuleTree, p: Path, q: Path)
    requires [] in t && Parented(t) && q in t && p <= q
    ensures p in t
    decreases |q|
  {
    if p != q {
      Strict(p, q);
      Upward(t, p, Parent(q));
    }
  }

  /** A node strictly below `p` is reached through one of the children of `p`. */
  lemma {:induction false} ByChild(t: RuleTree, p: Path, q: Path)
    requires [] in t && Parented(t) && q in t && p < q
    ensures p in t && Through(p, t[p].kids, q) && p + [q[|p|]] in t && p + [q[|p|]] <= q
    decreases |q|
  {
    var k := p + [q[|p|]];
    Upward(t, p, q);
    assert k == q[..|p| + 1];
    Upward(t, k, q);
    assert Parent(k) == p && Last(k) == q[|p|];
  }

  lemma {:induction false} ListIs(t: RuleTree, p: Path, r: Rule)
    requires WellFormed(t) && p in t
    ensures r in List(t, p) <==> Named(t, p, r)
    decreases |NodesAt(t, p)|, |t[p].kids| + 1
  {
    hide Parented, Listed, Distinct;
    ListKidsIs(t, p, |t[p].kids|, r);
    assert t[p].kids[..|t[p].kids|] == t[p].kids;
    if Named(t, p, r) && r.path != p {
      Strict(p, r.path);
      ByChild(t, p, r.path);
    }
  }

  lemma {:induction false} ListKidsIs(t: RuleTree, p: Path, i: nat, r: Rule)
    requires WellFormed(t) && p in t && i <= |t[p].kids|
    ensures r in ListKids(t, p, i) <==> Named(t, p, r) && Through(p, t[p].kids[..i], r.path)
    decreases |NodesAt(t, p)|, i
  {
    hide Parented, Listed, Distinct, List, NodesAt;
    if i > 0 {
      var c := t[p].kids[i - 1];
      ListKidsIs(t, p, i - 1, r);
      KidIn(t, p, c);
      FewerBelow(t, p, c);
      ListIs(t, p + [c], r);
      assert t[p].kids[..i] == t[p].kids[..i - 1] + [c];
      StepDown(p, c, r.path);
    }
  }

  lemma KidIn(t: RuleTree, p: Path, c: string)
    requires Listed(t) && p in t && c in t[p].kids
    ensures p + [c] in t
  {
  }

  lemma {:induction false} ListDistinct(t: RuleTree, p: Path)
    requires WellFormed(t) && p in t
    ensures DistinctPaths(List(t, p))
    decreases |NodesAt(t, p)|, |t[p].kids| + 1
  {
    hide Parented, Listed, Distinct, List, NodesAt;
    ListKidsDistinct(t, p, |t[p].kids|);
    ListSplits(t, p);
    forall r, x | r in Own(t, p) && x in ListKids(t, p, |t[p].kids|)
      ensures r.path != x.path
    {
      ListKidsIs(t, p, |t[p].kids|, x);
    }
    Joined(Own(t, p), ListKids(t, p, |t[p].kids|));
  }

  lemma ListSplits(t: RuleTree, p: Path)
    requires WellFormed(t) && p in t
    ensures List(t, p) == Own(t, p) + ListKids(t, p, |t[p].kids|)
  {
  }

  lemma NoKids(t: RuleTree, p: Path)
    requires WellFormed(t) && p in t
    ensures ListKids(t, p, 0) == []
  {
  }

  lemma KidsSplit(t: RuleTree, p: Path, i: nat)
    requires WellFormed(t) && p in t && 0 < i <= |t[p].kids|
    ensures p + [t[p].kids[i - 1]] in t
    ensures ListKids(t, p, i) == ListKids(t, p, i - 1) + List(t, p + [t[p].kids[i - 1]])
  {
  }

  lemma NextKid(kids: seq<string>, i: nat)
    requires Distinct(kids) && 0 < i <= |kids|
    ensures kids[..i] == kids[..i - 1] + [kids[i - 1]] && kids[i - 1] !in kids[..i - 1]
  {
  }

  lemma {:induction false} ListKidsDistinct(t: RuleTree, p: Path, i: nat)
    requires WellFormed(t) && p in t && i <= |t[p].kids|
    ensures DistinctPaths(ListKids(t, p, i))
    decreases |NodesAt(t, p)|, i
  {
    hide Parented, Listed, Distinct, List, NodesAt;
    if i > 0 {
      var c := t[p].kids[i - 1];
      KidsSplit(t, p, i);
      FewerBelow(t, p, c);
      ListKidsDistinct(t, p, i - 1);
      ListDistinct(t, p + [c]);
      NextKid(t[p].kids, i);
      forall r, x | r in ListKids(t, p, i - 1) && x in List(t, p + [c])
        ensures r.path != x.path
      {
        ListKidsIs(t, p, i - 1, r);
        ListIs(t, p + [c], x);
        StepDown(p, c, x.path);
      }
      Joined(ListKids(t, p, i - 1), List(t, p + [c]));
    }
  }

  lemma Joined(a: seq<Rule>, b: seq<Rule>)
    requires DistinctPaths(a) && DistinctPaths(b)
    requires forall r, x :: r in a && x in b ==> r.path != x.path
    ensures DistinctPaths(a + b)
  {
  }

  /** Reading the rules back gives the last mode of every path that has one, each path once. */
  lemma ReadBack(rules: seq<Rule>, r: Rule)
    ensures WellFormed(Build(rules))
    ensures r in List(Build(rules), []) <==> r.mode != Nil && LastMode(rules, r.path) == r.mode
    ensures DistinctPaths(List(Build(rules), []))
  {
    hide BuildOnto, Parented, Listed, Distinct;
    BuildWell(rules);
    ListIs(Build(rules), [], r);
    ListDistinct(Build(rules), []);
    BuildKeys(rules, r.path);
    if r.path in Build(rules) {
      BuildMode(rules, r.path);
    } else {
      NoMode(rules, r.path);
    }
  }

  // ---- Building again --------------------------------------------------------------------------

  /** Some rule with a mode lies at or below `q`. */
  ghost predicate Live(t: RuleTree, q: Path) {
    exists r :: r in t && q <= r && t[r].mode != Nil
  }

  ghost function LiveKids(t: RuleTree, p: Path, i: nat): seq<string>
    requires p in t && i <= |t[p].kids|
  {
    if i == 0 then []
    else LiveKids(t, p, i - 1) + if Live(t, p + [t[p].kids[i - 1]]) then [t[p].kids[i - 1]] else []
  }

  /** The tree without the nodes that lead to no rule. */
  ghost function Prune(t: RuleTree): RuleTree {
    map p | p in t && (p == [] || Live(t, p)) :: PrunedEntry(t, p)
  }

  ghost function PrunedEntry(t: RuleTree, p: Path): Entry
    requires p in t
  {
    Entry(t[p].mode, LiveKids(t, p, |t[p].kids|))
  }

  ghost function Grafted(t: RuleTree, p: Path, i: nat): set<Path>
    requires p in t && i <= |t[p].kids|
  {
    set q | q in t && Live(t, q) && Through(p, t[p].kids[..i], q)
  }

  /** `u` with the part of the pruned tree at `p`, up to its first `i` children, put in. */
  ghost function Graft(u: RuleTree, t: RuleTree, p: Path, i: nat): RuleTree
    requires p in t && i <= |t[p].kids|
  {
    map q | q in u.Keys + Grafted(t, p, i) ::
      if q == p then Entry(t[p].mode, LiveKids(t, p, i))
      else if q in u then u[q]
      else if q in t then PrunedEntry(t, q) else Entry(Nil, [])
  }

  /** A tree that ends at `p`, with nothing known of `p` yet. */
  ghost predicate Ready(u: RuleTree, p: Path) {
    && [] in u && UpClosed(u) && p in u && u[p] == Entry(Nil, [])
    && forall q :: q in u ==> !(p < q)
  }

  lemma {:induction false} Onto(t: RuleTree, a: seq<Rule>, b: seq<Rule>)
    requires [] in t
    ensures BuildOnto(t, a + b) == BuildOnto(BuildOnto(t, a), b)
    decreases |b|
  {
    if b == [] {
      assert a + b == a;
    } else {
      Onto(t, a, b[..|b| - 1]);
      assert (a + b)[..|a + b| - 1] == a + b[..|b| - 1];
    }
  }

  lemma OntoNone(t: RuleTree)
    requires [] in t
    ensures BuildOnto(t, []) == t
  {
  }

  lemma {:induction false} WalkUp(t: RuleTree, p: Path)
    requires [] in t && UpClosed(t)
    ensures UpClosed(Walk(t, p))
    ensures p in t ==> Walk(t, p) == t
    decreases |p|
  {
    if p != [] {
      var d := Parent(p);
      assert p == d + [Last(p)] && d <= p;
      WalkUp(t, d);
      forall r, q | q in Walk(t, p) && r <= q
        ensures r in Walk(t, p)
      {
        if q == p {
          PrefixOfChild(r, d, Last(p));
        }
      }
    }
  }

  /** Walking to `q` passes through `k`. */
  lemma {:induction false} WalkVia(t: RuleTree, k: Path, q: Path)
    requires [] in t && UpClosed(t) && k <= q
    ensures Walk(Walk(t, k), q) == Walk(t, q)
    decreases |q|
  {
    if k == q {
      WalkUp(t, k);
      WalkUp(Walk(t, k), k);
    } else {
      Strict(k, q);
      assert q == Parent(q) + [Last(q)];
      PrefixOfChild(k, Parent(q), Last(q));
      WalkVia(t, k, Parent(q));
    }
  }

  /** The first rule below `k` brings `k` in. */
  lemma {:induction false} FirstWalk(t: RuleTree, k: Path, rules: seq<Rule>)
    requires [] in t && UpClosed(t) && rules != [] && k <= rules[0].path
    ensures BuildOnto(Walk(t, k), rules) == BuildOnto(t, rules)
    decreases |rules|
  {
    if |rules| == 1 {
      assert rules[..0] == [];
      WalkVia(t, k, rules[0].path);
    } else {
      FirstWalk(t, k, rules[..|rules| - 1]);
    }
  }

  lemma {:induction false} ListOnto(u: RuleTree, t: RuleTree, p: Path)
    requires WellFormed(t) && p in t && Ready(u, p)
    ensures BuildOnto(u, List(t, p)) == Graft(u, t, p, |t[p].kids|)
    decreases |NodesAt(t, p)|, |t[p].kids| + 1
  {
    hide Parented, Listed, Distinct, List, NodesAt, Graft, ListKids;
    ListSplits(t, p);
    Onto(u, Own(t, p), ListKids(t, p, |t[p].kids|));
    OwnOnto(u, t, p);
    KidsOnto(u, t, p, |t[p].kids|);
  }

  lemma OwnOnto(u: RuleTree, t: RuleTree, p: Path)
    requires p in t && Ready(u, p)
    ensures BuildOnto(u, Own(t, p)) == Graft(u, t, p, 0)
  {
    WalkUp(u, p);
    if t[p].mode != Nil {
      assert Own(t, p)[..0] == [];
    }
    assert Graft(u, t, p, 0) == u[p := Entry(t[p].mode, [])];
  }

  lemma {:induction false} KidsOnto(u: RuleTree, t: RuleTree, p: Path, i: nat)
    requires WellFormed(t) && p in t && Ready(u, p) && i <= |t[p].kids|
    requires [] in Graft(u, t, p, 0)
    ensures BuildOnto(Graft(u, t, p, 0), ListKids(t, p, i)) == Graft(u, t, p, i)
    decreases |NodesAt(t, p)|, i
  {
    hide Parented, Listed, Distinct, List, ListKids, NodesAt, Graft, Ready, BuildOnto, Walk, UpClosed, Live;
    NoKids(t, p);
    OntoNone(Graft(u, t, p, 0));
    if i > 0 {
      var c := t[p].kids[i - 1];
      var g, k := Graft(u, t, p, i - 1), p + [c];
      KidsSplit(t, p, i);
      FewerBelow(t, p, c);
      Onto(Graft(u, t, p, 0), ListKids(t, p, i - 1), List(t, k));
      KidsOnto(u, t, p, i - 1);
      GraftUp(u, t, p, i - 1);
      if Live(t, k) {
        FirstListed(t, k);
        FirstWalk(g, k, List(t, k));
        NextReady(u, t, p, i);
        ListOnto(Walk(g, k), t, k);
        NextGraft(u, t, p, i);
      } else {
        NothingListed(t, k);
        DeadGraft(u, t, p, i);
        OntoNone(g);
      }
    }
  }

  lemma FirstListed(t: RuleTree, k: Path)
    requires WellFormed(t) && k in t && Live(t, k)
    ensures List(t, k) != [] && k <= List(t, k)[0].path
  {
    var r :| r in t && k <= r && t[r].mode != Nil;
    ListIs(t, k, Rule(r, t[r].mode));
    ListIs(t, k, List(t, k)[0]);
  }

  lemma NothingListed(t: RuleTree, k: Path)
    requires WellFormed(t) && k in t && !Live(t, k)
    ensures List(t, k) == []
  {
    if List(t, k) != [] {
      ListIs(t, k, List(t, k)[0]);
    }
  }

  lemma GraftUp(u: RuleTree, t: RuleTree, p: Path, i: nat)
    requires WellFormed(t) && p in t && Ready(u, p) && i <= |t[p].kids|
    ensures [] in Graft(u, t, p, i) && UpClosed(Graft(u, t, p, i))
  {
    var g := Graft(u, t, p, i);
    forall r, q | q in g && r <= q
      ensures r in g
    {
      if q !in u {
        PrefixesCompare(p, r, q);
        Upward(t, r, q);
        if r <= p {
          assert r in u;
        } else {
          Strict(p, r);
          assert Live(t, r);
        }
      }
    }
  }

  lemma LiveAbove(t: RuleTree, k: Path, q: Path)
    requires k <= q && Live(t, q)
    ensures Live(t, k)
  {
  }

  lemma DeadGraft(u: RuleTree, t: RuleTree, p: Path, i: nat)
    requires WellFormed(t) && p in t && Ready(u, p) && 0 < i <= |t[p].kids|
    requires !Live(t, p + [t[p].kids[i - 1]])
    ensures Graft(u, t, p, i) == Graft(u, t, p, i - 1)
  {
    hide Parented, Listed, Distinct, Live, Ready;
    NextKid(t[p].kids, i);
    forall q
      ensures q in Grafted(t, p, i) <==> q in Grafted(t, p, i - 1)
    {
      StepDown(p, t[p].kids[i - 1], q);
      if q in Grafted(t, p, i) && q !in Grafted(t, p, i - 1) {
        LiveAbove(t, p + [t[p].kids[i - 1]], q);
      }
    }
    assert Grafted(t, p, i) == Grafted(t, p, i - 1);
    assert LiveKids(t, p, i) == LiveKids(t, p, i - 1);
  }

  /** Where the walk to the next child ends. */
  lemma NextWalk(u: RuleTree, t: RuleTree, p: Path, i: nat)
    requires WellFormed(t) && p in t && Ready(u, p) && 0 < i <= |t[p].kids|
    ensures var g, c := Graft(u, t, p, i - 1), t[p].kids[i - 1];
            && [] in g && p in g && p + [c] !in g
            && Walk(g, p + [c]) == g[p := g[p].(kids := g[p].kids + [c])][p + [c] := Entry(Nil, [])]
  {
    hide Parented, Listed, Distinct, Live, UpClosed, Grafted;
    var g, c := Graft(u, t, p, i - 1), t[p].kids[i - 1];
    GraftUp(u, t, p, i - 1);
    assert p + [c] <= p + [c];
    if p + [c] in g {
      NotYet(u, t, p, i, p + [c]);
    }
    assert Parent(p + [c]) == p && Last(p + [c]) == c;
    WalkUp(g, p);
  }

  lemma NextReady(u: RuleTree, t: RuleTree, p: Path, i: nat)
    requires WellFormed(t) && p in t && Ready(u, p) && 0 < i <= |t[p].kids|
    requires [] in Graft(u, t, p, i - 1)
    ensures Ready(Walk(Graft(u, t, p, i - 1), p + [t[p].kids[i - 1]]), p + [t[p].kids[i - 1]])
  {
    hide Parented, Listed, Distinct, Live, Walk, UpClosed, Graft, Grafted;
    var g, c := Graft(u, t, p, i - 1), t[p].kids[i - 1];
    var k := p + [c];
    NextWalk(u, t, p, i);
    GraftUp(u, t, p, i - 1);
    WalkUp(g, k);
    var w := Walk(g, k);
    assert k in w && w[k] == Entry(Nil, []);
    assert w.Keys == g.Keys + {k};
    forall q | q in w
      ensures !(k < q)
    {
      if q in g { NotYet(u, t, p, i, q); }
    }
  }

  lemma NotYet(u: RuleTree, t: RuleTree, p: Path, i: nat, q: Path)
    requires WellFormed(t) && p in t && Ready(u, p) && 0 < i <= |t[p].kids|
    requires q in Graft(u, t, p, i - 1)
    ensures !(p + [t[p].kids[i - 1]] <= q)
  {
  }

  lemma GraftedStep(t: RuleTree, p: Path, i: nat, k: Path)
    requires WellFormed(t) && p in t && 0 < i <= |t[p].kids|
    requires k == p + [t[p].kids[i - 1]] && k in t && Live(t, k)
    ensures Grafted(t, p, i) == Grafted(t, p, i - 1) + {k} + Grafted(t, k, |t[k].kids|)
  {
    hide Parented, Listed, Distinct, Live;
    NextKid(t[p].kids, i);
    assert t[k].kids[..|t[k].kids|] == t[k].kids;
    forall q
      ensures q in Grafted(t, p, i) <==> q in Grafted(t, p, i - 1) + {k} + Grafted(t, k, |t[k].kids|)
    {
      StepDown(p, t[p].kids[i - 1], q);
      if q in t && k <= q && q != k {
        Strict(k, q);
        ByChild(t, k, q);
      }
      assert k <= k;
    }
  }

  lemma NextGraft(u: RuleTree, t: RuleTree, p: Path, i: nat)
    requires WellFormed(t) && p in t && Ready(u, p) && 0 < i <= |t[p].kids|
    requires [] in Graft(u, t, p, i - 1) && p + [t[p].kids[i - 1]] in t && Live(t, p + [t[p].kids[i - 1]])
    ensures var k := p + [t[p].kids[i - 1]];
            Graft(Walk(Graft(u, t, p, i - 1), k), t, k, |t[k].kids|) == Graft(u, t, p, i)
  {
    hide Parented, Listed, Distinct, Live, Walk, Ready, Grafted;
    var g, c := Graft(u, t, p, i - 1), t[p].kids[i - 1];
    var k := p + [c];
    NextWalk(u, t, p, i);
    GraftedStep(t, p, i, k);
    ReadyThere(u, p);
    assert k != p;
    var w := Walk(g, k);
    var a, b := Graft(w, t, k, |t[k].kids|), Graft(u, t, p, i);
    assert w.Keys == g.Keys + {k};
    assert a.Keys == b.Keys;
    forall q | q in b.Keys
      ensures a[q] == b[q]
    {
      if q in Grafted(t, k, |t[k].kids|) {
        InGrafted(t, k, |t[k].kids|, q);
      }
      if q in Grafted(t, p, i - 1) {
        InGrafted(t, p, i - 1, q);
      }
    }
  }

  lemma ReadyThere(u: RuleTree, p: Path)
    requires Ready(u, p)
    ensures p in u && u[p] == Entry(Nil, []) && forall c :: p + [c] !in u
  {
  }

  lemma InGrafted(t: RuleTree, p: Path, i: nat, q: Path)
    requires p in t && i <= |t[p].kids| && q in Grafted(t, p, i)
    ensures q in t && p < q
  {
  }

  /** Building a tree from the list read back gives the same tree, less the nodes that lead to no
      rule. */
  lemma BuiltAgain(t: RuleTree)
    requires WellFormed(t)
    ensures Build(List(t, [])) == Prune(t)
  {
    hide Parented, Listed, Distinct, Live, BuildOnto, List;
    assert Ready(BARE, []);
    ListOnto(BARE, t, []);
    var kids := t[[]].kids;
    assert kids[..|kids|] == kids;
    forall q | q in t && q != []
      ensures Through([], kids, q)
    {
      assert [] < q;
      ByChild(t, [], q);
    }
    assert Graft(BARE, t, [], |kids|) == Prune(t);
  }

  /** Pruning changes no list. */
  lemma {:induction false} PrunedList(t: RuleTree, p: Path)
    requires WellFormed(t) && WellFormed(Prune(t)) && p in t && p in Prune(t)
    ensures List(Prune(t), p) == List(t, p)
    decreases |NodesAt(t, p)|, |t[p].kids| + 1
  {
    hide Parented, Listed, Distinct, Live, List, NodesAt, ListKids;
    ListSplits(t, p);
    ListSplits(Prune(t), p);
    PrunedKids(t, p, |t[p].kids|);
    PrunedTake(t, p, |t[p].kids|);
  }

  lemma {:induction false} PrunedTake(t: RuleTree, p: Path, i: nat)
    requires p in t && i <= |t[p].kids|
    ensures |LiveKids(t, p, i)| <= |LiveKids(t, p, |t[p].kids|)|
    ensures LiveKids(t, p, i) == LiveKids(t, p, |t[p].kids|)[..|LiveKids(t, p, i)|]
    decreases |t[p].kids| - i
  {
    if i < |t[p].kids| {
      PrunedTake(t, p, i + 1);
    }
  }

  lemma {:induction false} PrunedKids(t: RuleTree, p: Path, i: nat)
    requires WellFormed(t) && WellFormed(Prune(t)) && p in t && p in Prune(t) && i <= |t[p].kids|
    ensures |LiveKids(t, p, i)| <= |Prune(t)[p].kids|
    ensures ListKids(Prune(t), p, |LiveKids(t, p, i)|) == ListKids(t, p, i)
    decreases |NodesAt(t, p)|, i
  {
    hide Parented, Listed, Distinct, Live, List, NodesAt;
    PrunedTake(t, p, i);
    if i > 0 {
      var c := t[p].kids[i - 1];
      var k, n := p + [c], |LiveKids(t, p, i)|;
      KidsSplit(t, p, i);
      FewerBelow(t, p, c);
      PrunedKids(t, p, i - 1);
      if Live(t, k) {
        assert Prune(t)[p].kids[n - 1] == LiveKids(t, p, i)[n - 1] == c;
        KidsSplit(Prune(t), p, n);
        PrunedList(t, k);
      } else {
        NothingListed(t, k);
      }
    }
  }

  /** The list read back, built into a tree and read back again, is the same list. */
  lemma ListAgain(rules: seq<Rule>)
    ensures WellFormed(Build(rules)) && WellFormed(Build(List(Build(rules), [])))
    ensures List(Build(List(Build(rules), [])), []) == List(Build(rules), [])
  {
    hide Parented, Listed, Distinct, Live, BuildOnto, List;
    BuildWell(rules);
    var t := Build(rules);
    BuildWell(List(t, []));
    BuiltAgain(t);
    PrunedList(t, []);
  }

  /** With no rule of mode `Nil` nothing is lost: the very same tree is built again. */
  lemma SameTree(rules: seq<Rule>)
    requires forall r :: r in rules ==> r.mode != Nil
    ensures WellFormed(Build(rules)) && Build(List(Build(rules), [])) == Build(rules)
  {
    hide Parented, Listed, Distinct, BuildOnto, List;
    BuildWell(rules);
    var t := Build(rules);
    BuiltAgain(t);
    forall p | p in t && p != []
      ensures Live(t, p)
    {
      BuildKeys(rules, p);
      var r :| r in rules && p <= r.path;
      BuildKeys(rules, r.path);
      BuildMode(rules, r.path);
      GivenMode(rules, r);
    }
    forall p | p in t
      ensures PrunedEntry(t, p) == t[p]
    {
      AllLive(t, p, |t[p].kids|);
    }
    assert Prune(t) == t;
  }

  lemma {:induction false} AllLive(t: RuleTree, p: Path, i: nat)
    requires WellFormed(t) && p in t && i <= |t[p].kids| && forall q :: q in t && q != [] ==> Live(t, q)
    ensures LiveKids(t, p, i) == t[p].kids[..i]
    decreases i
  {
    hide Live, Parented, Listed, Distinct;
    if i > 0 {
      var c := t[p].kids[i - 1];
      KidIn(t, p, c);
      AllLive(t, p, i - 1);
      assert Live(t, p + [c]);
      assert t[p].kids[..i] == t[p].kids[..i - 1] + [c];
    }
  }
}
