/** What a rule tree lets a traveller see: which rule node a data path matches, which mode is in
    force there, and which paths can be entered. */
module Grants {
  import opened Paths
  import opened Rules

  const WILDCARD := "*"

  /** The child for one component: the exact name before the wildcard. */
  ghost function Child(t: RuleTree, a: Path, c: string): Option<Path> {
    if a + [c] in t then Some(a + [c])
    else if a + [WILDCARD] in t then Some(a + [WILDCARD])
    else None
  }

  /** The rule node a path is matched to, component by component and without backtracking. */
  ghost function Match(t: RuleTree, p: Path): (r: Option<Path>)
    requires [] in t
    ensures r.Some? ==> r.value in t && |r.value| == |p|
    decreases |p|
  {
    if p == [] then Some([])
    else
      match Match(t, Parent(p))
      case None => None
      case Some(a) => Child(t, a, Last(p))
  }

  ghost function OwnMode(t: RuleTree, p: Path): Mode
    requires [] in t
  {
    match Match(t, p)
    case None => Nil
    case Some(a) => t[a].mode
  }

  /** The mode in force at `p`. */
  ghost function Mode(t: RuleTree, p: Path): Rules.Mode
    requires [] in t
    decreases |p|
  {
    if p == [] || OwnMode(t, p) != Nil then OwnMode(t, p) else Mode(t, Parent(p))
  }

  /** One step into `p` is let through. */
  ghost predicate Allowed(t: RuleTree, p: Path)
    requires [] in t && p != []
  {
    match Match(t, p)
    case Some(a) => t[a].kids != [] || t[a].mode == Read
    case None => Mode(t, Parent(p)) == Read
  }

  /** Every step on the way from `base` to `p` is let through. */
  ghost predicate Open(t: RuleTree, base: Path, p: Path)
    requires [] in t
  {
    forall r :: base < r && r in Prefixes(p) ==> Allowed(t, r)
  }

  /** Some rule lies strictly below the node `p` is matched to, or reading is in force at `p`. */
  ghost predicate Granted(t: RuleTree, p: Path)
    requires [] in t
  {
    (Match(t, p).Some? && exists q :: q in t && Match(t, p).value < q) || Mode(t, p) == Read
  }

  /** No rule was given the mode `Nil`: every node but the root has a mode or leads to one. */
  ghost predicate Given(t: RuleTree) {
    forall p :: p in t && p != [] ==> t[p].mode != Nil || t[p].kids != []
  }

  // ---- What a path is matched to -----------------------------------------------------------------

  /** `a` is `p` with some components replaced by "*", each where no rule node has the component itself. */
  ghost predicate Matches(t: RuleTree, p: Path, a: Path) {
    && a in t && |a| == |p|
    && forall i :: 0 <= i < |p| ==> a[i] == p[i] || (a[i] == "*" && a[..i] + [p[i]] !in t)
  }

  /** The rule node is the one of that form, and there is none exactly if no node has it. */
  lemma {:induction false} MatchExactly(t: RuleTree, p: Path)
    requires WellFormed(t)
    ensures forall a :: Match(t, p) == Some(a) <==> Matches(t, p, a)
    ensures Match(t, p) == None <==> forall a :: !Matches(t, p, a)
    decreases |p|
  {
    hide Listed, Distinct;
    if p == [] {
      assert forall a: Path :: Matches(t, p, a) <==> a == [];
    } else {
      var d, c := Parent(p), Last(p);
      MatchExactly(t, d);
      assert p == d + [c];
      forall a
        ensures Matches(t, p, a) <==> a != [] && Matches(t, d, Parent(a)) && Child(t, Parent(a), c) == Some(a)
      {
        MatchesLast(t, d, c, a);
      }
      if Match(t, p).Some? {
        assert Match(t, d).Some? && Parent(Match(t, p).value) == Match(t, d).value;
      }
    }
  }

  lemma MatchesLast(t: RuleTree, d: Path, c: string, a: Path)
    requires WellFormed(t)
    ensures Matches(t, d + [c], a) <==> a != [] && Matches(t, d, Parent(a)) && Child(t, Parent(a), c) == Some(a)
  {
    hide Listed, Distinct;
    if a != [] && |a| == |d| + 1 {
      var b := Parent(a);
      assert a == b + [Last(a)] && a[..|d|] == b;
      assert forall i :: 0 <= i < |d| ==> (d + [c])[i] == d[i] && a[i] == b[i] && a[..i] == b[..i];
      assert (d + [c])[|d|] == c && a[|d|] == Last(a);
      assert Child(t, b, c) == Some(a) <==> a in t && (Last(a) == c || (Last(a) == "*" && b + [c] !in t)) by {
        if b + [c] == a { assert (b + [c])[|b|] == c; }
      }
    }
  }

  // ---- The mode in force -----------------------------------------------------------------------

  /** The mode in force is the deepest one on the matched chain. */
  lemma {:induction false} DeepestMode(t: RuleTree, p: Path, r: Path)
    requires [] in t && r <= p && forall s :: s in Prefixes(p) && r < s ==> OwnMode(t, s) == Nil
    ensures OwnMode(t, r) != Nil || r == [] ==> Mode(t, p) == OwnMode(t, r)
    decreases |p|
  {
    if p != r {
      Strict(r, p);
      assert p in Prefixes(p);
      var d := Parent(p);
      assert p == d + [Last(p)];
      PrefixOfChild(r, d, Last(p));
      forall s | s in Prefixes(d) && r < s
        ensures OwnMode(t, s) == Nil
      {
        assert d <= p && s in Prefixes(p);
      }
      DeepestMode(t, d, r);
    }
  }

  // ---- What can be entered ---------------------------------------------------------------------

  lemma KidsBelow(t: RuleTree, a: Path)
    requires WellFormed(t) && a in t
    ensures t[a].kids != [] <==> exists q :: q in t && a < q
  {
    if t[a].kids != [] {
      assert t[a].kids[0] in t[a].kids;
      assert a + [t[a].kids[0]] in t && a < a + [t[a].kids[0]];
    }
    if q :| q in t && a < q {
      ChildOf(t, a, q);
    }
  }

  lemma {:induction false} ChildOf(t: RuleTree, a: Path, q: Path)
    requires WellFormed(t) && q in t && a < q
    ensures a in t && t[a].kids != []
    decreases |q|
  {
    var d := Parent(q);
    assert q == d + [Last(q)];
    PrefixOfChild(a, d, Last(q));
    assert Last(q) in t[d].kids;
    if a != d {
      Strict(a, d);
      ChildOf(t, a, d);
    }
  }

  /** `p` is matched to a node that a rule gave the mode `Nil` and that leads to no other. */
  ghost predicate Dead(t: RuleTree, p: Path)
    requires [] in t
  {
    Match(t, p).Some? && t[Match(t, p).value] == Entry(Nil, [])
  }

  lemma AllowedIsGranted(t: RuleTree, p: Path)
    requires WellFormed(t) && p != []
    ensures Allowed(t, p) <==> Granted(t, p) && !Dead(t, p)
  {
    if Match(t, p).Some? {
      KidsBelow(t, Match(t, p).value);
    }
  }

  /** What is granted further down is granted on the way. */
  lemma GrantedAbove(t: RuleTree, p: Path)
    requires WellFormed(t) && p != [] && Parent(p) != [] && Granted(t, p)
    ensures Granted(t, Parent(p))
  {
  }

  /** A path can be entered exactly when it is granted and no step leads to a dead end. */
  lemma {:induction false} OpenGenerally(t: RuleTree, base: Path, p: Path)
    requires WellFormed(t) && base <= p
    ensures Open(t, base, p) <==>
              p == base || (Granted(t, p) && forall r :: r in Prefixes(p) && base < r ==> !Dead(t, r))
    decreases |p|
  {
    hide Parented, Listed, Distinct, Granted, Allowed, Dead;
    if p == base {
      assert forall r :: r in Prefixes(p) ==> !(base < r);
    } else {
      Strict(base, p);
      OpenStep(t, base, p);
      AllowedIsGranted(t, p);
      var d := Parent(p);
      assert p == d + [Last(p)];
      PrefixOfChild(base, d, Last(p));
      PrefixesStep(d, Last(p));
      OpenGenerally(t, base, d);
      if Granted(t, p) && d != [] {
        GrantedAbove(t, p);
      }
    }
  }

  /** Without rules of mode `Nil`, nothing on the way need be looked at. */
  lemma OpenExactly(t: RuleTree, base: Path, p: Path)
    requires WellFormed(t) && Given(t) && base <= p
    ensures Open(t, base, p) <==> p == base || Granted(t, p)
  {
    hide Parented, Listed, Distinct, Granted, Open;
    OpenGenerally(t, base, p);
    forall r | r in Prefixes(p) && base < r
      ensures !Dead(t, r)
    {
      assert Match(t, r).Some? ==> Match(t, r).value != [];
    }
  }

  lemma OpenStep(t: RuleTree, base: Path, p: Path)
    requires [] in t && base < p
    ensures Open(t, base, p) <==> Open(t, base, Parent(p)) && Allowed(t, p)
  {
    var d := Parent(p);
    assert p == d + [Last(p)];
    PrefixesStep(d, Last(p));
  }

  lemma MatchStep(t: RuleTree, p: Path, c: string)
    requires [] in t
    ensures Match(t, p + [c]) == match Match(t, p) case None => None case Some(a) => Child(t, a, c)
    ensures Mode(t, p + [c]) == if OwnMode(t, p + [c]) != Nil then OwnMode(t, p + [c]) else Mode(t, p)
    ensures Allowed(t, p + [c]) ==
              match Match(t, p + [c])
              case Some(a) => t[a].kids != [] || t[a].mode == Read
              case None => Mode(t, p) == Read
  {
  }

  /** Entering in two stages is entering at once. */
  lemma OpenCompose(t: RuleTree, base: Path, mid: Path, p: Path)
    requires [] in t && base <= mid && mid <= p
    ensures Open(t, base, p) <==> Open(t, base, mid) && Open(t, mid, p)
  {
  }

  lemma OpenHere(t: RuleTree, p: Path)
    requires [] in t
    ensures Open(t, p, p)
  {
  }

  lemma OpenChild(t: RuleTree, p: Path, c: string)
    requires [] in t
    ensures Open(t, p, p + [c]) <==> Allowed(t, p + [c])
  {
    hide Allowed;
    assert p + [c] in Prefixes(p + [c]);
    forall r | r in Prefixes(p + [c]) && p < r
      ensures r == p + [c]
    {
      PrefixOfChild(r, p, c);
    }
  }

  /** Matching depends on the nodes and their modes alone. */
  lemma {:induction false} SameMatch(t: RuleTree, u: RuleTree, p: Path)
    requires WellFormed(t) && WellFormed(u) && SameLookups(t, u)
    ensures Match(t, p) == Match(u, p) && Mode(t, p) == Mode(u, p)
    ensures Granted(t, p) == Granted(u, p) && (p != [] ==> Allowed(t, p) == Allowed(u, p))
    decreases |p|
  {
    if p != [] {
      SameMatch(t, u, Parent(p));
      if Match(t, p).Some? {
        KidsBelow(t, Match(t, p).value);
        KidsBelow(u, Match(t, p).value);
      }
    }
  }

  // ---- Particular rules --------------------------------------------------------------------------

  /** Rules other than `Nil` leave no node without a mode that leads to none. */
  lemma RulesGiven(rules: seq<Rule>)
    requires forall r :: r in rules ==> r.mode != Nil
    ensures WellFormed(Build(rules)) && Given(Build(rules))
  {
    hide WellFormed, BuildOnto;
    BuildWell(rules);
    var t := Build(rules);
    forall p | p in t && p != [] && t[p].mode == Nil
      ensures t[p].kids != []
    {
      BuildKeys(rules, p);
      var r :| r in rules && p <= r.path;
      BuildKeys(rules, r.path);
      BuildMode(rules, p);
      if p == r.path {
        GivenMode(rules, r);
      }
      Strict(p, r.path);
      ChildOf(t, p, r.path);
    }
  }

  lemma {:induction false} ExactMatch(t: RuleTree, p: Path)
    requires WellFormed(t) && p in t
    ensures Match(t, p) == Some(p)
    decreases |p|
  {
    hide Listed, Distinct;
    if p != [] {
      ExactMatch(t, Parent(p));
      assert p == Parent(p) + [Last(p)];
    }
  }

  ghost predicate AllRead(rules: seq<Rule>) {
    forall r :: r in rules ==> r.mode == Read
  }

  lemma {:induction false} ReadModes(rules: seq<Rule>, p: Path)
    requires AllRead(rules)
    ensures LastMode(rules, p) == if exists r :: r in rules && r.path == p then Read else Nil
    decreases |rules|
  {
    if rules != [] {
      ReadModes(rules[..|rules| - 1], p);
      assert forall r :: r in rules <==> r in rules[..|rules| - 1] || r == rules[|rules| - 1];
    }
  }

  /** With read rules only, everything at and below a rule's path is granted, also where one rule's
      path lies below another's and whatever wildcards there are. */
  lemma {:induction false} ReadBelow(rules: seq<Rule>, link: Rule, p: Path)
    requires AllRead(rules) && link in rules && link.path <= p
    ensures WellFormed(Build(rules)) && Mode(Build(rules), p) == Read && Granted(Build(rules), p)
    decreases |p|
  {
    hide WellFormed, BuildOnto;
    BuildWell(rules);
    var t := Build(rules);
    if p == link.path {
      BuildKeys(rules, p);
      ExactMatch(t, p);
    } else {
      Strict(link.path, p);
      var d := Parent(p);
      assert p == d + [Last(p)];
      PrefixOfChild(link.path, d, Last(p));
      ReadBelow(rules, link, d);
    }
    if Match(t, p).Some? {
      BuildMode(rules, Match(t, p).value);
      ReadModes(rules, Match(t, p).value);
    }
  }

  /** A rule of mode `Nil` that leads to no other cuts off what is granted from above. */
  lemma NilRuleCutsOff()
    ensures var t := Build([Rule([], Read), Rule(["a"], Nil)]);
            WellFormed(t) && Granted(t, ["a"]) && !Open(t, [], ["a"])
  {
    hide Parented, Listed, Distinct, BuildOnto, Match, Mode;
    var a: Path := ["a"];
    var rules := [Rule([], Read), Rule(a, Nil)];
    var t := Build(rules);
    BuildWell(rules);
    BuildKeys(rules, a);
    assert rules[1] in rules && a <= rules[1].path;
    BuildMode(rules, a);
    BuildMode(rules, []);
    assert rules[..1] == [Rule([], Read)];
    assert LastMode(rules, a) == Nil && LastMode(rules, []) == Read;
    ExactMatch(t, a);
    ExactMatch(t, []);
    forall q | q in t && a < q
      ensures false
    {
      BuildKeys(rules, q);
    }
    KidsBelow(t, a);
    assert [] + ["a"] == a;
    MatchStep(t, [], "a");
    assert Mode(t, []) == Read by { TopMode(t); }
    OpenChild(t, [], "a");
  }

  lemma TopMode(t: RuleTree)
    requires [] in t
    ensures Mode(t, []) == t[[]].mode
  {
  }

  // ---- The rules of the documentation --------------------------------------------------------------

  /** docs/api.md, "Access rule path description". */
  ghost function DocumentedRules(): seq<Rule> {
    [Rule([], Forbidden), Rule(["clusters"], Read), Rule(["clusters", "*", "env"], Forbidden),
     Rule(["clusters", "cl-1"], Read)]
  }

  /** What they mean: everything under "clusters", except the "env" of any cluster but "cl-1". */
  ghost predicate DocumentedOpen(p: Path) {
    p == [] || (p[0] == "clusters" && (|p| < 3 || p[1] == "cl-1" || p[2] != "env"))
  }

  lemma FourModes(a: Rule, b: Rule, c: Rule, d: Rule, p: Path)
    ensures LastMode([a, b, c, d], p) ==
              if d.path == p then d.mode else if c.path == p then c.mode else if b.path == p then b.mode
              else if a.path == p then a.mode else Nil
  {
    assert [a, b, c, d][..3] == [a, b, c] && [a, b, c][..2] == [a, b] && [a, b][..1] == [a] && [a][..0] == [];
    assert LastMode([a], p) == if a.path == p then a.mode else Nil;
    assert LastMode([a, b], p) == if b.path == p then b.mode else LastMode([a], p);
  }

  lemma DocumentedNodes()
    ensures var t := Build(DocumentedRules());
            && t.Keys == {[], ["clusters"], ["clusters", "*"], ["clusters", "*", "env"], ["clusters", "cl-1"]}
            && t[[]].mode == Forbidden && t[["clusters"]].mode == Read && t[["clusters", "*"]].mode == Nil
            && t[["clusters", "*", "env"]].mode == Forbidden && t[["clusters", "cl-1"]].mode == Read
  {
    hide BuildOnto, LastMode;
    var rules := DocumentedRules();
    var t := Build(rules);
    var nodes: set<Path> := {[], ["clusters"], ["clusters", "*"], ["clusters", "*", "env"], ["clusters", "cl-1"]};
    forall p
      ensures p in t <==> p in nodes
    {
      BuildKeys(rules, p);
      DocumentedPrefix(p);
    }
    assert t.Keys == nodes;
    forall p | p in nodes
      ensures t[p].mode == LastMode(rules, p)
    {
      BuildMode(rules, p);
      FourModes(rules[0], rules[1], rules[2], rules[3], p);
    }
    forall p
      ensures LastMode(rules, p) ==
                if p == ["clusters", "cl-1"] then Read else if p == ["clusters", "*", "env"] then Forbidden
                else if p == ["clusters"] then Read else if p == [] then Forbidden else Nil
    {
      FourModes(rules[0], rules[1], rules[2], rules[3], p);
    }
    assert t[[]].mode == LastMode(rules, []);
    assert t[["clusters"]].mode == LastMode(rules, ["clusters"]);
    assert t[["clusters", "*"]].mode == LastMode(rules, ["clusters", "*"]);
  }

  lemma DocumentedPrefix(p: Path)
    ensures p in {[], ["clusters"], ["clusters", "*"], ["clusters", "*", "env"], ["clusters", "cl-1"]} <==>
              p == [] || exists r :: r in DocumentedRules() && p <= r.path
  {
    var rules := DocumentedRules();
    assert rules[0] in rules && rules[1] in rules && rules[2] in rules && rules[3] in rules;
    var long, short: Path := ["clusters", "*", "env"], ["clusters", "cl-1"];
    assert long[..1] == ["clusters"] == short[..1] && long[..2] == ["clusters", "*"] && short[..2] == short;
    assert p <= long ==> p == long[..|p|];
    assert p <= short ==> p == short[..|p|];
    assert long[..3] == long;
    forall r | r in rules && p <= r.path
      ensures p <= long || p <= short
    {
    }
  }

  ghost predicate Documented(t: RuleTree) {
    && WellFormed(t)
    && t.Keys == {[], ["clusters"], ["clusters", "*"], ["clusters", "*", "env"], ["clusters", "cl-1"]}
    && t[[]].mode == Forbidden && t[["clusters"]].mode == Read && t[["clusters", "*"]].mode == Nil
    && t[["clusters", "*", "env"]].mode == Forbidden && t[["clusters", "cl-1"]].mode == Read
  }

  ghost function DocumentedMatch(q: Path): Option<Path> {
    if |q| == 0 then Some([])
    else if q[0] != "clusters" then None
    else if |q| == 1 then Some(["clusters"])
    else if |q| == 2 then Some(if q[1] == "cl-1" then ["clusters", "cl-1"] else ["clusters", "*"])
    else if |q| == 3 && q[1] != "cl-1" && q[2] == "env" then Some(["clusters", "*", "env"])
    else None
  }

  lemma MatchDocumented(t: RuleTree, q: Path)
    requires Documented(t)
    ensures Match(t, q) == DocumentedMatch(q)
  {
    hide WellFormed, Match;
    MatchExactly(t, q);
    assert t.Keys == {[], ["clusters"], ["clusters", "*"], ["clusters", "*", "env"], ["clusters", "cl-1"]};
    forall a
      ensures Matches(t, q, a) <==> DocumentedMatch(q) == Some(a)
    {
      MatchesDocumented(t, q, a);
    }
  }

  lemma MatchesDocumented(t: RuleTree, q: Path, a: Path)
    requires t.Keys == {[], ["clusters"], ["clusters", "*"], ["clusters", "*", "env"], ["clusters", "cl-1"]}
    ensures Matches(t, q, a) <==> DocumentedMatch(q) == Some(a)
  {
    if a in t && |a| == |q| && q != [] {
      assert a[..0] + [q[0]] == [q[0]] && a[0] == "clusters";
      if |a| >= 2 { assert a[..1] + [q[1]] == ["clusters", q[1]]; }
      if |a| == 3 { assert a[..2] + [q[2]] == ["clusters", "*", q[2]]; }
    }
  }

  lemma GrantedDocumented(t: RuleTree, p: Path)
    requires Documented(t) && p != []
    ensures Granted(t, p) <==> DocumentedOpen(p)
  {
    hide WellFormed, Match, Mode;
    forall q
      ensures Match(t, q) == DocumentedMatch(q)
    {
      MatchDocumented(t, q);
    }
    var r :=
      if p[0] != "clusters" then []
      else if |p| == 1 then p
      else if p[1] == "cl-1" then p[..2]
      else if |p| >= 3 && p[2] == "env" then p[..3]
      else p[..1];
    assert r <= p;
    forall s | s in Prefixes(p) && r < s
      ensures OwnMode(t, s) == Nil
    {
      assert s == p[..|s|];
    }
    DeepestMode(t, p, r);
    assert ["clusters"] < ["clusters", "*"] && ["clusters", "*"] < ["clusters", "*", "env"];
    forall q | q in t
      ensures !(["clusters", "cl-1"] < q) && !(["clusters", "*", "env"] < q)
    {
      assert q in t.Keys && (|q| < 3 || (q[1] == "*" && |q| == 3));
      assert ["clusters", "cl-1"][1] == "cl-1" != "*";
    }
  }

  lemma OpenDocumented(p: Path)
    ensures [] in Build(DocumentedRules())
    ensures Open(Build(DocumentedRules()), [], p) <==> DocumentedOpen(p)
  {
    hide BuildOnto, Granted, Open;
    RulesGiven(DocumentedRules());
    DocumentedNodes();
    OpenExactly(Build(DocumentedRules()), [], p);
    if p != [] {
      GrantedDocumented(Build(DocumentedRules()), p);
    }
  }
}
