/** Calls put together: what a client is answered that asks several times, and in several ways. */
module Clients {
  import opened Paths
  import opened Trees
  import opened Values
  import opened Stores
  import opened Access
  import opened Grants
  import opened Travellers
  import Machine
  import Metadata
  import Rules

  /** docs/api.md, "Access rule path description": with these rules a client can enter what there is under
      "/clusters", but not the "env" of any cluster other than "cl-1". */
  method EnterDocumented(store: Store, p: Path) returns (entered: bool)
    requires store.Valid()
    ensures entered <==>
              p in store.tree &&
              (p == [] || (p[0] == "clusters" && (|p| < 3 || p[1] == "cl-1" || p[2] != "env")))
  {
    hide Store.Valid, AccessTree.Valid, Traveller.Valid, Open, Rules.BuildOnto;
    var access := new AccessTree([Rules.Rule([], Rules.Forbidden), Rules.Rule(["clusters"], Rules.Read),
      Rules.Rule(["clusters", "*", "env"], Rules.Forbidden), Rules.Rule(["clusters", "cl-1"], Rules.Read)]);
    var traveller := new Traveller(store, access);
    OpenDocumented(p);
    assert [] + p == p;
    entered := traveller.Enter(p);
  }

  /** With one rule, to read everything, a traveller is shown at any place what `Get` answers there. */
  method ReadEverything(store: Store, p: Path) returns (found: bool, v: Val, w: Option<Val>)
    requires store.Valid()
    ensures found <==> p in store.tree
    ensures found ==> v == if w == None then Dir(map[]) else w.value
  {
    hide Store.Valid, AccessTree.Valid, Traveller.Valid, Visible, Lookup, Find, Pruned, Open, Shown, Rules.BuildOnto;
    var access := new AccessTree([Rules.Rule([], Rules.Read)]);
    var traveller := new Traveller(store, access);
    access.RootHere();
    OpenEverywhere(p);
    assert [] + p == p;
    found := traveller.Enter(p);
    v := Leaf("");
    if found {
      v := traveller.GetValue();
      assert traveller.currNode.path == p && traveller.store == store && traveller.access == access;
    }
    var _, val := store.Get(p);
    w := val;
    if found {
      NothingInside();
      EverythingRead(Visible(store.tree), p, v, if w == None then Dir(map[]) else w.value);
    }
  }

  /** At the top `root` has `own` under the name "self", if there is such; everywhere else it is `shown`. */
  ghost predicate WithSelf(at: Path, root: Val, own: Option<Val>, shown: Val) {
    && (at == [] && own.Some? ==>
          && root.Dir? && "self" in root.entries
          && forall q :: Lookup(root, ["self"] + q) == Lookup(own.value, q))
    && (forall q :: !(at == [] && own.Some? && q != [] && q[0] == "self") ==> Lookup(root, q) == Lookup(shown, q))
  }

  /** What `Root` answers is what a traveller with the client's rules is shown, and at the top the client's
      own names under "self". */
  method RootAndSelf(repo: Metadata.MetadataRepo, clientIP: string, at: Path)
    returns (root: Option<Val>, own: Option<Val>, shown: Option<Val>)
    requires repo.Ready(clientIP)
    ensures root.Some? <==> shown.Some?
    ensures root.Some? ==> WithSelf(at, root.value, own, shown.value)
  {
    hide Metadata.MetadataRepo.SelfOf, Metadata.MetadataRepo.SelfAnswers, AccessTree.Valid, Metadata.NoMap;
    hide Metadata.MetadataRepo.TreeFor, Metadata.RootAnswer, Store.Valid, Visible, Lookup, Find, Shown, Open;
    hide Machine.ProperOps, WithSelf, Metadata.MetadataRepo.Ready, Metadata.Answer;
    DataThere(repo, clientIP);
    shown := None;
    var access := repo.GetAccessTree(clientIP);
    if access != null {
      access.RootHere();
      shown := ShownTo(repo.data, access, at);
    }
    own := repo.Self(clientIP, []);
    var _, r := repo.Root(clientIP, at);
    root := r;
    if access != null {
      RootTold(repo, clientIP, at, access.tree, root, own, shown);
    }
  }

  lemma DataThere(repo: Metadata.MetadataRepo, clientIP: string)
    requires repo.Ready(clientIP)
    ensures repo.data.Valid()
  {
  }

  lemma RootTold(repo: Metadata.MetadataRepo, clientIP: string, at: Path, u: Rules.RuleTree,
                 root: Option<Val>, own: Option<Val>, shown: Option<Val>)
    requires repo.Ready(clientIP) && repo.TreeFor(clientIP, u) && [] in u
    requires clientIP in repo.accessTrees || !Metadata.NoMap(Visible(repo.mapping.tree), clientIP)
    requires exists t :: [] in t && repo.TreeFor(clientIP, t) &&
               Metadata.RootAnswer(t, repo.data.tree, Visible(repo.mapping.tree), clientIP, at, root)
    requires own.Some? <==> repo.SelfAnswers(clientIP, [])
    requires forall q :: Metadata.Answer(own, q) == repo.SelfOf(clientIP, [] + q)
    requires shown.Some? <==> at in repo.data.tree && Open(u, [], at)
    requires shown.Some? ==>
               forall q :: Lookup(shown.value, q) == Find(Shown(u, at, Visible(repo.data.tree)), at + q)
    ensures root.Some? <==> shown.Some?
    ensures root.Some? ==> WithSelf(at, root.value, own, shown.value)
  {
    hide Metadata.MetadataRepo.SelfOf, Metadata.MetadataRepo.SelfAnswers, Metadata.MetadataRepo.Ready;
    hide Metadata.MetadataRepo.TreeFor, Metadata.RootAnswer, Metadata.NoMap, WithSelf;
    hide Visible, Lookup, Find, Shown, Open;
    var t :| [] in t && repo.TreeFor(clientIP, t) &&
      Metadata.RootAnswer(t, repo.data.tree, Visible(repo.mapping.tree), clientIP, at, root);
    repo.SameTrees(clientIP, t, u);
    RootWhere(repo, clientIP, at, t, root);
    if shown.Some? {
      RootWhat(repo, clientIP, at, t, u, root, own, shown.value);
    }
  }

  /** What a traveller is shown at a place that it can enter. */
  method ShownTo(store: Store, access: AccessTree, at: Path) returns (shown: Option<Val>)
    requires store.Valid() && access.Valid() && [] in access.tree
    ensures shown.Some? <==> at in store.tree && Open(access.tree, [], at)
    ensures shown.Some? ==>
              forall q :: Lookup(shown.value, q) == Find(Shown(access.tree, at, Visible(store.tree)), at + q)
  {
    hide Store.Valid, AccessTree.Valid, Traveller.Valid, Visible, Lookup, Find, Shown, Open;
    var traveller := new Traveller(store, access);
    assert [] + at == at;
    shown := None;
    var entered := traveller.Enter(at);
    if entered {
      var v := traveller.GetValue();
      shown := Some(v);
    }
  }

  lemma RootWhere(repo: Metadata.MetadataRepo, clientIP: string, at: Path, t: Rules.RuleTree, root: Option<Val>)
    requires [] in t
    requires Metadata.RootAnswer(t, repo.data.tree, Visible(repo.mapping.tree), clientIP, at, root)
    ensures root.Some? <==> at in repo.data.tree && Open(t, [], at)
  {
  }

  lemma RootWhat(repo: Metadata.MetadataRepo, clientIP: string, at: Path, t: Rules.RuleTree, u: Rules.RuleTree,
                 root: Option<Val>, own: Option<Val>, v: Val)
    requires repo.Ready(clientIP) && repo.TreeFor(clientIP, t) && [] in u
    requires clientIP in repo.accessTrees || !Metadata.NoMap(Visible(repo.mapping.tree), clientIP)
    requires Metadata.RootAnswer(t, repo.data.tree, Visible(repo.mapping.tree), clientIP, at, root) && root.Some?
    requires Open(u, [], at) && forall base, m :: Shown(t, base, m) == Shown(u, base, m)
    requires forall q :: Lookup(v, q) == Find(Shown(u, at, Visible(repo.data.tree)), at + q)
    requires own.Some? <==> repo.SelfAnswers(clientIP, [])
    requires forall q :: Metadata.Answer(own, q) == repo.SelfOf(clientIP, [] + q)
    ensures WithSelf(at, root.value, own, v)
  {
    hide Metadata.MetadataRepo.SelfOf, Metadata.MetadataRepo.SelfAnswers, Metadata.MetadataRepo.Ready;
    hide Metadata.SelfFound, Metadata.NoMap, Metadata.LinkTree, Visible, Lookup, Find, Shown, Open;
    var m, data := Visible(repo.mapping.tree), Visible(repo.data.tree);
    TreeThere(repo, clientIP, t);
    repo.MapAnswers(clientIP);
    repo.FoundFreely(clientIP, t);
    if at == [] && own.Some? {
      forall q
        ensures Lookup(root.value, ["self"] + q) == Lookup(own.value, q)
      {
        assert [] + q == q && (["self"] + q)[1..] == q;
        assert Metadata.Answer(own, q) == repo.SelfOf(clientIP, [] + q);
        assert Lookup(root.value, ["self"] + q) == Metadata.RootFound(t, data, m, clientIP, at, ["self"] + q);
      }
    }
    forall q | !(at == [] && own.Some? && q != [] && q[0] == "self")
      ensures Lookup(root.value, q) == Lookup(v, q)
    {
      ShownFrom(u, at, data, q);
      assert Lookup(root.value, q) == Metadata.RootFound(t, data, m, clientIP, at, q);
    }
  }

  lemma TreeThere(repo: Metadata.MetadataRepo, clientIP: string, t: Rules.RuleTree)
    requires repo.TreeFor(clientIP, t)
    ensures [] in t && (clientIP in repo.accessTrees ==> [] in repo.accessTrees[clientIP].tree)
  {
  }

  lemma NothingInside()
    ensures Pruned(Dir(map[])) && forall q :: Lookup(Dir(map[]), q) == None
  {
  }

  /** A client that asks for a path is answered what it finds by asking for everything and descending
      to that path, through nested mappings and on into the linked data. */
  method SelfCommutes(repo: Metadata.MetadataRepo, clientIP: string, p: Path)
    returns (top: Option<Val>, at: Option<Val>)
    requires repo.Ready(clientIP)
    ensures forall q :: Metadata.Answer(at, q) == Metadata.Answer(Metadata.Descend(top, p), q)
  {
    hide Metadata.MetadataRepo.Ready, Metadata.MetadataRepo.SelfOf, Metadata.Answer, Metadata.Descend;
    top := repo.Self(clientIP, []);
    at := repo.Self(clientIP, p);
    forall q
      ensures Metadata.Answer(at, q) == Metadata.Answer(Metadata.Descend(top, p), q)
    {
      Metadata.DescendAnswer(top, p, q);
      assert [] + (p + q) == p + q;
      assert Metadata.Answer(top, p + q) == repo.SelfOf(clientIP, [] + (p + q));
    }
  }
}
