/** Nested values: what `Get` answers and `Put` accepts, a string or a map from names to values.
    A nested value is read by path, so that it can be compared with a flat key map. */
module Values {
  import opened Paths

  datatype Val = Leaf(value: string) | Dir(entries: map<string, Val>)

  function Find(m: map<Path, string>, p: Path): Option<string> {
    if p in m then Some(m[p]) else None
  }

  lemma SameFinds(m: map<Path, string>, n: map<Path, string>)
    requires forall p :: Find(m, p) == Find(n, p)
    ensures m == n
  {
    forall p
      ensures p in m <==> p in n
      ensures p in m ==> m[p] == n[p]
    {
      assert Find(m, p) == Find(n, p);
    }
  }

  function Lookup(v: Val, p: Path): Option<string>
    decreases |p|
  {
    match v
    case Leaf(s) => if p == [] then Some(s) else None
    case Dir(m) => if p == [] || p[0] !in m then None else Lookup(m[p[0]], p[1..])
  }

  /** No empty map below the top. */
  ghost predicate Pruned(v: Val) {
    v.Dir? ==> forall c :: c in v.entries ==> v.entries[c] != Dir(map[]) && Pruned(v.entries[c])
  }

  /** A pruned value other than the empty map holds at least one string. */
  lemma {:induction false} SomethingInside(v: Val) returns (p: Path)
    requires Pruned(v) && v != Dir(map[])
    ensures Lookup(v, p).Some?
  {
    if v.Leaf? {
      p := [];
    } else {
      var c :| c in v.entries;
      var q := SomethingInside(v.entries[c]);
      p := [c] + q;
      assert p[1..] == q;
    }
  }

  /** A pruned value is determined by what it answers for every path. */
  lemma {:induction false} SameAnswers(v: Val, w: Val)
    requires Pruned(v) && Pruned(w)
    requires forall p :: Lookup(v, p) == Lookup(w, p)
    ensures v == w
  {
    assert Lookup(v, []) == Lookup(w, []);
    if v.Dir? {
      EntriesKept(v, w);
      EntriesKept(w, v);
      forall c | c in v.entries
        ensures v.entries[c] == w.entries[c]
      {
        forall q
          ensures Lookup(v.entries[c], q) == Lookup(w.entries[c], q)
        {
          assert ([c] + q)[1..] == q;
          assert Lookup(v, [c] + q) == Lookup(w, [c] + q);
        }
        SameAnswers(v.entries[c], w.entries[c]);
      }
      assert v.entries == w.entries;
    }
  }

  lemma EntriesKept(v: Val, w: Val)
    requires Pruned(v) && v.Dir? && w.Dir?
    requires forall p :: Lookup(v, p) == Lookup(w, p)
    ensures v.entries.Keys <= w.entries.Keys
  {
    forall c | c in v.entries
      ensures c in w.entries
    {
      var p := EntryInside(v, c);
      assert Lookup(v, p) == Lookup(w, p);
    }
  }

  lemma EntryInside(v: Val, c: string) returns (p: Path)
    requires Pruned(v) && v.Dir? && c in v.entries
    ensures p != [] && p[0] == c && Lookup(v, p).Some?
  {
    var q := SomethingInside(v.entries[c]);
    p := [c] + q;
    assert p[1..] == q;
  }

  function PathsOf(v: Val): set<Path> {
    match v
    case Leaf(_) => {[]}
    case Dir(m) => set c, q | c in m && q in PathsOf(m[c]) :: [c] + q
  }

  lemma {:induction false} PathsOfLookup(v: Val, p: Path)
    ensures p in PathsOf(v) <==> Lookup(v, p).Some?
    decreases |p|
  {
    if v.Dir? {
      if p == [] {
        assert forall c: string, q: Path :: [c] + q != [];
      } else {
        assert p == [p[0]] + p[1..];
        assert forall c: string, q: Path :: [c] + q == p ==> c == p[0] && q == p[1..] by {
          forall c: string, q: Path | [c] + q == p
            ensures c == p[0] && q == p[1..]
          {
            assert ([c] + q)[1..] == q;
          }
        }
        if p[0] in v.entries {
          PathsOfLookup(v.entries[p[0]], p[1..]);
        }
      }
    }
  }

  /** The flat key map of a nested value; empty maps leave no trace. */
  function Flatten(v: Val): (r: map<Path, string>)
    ensures forall p :: Find(r, p) == Lookup(v, p)
  {
    assert forall p :: p in PathsOf(v) <==> Lookup(v, p).Some? by {
      forall p ensures p in PathsOf(v) <==> Lookup(v, p).Some? { PathsOfLookup(v, p); }
    }
    map p | p in PathsOf(v) :: Lookup(v, p).value
  }

  /** The keys of a nested value never nest. */
  lemma {:induction false} LookupPrefixFree(v: Val, p: Path, q: Path)
    requires Lookup(v, p).Some? && Lookup(v, q).Some? && p <= q
    ensures p == q
    decreases |p|
  {
    if v.Dir? {
      assert p[0] == q[0] && p[1..] <= q[1..];
      LookupPrefixFree(v.entries[p[0]], p[1..], q[1..]);
      assert p == [p[0]] + p[1..] && q == [q[0]] + q[1..];
    }
  }
}
