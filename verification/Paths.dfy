/** Node paths as sequences of components, and the option type the other modules share.
    A path is what remains of a slash-separated string once `path.Clean`, `path.Join` and
    `strings.Split` have done their work; `[]` is the root "/". */
module Paths {
  datatype Option<+T> = None | Some(value: T)

  type Path = seq<string>

  function Parent(p: Path): Path
    requires p != []
  {
    p[..|p| - 1]
  }

  function Last(p: Path): string
    requires p != []
  {
    p[|p| - 1]
  }

  /** All prefixes of `p`, from the root to `p` itself. */
  ghost function Prefixes(p: Path): (r: set<Path>)
    ensures forall q :: q in r <==> q <= p
  {
    assert forall q | q <= p :: q == p[..|q|];
    set i | 0 <= i <= |p| :: p[..i]
  }

  /** The entries of a flat key map that sit at or below `p` are dropped. */
  ghost function Drop(m: map<Path, string>, p: Path): map<Path, string> {
    map k | k in m && !(p <= k) :: m[k]
  }

  /** No key lies strictly below another one. */
  ghost predicate PrefixFree(m: map<Path, string>) {
    forall p, q :: p in m && q in m && p <= q ==> p == q
  }

  lemma Fewer<T>(a: set<T>, b: set<T>)
    requires a <= b
    ensures |a| <= |b|
  {
    assert b == a + (b - a);
  }

  lemma Strict(p: Path, q: Path)
    requires p <= q && p != q
    ensures p < q
  {
  }

  lemma SameChild(p: Path, c: string, q: Path, d: string)
    requires p + [c] == q + [d]
    ensures p == q && c == d
  {
    assert p == (p + [c])[..|p|] && q == (q + [d])[..|q|];
    assert c == (p + [c])[|p|];
  }

  lemma StepDown(p: Path, c: string, q: Path)
    ensures p + [c] <= q <==> p < q && q[|p|] == c
  {
  }

  lemma PrefixOfChild(q: Path, p: Path, c: string)
    ensures q <= p + [c] <==> q == p + [c] || q <= p
  {
  }

  /** The strict prefixes of `p`. */
  ghost function Above(p: Path): (r: set<Path>)
    ensures forall q :: q in r <==> q < p
  {
    assert forall q | q < p :: q == p[..|q|];
    set i | 0 <= i < |p| :: p[..i]
  }

  lemma PrefixesStep(p: Path, c: string)
    ensures Above(p + [c]) == Prefixes(p) == Above(p) + {p}
    ensures Prefixes(p + [c]) == Prefixes(p) + {p + [c]}
  {
    forall q
      ensures q in Prefixes(p) <==> q in Above(p) + {p}
    {
      if q in Prefixes(p) && q != p {
        Strict(q, p);
      }
    }
    forall q
      ensures q in Above(p + [c]) <==> q in Prefixes(p)
    {
      PrefixOfChild(q, p, c);
      if q in Prefixes(p) {
        Strict(q, p + [c]);
      }
    }
    forall q
      ensures q in Prefixes(p + [c]) <==> q in Prefixes(p) + {p + [c]}
    {
      PrefixOfChild(q, p, c);
    }
  }

  /** Two prefixes of one path are comparable. */
  lemma PrefixesCompare(a: Path, b: Path, p: Path)
    requires a <= p && b <= p
    ensures a <= b || b <= a
    ensures |a| <= |b| ==> a <= b
  {
  }
}
