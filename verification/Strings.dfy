/** Slash-separated strings: `strings.Split`, and the components the path-walking loops visit. */
module Strings {
  import opened Paths

  /** The position of the first slash, or the length of `s`. */
  function SlashIndex(s: string): (i: nat)
    ensures i <= |s| && '/' !in s[..i] && (i < |s| ==> s[i] == '/')
  {
    if s == "" || s[0] == '/' then 0 else
      assert s[..1 + SlashIndex(s[1..])] == [s[0]] + s[1..][..SlashIndex(s[1..])];
      1 + SlashIndex(s[1..])
  }

  /** `strings.Split(s, "/")`. */
  function Split(s: string): seq<string>
    decreases |s|
  {
    var i := SlashIndex(s);
    if i == |s| then [s] else [s[..i]] + Split(s[i + 1..])
  }

  function NonBlank(p: seq<string>): (r: seq<string>)
    ensures forall c :: c in r ==> c in p && c != ""
  {
    if p == [] then [] else (if p[0] == "" then [] else [p[0]]) + NonBlank(p[1..])
  }

  /** The path a string leads along: blank components are skipped. */
  function PathOf(s: string): Path {
    NonBlank(Split(s))
  }

  /** The string of a path, each component after a slash. */
  function Key(p: Path): string {
    if p == [] then "" else Key(Parent(p)) + "/" + Last(p)
  }

  /** No component contains a slash. */
  ghost predicate Plain(p: Path) {
    forall c :: c in p ==> '/' !in c
  }

  /** The components of a string that starts with a slash. */
  function Comps(s: string): Path {
    if s == "" then [] else Split(s[1..])
  }

  lemma KeyCons(c: string, p: Path)
    ensures Key([c] + p) == "/" + c + Key(p)
  {
    if p == [] {
      assert [c] + p == [] + [c];
      assert Parent([c]) == [];
    } else {
      var d := Parent(p);
      assert p == d + [Last(p)];
      KeyCons(c, d);
      assert Parent([c] + p) == [c] + d;
    }
  }

  lemma {:induction false} SplitPlain(s: string)
    ensures Plain(Split(s)) && Split(s) != [] && Key(Split(s)) == "/" + s
    decreases |s|
  {
    hide Key;
    var i := SlashIndex(s);
    if i == |s| {
      assert s[..i] == s;
      KeyCons(s, []);
      KeyStarts([]);
      assert [s] + [] == [s];
    } else {
      SplitPlain(s[i + 1..]);
      KeyCons(s[..i], Split(s[i + 1..]));
      assert s == s[..i] + ("/" + s[i + 1..]);
      assert "/" + s[..i] + ("/" + s[i + 1..]) == "/" + s;
    }
  }

  lemma {:induction false} SlashAt(c: string, x: string)
    requires '/' !in c && (x == "" || x[0] == '/')
    ensures SlashIndex(c + x) == |c|
    decreases |c|
  {
    if |c| == 0 {
      assert c + x == x;
    } else {
      assert (c + x)[1..] == c[1..] + x && (c + x)[0] == c[0];
      SlashAt(c[1..], x);
    }
  }

  /** A longer string has its first slash where a shorter one had it. */
  lemma {:induction false} SameSlash(a: string, b: string)
    requires a <= b && SlashIndex(a) < |a|
    ensures SlashIndex(b) == SlashIndex(a)
    decreases |a|
  {
  }

  lemma KeyStarts(p: Path)
    ensures p != [] ==> Key(p) != "" && Key(p)[0] == '/'
    ensures p == [] ==> Key(p) == ""
  {
  }

  /** A plain path can be read back from its string. */
  lemma {:induction false} CompsKey(p: Path)
    requires Plain(p)
    ensures Comps(Key(p)) == p
    decreases |p|
  {
    if p != [] {
      var c, q := p[0], p[1..];
      assert p == [c] + q;
      KeyCons(c, q);
      KeyStarts(q);
      SlashAt(c, Key(q));
      assert Key(p)[1..] == c + Key(q);
      if q == [] {
        assert c + Key(q) == c;
      } else {
        CompsKey(q);
        assert (c + Key(q))[..|c|] == c && (c + Key(q))[|c| + 1..] == Key(q)[1..];
      }
    }
  }

  /** Every string that starts with a slash is the string of a plain path. */
  lemma KeyComps(s: string)
    requires s != "" && s[0] == '/'
    ensures Plain(Comps(s)) && Comps(s) != [] && Key(Comps(s)) == s
  {
    SplitPlain(s[1..]);
    assert s == "/" + s[1..];
  }

  /** One path leads on from another exactly when its string goes on with a slash. */
  lemma {:induction false} KeyPrefix(b: Path, p: Path)
    requires Plain(b) && Plain(p)
    ensures Key(b) + "/" <= Key(p) <==> b < p
    decreases |b|
  {
    hide Key;
    KeyStarts(p);
    if b == [] {
      KeyStarts(b);
    } else if p == [] {
      KeyStarts(b);
    } else {
      var c, x, d, y := b[0], b[1..], p[0], p[1..];
      assert b == [c] + x && p == [d] + y;
      KeyCons(c, x);
      KeyCons(d, y);
      KeyPrefix(x, y);
      KeyStarts(y);
      KeyStarts(x);
      assert Key(x) != "" ==> (Key(x) + "/")[0] == Key(x)[0];
      HeadMatch(c, Key(x) + "/", d, Key(y));
      assert Key(b) + "/" == "/" + (c + (Key(x) + "/")) && Key(p) == "/" + (d + Key(y));
      Slashed(c + (Key(x) + "/"), d + Key(y));
      ConsPrefix(c, x, d, y);
    }
  }

  lemma ConsPrefix(c: string, x: Path, d: string, y: Path)
    ensures [c] + x < [d] + y <==> c == d && x < y
  {
    if [c] + x < [d] + y {
      assert c == ([c] + x)[0] == ([d] + y)[0];
      assert x == ([c] + x)[1..] && y == ([d] + y)[1..];
    }
  }

  lemma Slashed(a: string, b: string)
    ensures "/" + a <= "/" + b <==> a <= b
  {
    if "/" + a <= "/" + b {
      assert a == ("/" + a)[1..] && b == ("/" + b)[1..];
    }
  }

  lemma HeadMatch(c: string, x: string, d: string, y: string)
    requires '/' !in c && '/' !in d && x != "" && x[0] == '/' && (y == "" || y[0] == '/')
    ensures c + x <= d + y <==> c == d && x <= y
  {
    if c + x <= d + y {
      SlashAt(c, x);
      SlashAt(d, y);
      SameSlash(c + x, d + y);
      assert c == (c + x)[..|c|] == (d + y)[..|c|] == d;
      assert x == (c + x)[|c|..] && y == (d + y)[|c|..];
    }
  }

  lemma {:induction false} KeyAppend(a: Path, b: Path)
    ensures Key(a + b) == Key(a) + Key(b)
    decreases |b|
  {
    if b == [] {
      assert a + b == a;
    } else {
      KeyAppend(a, Parent(b));
      assert Parent(a + b) == a + Parent(b) && Last(a + b) == Last(b);
    }
  }
}
