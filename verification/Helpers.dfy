/** util/helper.go: moving keys under a prefix and back. `path.Join` and `path.Clean` are given by
    components: the non-blank components of their arguments, each after a slash. */
module Helpers {
  import opened Paths
  import opened Strings

  /** The cleaned absolute string of a path. */
  function Text(p: Path): string {
    if p == [] then "/" else Key(p)
  }

  /** `path.Clean(path.Join("/", a, b))`, for components other than "." and "..". */
  function Join(a: string, b: string): string {
    Text(PathOf(a) + PathOf(b))
  }

  /** `unicode.IsSpace`: what `strings.TrimSpace` trims. */
  predicate IsSpace(c: char) {
    || c in " \t\n\r" || c == '\U{0B}' || c == '\U{0C}' || c == '\U{85}' || c == '\U{A0}' || c == '\U{1680}'
    || '\U{2000}' <= c <= '\U{200A}' || c == '\U{2028}' || c == '\U{2029}' || c == '\U{202F}' || c == '\U{205F}'
    || c == '\U{3000}'
  }

  /** `strings.TrimSpace` leaves nothing. */
  predicate IsBlank(s: string) {
    forall c :: c in s ==> IsSpace(c)
  }

  function AppendPathPrefix(nodePath: string, prefix: string): string {
    if IsBlank(nodePath) then nodePath else Join(prefix, nodePath)
  }

  function TrimPathPrefix(nodePath: string, prefix: string): string {
    var p := Join("/", prefix);
    if p == "/" then nodePath
    else if p == nodePath then "/"
    else
      var n := Join("/", nodePath);
      var rest := if p + "/" <= n then n[|p| + 1..] else n;
      Join("/", rest)
  }

  /** Components as paths have them. */
  ghost predicate Proper(p: Path) {
    Plain(p) && forall c :: c in p ==> c != ""
  }

  lemma ProperJoin(p: Path, q: Path)
    requires Proper(p) && Proper(q)
    ensures Proper(p + q)
  {
  }

  lemma {:induction false} SplitProper(s: string)
    ensures Proper(PathOf(s))
  {
    SplitPlain(s);
  }

  lemma {:induction false} NonBlankProper(p: Path)
    requires Proper(p)
    ensures NonBlank(p) == p
    decreases |p|
  {
    if p != [] {
      assert p[0] in p && p == [p[0]] + p[1..];
      assert forall c :: c in p[1..] ==> c in p;
      NonBlankProper(p[1..]);
    }
  }

  /** A proper path is what its string leads along. */
  lemma PathOfText(p: Path)
    requires Proper(p)
    ensures PathOf(Text(p)) == p
  {
    if p == [] {
      assert Split("/") == ["", ""] by {
        assert Split("") == [""];
        assert "/"[1..] == "";
      }
      assert NonBlank(["", ""]) == NonBlank([""]) == [];
    } else {
      KeyStarts(p);
      CompsKey(p);
      NonBlankProper(p);
      var s := Key(p);
      assert SlashIndex(s) == 0 && s[..0] == "" && s[0 + 1..] == s[1..];
      assert Split(s) == [""] + p;
      assert ([""] + p)[1..] == p;
    }
  }

  lemma TextDiffers(p: Path, q: Path)
    requires Proper(p) && Proper(q)
    ensures Text(p) == Text(q) <==> p == q
  {
    PathOfText(p);
    PathOfText(q);
  }

  /** Trimming cuts the prefix off exactly the keys below it, component by component; a key that
      merely begins with the same text stays whole. The prefix itself becomes "/" only if it is
      given in clean form, and under the root nothing is cleaned. */
  lemma TrimExactly(nodePath: string, prefix: string)
    ensures var p, n := PathOf(prefix), PathOf(nodePath);
            TrimPathPrefix(nodePath, prefix) ==
              if p == [] then nodePath
              else if nodePath == Text(p) then "/"
              else Text(if p < n then n[|p|..] else n)
  {
    hide Key, Split, NonBlank;
    var p, n := PathOf(prefix), PathOf(nodePath);
    SplitProper(prefix);
    SplitProper(nodePath);
    PathOfText([]);
    assert [] + p == p && [] + n == n && PathOf("/") == [];
    TextDiffers(p, []);
    if p != [] && nodePath != Text(p) {
      KeyPrefix(p, n);
      if p < n {
        var rest := n[|p|..];
        assert n == p + rest;
        RestText(p, rest);
        assert [] + rest == rest;
      } else {
        PathOfText(n);
        KeyStarts(p);
      }
    }
  }

  /** A key given in clean form loses the prefix exactly if it is at or below it. */
  lemma TrimClean(nodePath: string, prefix: string)
    requires nodePath == Text(PathOf(nodePath))
    ensures var p, n := PathOf(prefix), PathOf(nodePath);
            TrimPathPrefix(nodePath, prefix) == Text(if p <= n then n[|p|..] else n)
  {
    hide Key, Split, NonBlank;
    var p, n := PathOf(prefix), PathOf(nodePath);
    TrimExactly(nodePath, prefix);
    SplitProper(prefix);
    SplitProper(nodePath);
    TextDiffers(p, n);
    if p <= n && p != n {
      Strict(p, n);
    }
  }

  /** A trailing slash keeps the prefix from being cut off its own key. */
  lemma UncleanKeyStays()
    ensures TrimPathPrefix("/a/", "/a") == "/a" && TrimPathPrefix("/a", "/a") == "/"
  {
    hide Key, Split, NonBlank;
    var p: Path := ["a"];
    assert PathOf("/a") == p && PathOf("/a/") == p by { APath(); }
    TrimExactly("/a/", "/a");
    TrimExactly("/a", "/a");
    assert Text(p) == "/a" by { APath(); }
  }

  lemma APath()
    ensures PathOf("/a") == ["a"] && PathOf("/a/") == ["a"] && Text(["a"]) == "/a"
  {
    assert Split("a") == ["a"] && Split("") == [""];
    assert "/a"[1..] == "a" && "/a"[..0] == "" && SlashIndex("/a") == 0;
    assert Split("/a") == [""] + Split("a");
    assert "/a/"[1..] == "a/" && "/a/"[..0] == "" && SlashIndex("/a/") == 0;
    assert SlashIndex("a/") == 1 && "a/"[..1] == "a" && "a/"[2..] == "";
    assert Split("a/") == ["a"] + Split("");
    assert Split("/a/") == [""] + Split("a/") == ["", "a", ""];
    assert Key(["a"]) == Key([]) + "/" + "a";
  }

  /** What remains of a string after a prefix and a slash leads along the remaining components. */
  lemma RestText(p: Path, rest: Path)
    requires Proper(p + rest) && p != [] && rest != []
    ensures Key(p) + "/" <= Key(p + rest) && PathOf(Key(p + rest)[|Key(p)| + 1..]) == rest
  {
    hide Key, Split;
    KeyAppend(p, rest);
    KeyStarts(rest);
    assert forall c :: c in rest ==> c in p + rest;
    CompsKey(rest);
    NonBlankProper(rest);
    assert Key(p + rest)[|Key(p)| + 1..] == Key(rest)[1..];
  }

  /** A blank string is a path of one component, or of none. */
  lemma BlankPath(s: string)
    requires IsBlank(s)
    ensures PathOf(s) == if s == "" then [] else [s]
  {
    assert '/' !in s;
    SlashAt(s, "");
    assert s + "" == s;
    assert Split(s) == [s] && [s][1..] == [];
    assert NonBlank([s]) == (if s == "" then [] else [s]) + NonBlank([]);
  }

  /** A key moved under a prefix and back is the key, cleaned; a blank one is not moved. */
  lemma TrimAppend(nodePath: string, prefix: string)
    ensures !IsBlank(nodePath) ==> TrimPathPrefix(AppendPathPrefix(nodePath, prefix), prefix) == Text(PathOf(nodePath))
    ensures (forall c :: c in nodePath ==> c in " \t\n\r") ==> AppendPathPrefix(nodePath, prefix) == nodePath
  {
    hide Key, Split, NonBlank;
    if !IsBlank(nodePath) {
      var p, n := PathOf(prefix), PathOf(nodePath);
      SplitProper(prefix);
      SplitProper(nodePath);
      PathOfText(p + n);
      TrimClean(Text(p + n), prefix);
    }
  }

  // ---- Key sets ----------------------------------------------------------------------------------

  /** No key is blank, and different keys lead along different paths. */
  ghost predicate Separate(m: map<string, string>) {
    && (forall s :: s in m ==> !IsBlank(s))
    && forall s, t :: s in m && t in m && PathOf(s) == PathOf(t) ==> s == t
  }

  ghost function KeyPaths(m: map<string, string>): (r: set<Path>)
    ensures forall p :: p in r <==> exists s :: s in m && PathOf(s) == p
  {
    set s | s in m :: PathOf(s)
  }

  ghost function KeyFor(m: map<string, string>, p: Path): (s: string)
    requires p in KeyPaths(m)
    ensures s in m && PathOf(s) == p
  {
    var s :| s in m && PathOf(s) == p; s
  }

  /** The keys as paths. */
  ghost function Cleaned(m: map<string, string>): (r: map<Path, string>)
    requires Separate(m)
    ensures forall s :: s in m ==> PathOf(s) in r && r[PathOf(s)] == m[s]
    ensures forall p :: p in r ==> exists s :: s in m && PathOf(s) == p
  {
    map p | p in KeyPaths(m) :: m[KeyFor(m, p)]
  }
}
