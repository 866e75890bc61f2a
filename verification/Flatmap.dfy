/** util/flatmap: a flat map whose keys are slash-separated strings, and the nested value it stands
    for. */
module Flatmap {
  import opened Paths
  import opened Strings
  import opened Values
  import Helpers

  function GetKey(m: map<string, string>, s: string): Option<string> {
    if s in m then Some(m[s]) else None
  }

  /** Every key starts with a slash. */
  ghost predicate Absolute(m: map<string, string>) {
    forall s :: s in m ==> s != "" && s[0] == '/'
  }

  // ---- Expand ----------------------------------------------------------------------------------

  /** What is found at `q` below the key `prefix`: the first key met on the way wins. */
  ghost function Found(m: map<string, string>, prefix: string, q: Path): Option<string>
    decreases |q|, 0
  {
    if q == [] || '/' in q[0] then None else FoundAt(m, prefix + "/" + q[0], q[1..])
  }

  /** What is found at `q` from the key `prefix` on, `prefix` itself included. */
  ghost function FoundAt(m: map<string, string>, prefix: string, q: Path): Option<string>
    decreases |q|, 1
  {
    if prefix !in m then Found(m, prefix, q) else if q == [] then Some(m[prefix]) else None
  }

  ghost predicate Bounded(m: map<string, string>, n: nat) {
    forall s :: s in m ==> |s| <= n
  }

  lemma {:induction false} Bound(m: map<string, string>) returns (n: nat)
    ensures Bounded(m, n)
    decreases |m|
  {
    n := 0;
    if m != map[] {
      var s :| s in m;
      var rest := m - {s};
      assert m.Keys == rest.Keys + {s};
      var k := Bound(rest);
      n := if |s| <= k then k else |s|;
      assert forall x :: x in m ==> x == s || x in rest;
    }
  }

  /** The key `k` lies below `prefix`, a string that ends with a slash; at "/" every key does. */
  predicate Under(prefix: string, k: string) {
    |prefix| <= |k| && (prefix == "/" || prefix <= k)
  }

  /** The part of `k` up to the end of the component after `prefix`. */
  function Head(prefix: string, k: string): (h: string)
    requires |prefix| <= |k|
    ensures |prefix| <= |h| && h <= k && '/' !in h[|prefix|..]
    ensures |h| < |k| ==> h + "/" <= k
  {
    var rest := k[|prefix|..];
    assert k[..|prefix| + SlashIndex(rest)][|prefix|..] == rest[..SlashIndex(rest)];
    k[..|prefix| + SlashIndex(rest)]
  }

  /** The entry of a child: its name and value are those of some key below the prefix. */
  ghost predicate Child(m: map<string, string>, prefix: string, result: map<string, Val>, c: string, k: string)
    requires c in result
  {
    && k in m && Under(prefix, k) && Head(prefix, k)[|prefix|..] == c && '/' !in c
    && Pruned(result[c]) && result[c] != Dir(map[]) && PlainVal(result[c])
    && forall q :: Lookup(result[c], q) == FoundAt(m, Head(prefix, k), q)
  }

  /** The children of a prefix: one for each component that follows it in some key. */
  ghost predicate Children(m: map<string, string>, prefix: string, result: map<string, Val>) {
    && (forall c :: c in result ==> exists k :: Child(m, prefix, result, c, k))
    && (forall k :: k in m && Under(prefix, k) ==> Head(prefix, k)[|prefix|..] in result)
  }

  /** `Expand`. A blank key makes it panic when the prefix is the root. */
  method Expand(m: map<string, string>, prefix: string) returns (v: Val)
    requires PathOf(prefix) == [] ==> "" !in m
    ensures v.Dir? && Pruned(v) && PlainVal(v)
    ensures Children(m, if PathOf(prefix) == [] then "/" else Key(PathOf(prefix)) + "/", v.entries)
    ensures PathOf(prefix) != [] || Absolute(m) ==> forall q :: Lookup(v, q) == Found(m, Key(PathOf(prefix)), q)
  {
    hide Key, PathOf, Lookup, Pruned, Found, PlainVal, Children, Helpers.Join;
    PrefixEnds(prefix);
    var p := Helpers.Join("/", prefix);
    ghost var b := PathOf(prefix);
    if p[|p| - 1] != '/' {
      p := p + "/";
    }
    assert p == Key(b) + "/" && (b != [] ==> Key(b) != "");
    ghost var n := Bound(m);
    var entries := ExpandMap(m, p, n);
    v := Dir(entries);
    AllPlain(m, p, entries);
    if b != [] || Absolute(m) {
      ChildrenFound(m, Key(b), entries);
    }
  }

  /** `expand`: the value of a key, or the map of the keys below it. */
  method ExpandKey(m: map<string, string>, prefix: string, ghost n: nat) returns (v: Val)
    requires Bounded(m, n) && prefix != ""
    requires prefix in m || exists k :: k in m && prefix + "/" <= k
    ensures Pruned(v) && v != Dir(map[]) && PlainVal(v)
    ensures forall q :: Lookup(v, q) == FoundAt(m, prefix, q)
    decreases if n < |prefix| then 0 else n + 1 - |prefix|, 0
  {
    hide Pruned, Lookup, Children, PlainVal;
    if prefix in m {
      v := Leaf(m[prefix]);
      LeafFound(m, prefix);
      return;
    }
    var entries := ExpandMap(m, prefix + "/", n);
    v := Dir(entries);
    ChildrenFound(m, prefix, entries);
    SomeChild(m, prefix, entries);
  }

  /** `expandMap`: the keys below a prefix, grouped by their next component. */
  method ExpandMap(m: map<string, string>, prefix: string, ghost n: nat) returns (result: map<string, Val>)
    requires Bounded(m, n) && prefix != "" && prefix[|prefix| - 1] == '/' && (prefix == "/" ==> "" !in m)
    ensures Children(m, prefix, result)
    decreases if n < |prefix| then 0 else n + 1 - |prefix|, 1
  {
    hide Pruned, Lookup, FoundAt, PlainVal;
    result := map[];
    var keys := m.Keys;
    while keys != {}
      invariant keys <= m.Keys
      invariant forall c :: c in result ==> exists k :: Child(m, prefix, result, c, k)
      invariant forall k :: k in m && k !in keys && Under(prefix, k) ==> Head(prefix, k)[|prefix|..] in result
      decreases keys
    {
      var k :| k in keys;
      keys := keys - {k};
      ghost var before := result;
      if prefix != "/" && !(prefix <= k) {
        continue;
      }
      var key := k[|prefix|..];
      var idx := SlashIndex(key);
      key := key[..idx];
      assert Head(prefix, k)[|prefix|..] == key;
      if key in result {
        continue;
      }
      ghost var h := Head(prefix, k);
      assert k[..|prefix| + |key|] == h && (|h| == |k| ==> h == k);
      var v := ExpandKey(m, k[..|prefix| + |key|], n);
      result := result[key := v];
      assert Child(m, prefix, result, key, k);
      forall c | c in before
        ensures exists j :: Child(m, prefix, result, c, j)
      {
        var j :| Child(m, prefix, before, c, j);
        assert Child(m, prefix, result, c, j);
      }
    }
  }

  /** No name in a value contains a slash. */
  ghost predicate PlainVal(v: Val) {
    v.Dir? ==> forall c :: c in v.entries ==> '/' !in c && PlainVal(v.entries[c])
  }

  lemma LeafFound(m: map<string, string>, prefix: string)
    requires prefix in m
    ensures Pruned(Leaf(m[prefix])) && PlainVal(Leaf(m[prefix]))
    ensures forall q :: Lookup(Leaf(m[prefix]), q) == FoundAt(m, prefix, q)
  {
  }

  lemma SomeChild(m: map<string, string>, prefix: string, result: map<string, Val>)
    requires prefix != "" && Children(m, prefix + "/", result) && exists k :: k in m && prefix + "/" <= k
    ensures result != map[]
  {
    var k :| k in m && prefix + "/" <= k;
    assert Under(prefix + "/", k);
  }

  lemma {:induction false} NoneFound(m: map<string, string>, prefix: string, q: Path)
    requires prefix !in m && forall k :: k in m ==> !(prefix + "/" <= k)
    ensures FoundAt(m, prefix, q) == None
    decreases |q|
  {
    if q != [] && '/' !in q[0] {
      var next := prefix + "/" + q[0];
      assert prefix + "/" <= next <= next + "/";
      forall k | k in m
        ensures !(next + "/" <= k)
      {
        assert next + "/" <= k ==> prefix + "/" <= k;
      }
      NoneFound(m, next, q[1..]);
    }
  }

  /** Where a string that continues `prefix + "/" + c` ends its next component. */
  lemma HeadIs(prefix: string, c: string, k: string)
    requires '/' !in c && (k == prefix + "/" + c || prefix + "/" + c + "/" <= k)
    ensures Under(prefix + "/", k) && Head(prefix + "/", k)[|prefix| + 1..] == c
  {
    var rest := k[|prefix| + 1..];
    assert k == prefix + "/" + rest;
    var t := rest[|c|..];
    assert rest == c + t;
    SlashAt(c, t);
  }

  /** If every key below the prefix begins with it, the children are what is found there. */
  lemma ChildrenFound(m: map<string, string>, prefix: string, result: map<string, Val>)
    requires Children(m, prefix + "/", result) && (prefix == "" ==> Absolute(m))
    ensures Pruned(Dir(result)) && PlainVal(Dir(result))
    ensures forall q :: Lookup(Dir(result), q) == Found(m, prefix, q)
  {
    hide Pruned, PlainVal, FoundAt, SlashIndex;
    AllPlain(m, prefix + "/", result);
    forall q
      ensures Lookup(Dir(result), q) == Found(m, prefix, q)
    {
      if q != [] && q[0] in result {
        var k :| Child(m, prefix + "/", result, q[0], k);
        assert Head(prefix + "/", k) == prefix + "/" + q[0];
      } else if q != [] && '/' !in q[0] {
        NoChild(m, prefix, result, q[0]);
        NoneFound(m, prefix + "/" + q[0], q[1..]);
      }
    }
  }

  lemma AllPlain(m: map<string, string>, prefix: string, result: map<string, Val>)
    requires Children(m, prefix, result)
    ensures Pruned(Dir(result)) && PlainVal(Dir(result))
  {
    forall c | c in result
      ensures result[c] != Dir(map[]) && Pruned(result[c]) && '/' !in c && PlainVal(result[c])
    {
      var k :| Child(m, prefix, result, c, k);
    }
  }

  lemma NoChild(m: map<string, string>, prefix: string, result: map<string, Val>, c: string)
    requires Children(m, prefix + "/", result) && c !in result && '/' !in c
    ensures prefix + "/" + c !in m && forall k :: k in m ==> !(prefix + "/" + c + "/" <= k)
  {
    hide Head, Under;
    forall k | k in m
      ensures !(k == prefix + "/" + c || prefix + "/" + c + "/" <= k)
    {
      if k == prefix + "/" + c || prefix + "/" + c + "/" <= k {
        HeadIs(prefix, c, k);
      }
    }
  }

  /** A cleaned path ends with a slash only if it is the root. */
  lemma PrefixEnds(prefix: string)
    ensures var p, b := Helpers.Join("/", prefix), PathOf(prefix);
            p == (if b == [] then "/" else Key(b)) && p != "" && (b != [] ==> p[|p| - 1] != '/')
    ensures Key([]) == ""
  {
    hide PathOf;
    var b := PathOf(prefix);
    Helpers.SplitProper(prefix);
    Helpers.PathOfText([]);
    assert [] + b == b;
    if b != [] {
      var c := Last(b);
      assert c in b && c[|c| - 1] in c;
      assert Key(b) == Key(Parent(b)) + "/" + c;
    }
  }

  // ---- Flatten ---------------------------------------------------------------------------------

  /** What `Put` is given: nil, a string, another scalar with the text it is printed as, a map or a
      slice. */
  datatype Thing =
    | Nothing
    | Text(text: string)
    | Scalar(printed: string)
    | Table(entries: map<string, Thing>)
    | Slice(items: seq<Thing>)

  function Digit(d: nat): (c: char)
    requires d < 10
    ensures c != '/' && c as int - '0' as int == d
  {
    ('0' as int + d) as char
  }

  /** The decimal numeral of `i`. */
  function Digits(i: nat): (r: string)
    ensures r != ""
  {
    (if i < 10 then "" else Digits(i / 10)) + [Digit(i % 10)]
  }

  function Number(s: string): int {
    if s == "" then 0 else 10 * Number(s[..|s| - 1]) + (s[|s| - 1] as int - '0' as int)
  }

  /** Different numbers have different numerals: digits only, the first of several not being zero. */
  lemma {:induction false} NumberDigits(i: nat)
    ensures Number(Digits(i)) == i && '/' !in Digits(i)
    ensures (forall c :: c in Digits(i) ==> '0' <= c <= '9') && (|Digits(i)| > 1 ==> Digits(i)[0] != '0')
    ensures i > 0 ==> Digits(i)[0] != '0'
  {
    var q, d := i / 10, i % 10;
    var front := if i < 10 then "" else Digits(q);
    if i >= 10 {
      NumberDigits(q);
    }
    NumberStep(front, Digit(d));
    assert Number(front) == q;
  }

  lemma NumberStep(s: string, c: char)
    ensures Number(s + [c]) == 10 * Number(s) + (c as int - '0' as int)
  {
  }

  type Pairs = set<(string, string)>

  /** Every key a thing is written to below `prefix`, with the text it stands for. */
  ghost function Emits(t: Thing, prefix: string): Pairs
    decreases t
  {
    match t
    case Nothing => {(prefix, "")}
    case Text(s) => {(prefix, s)}
    case Scalar(s) => {(prefix, s)}
    case Table(entries) => set c, e | c in entries && e in Emits(entries[c], prefix + "/" + c) :: e
    case Slice(items) => set i, e | 0 <= i < |items| && e in Emits(items[i], prefix + "/" + Digits(i)) :: e
  }

  ghost predicate HasKey(e: Pairs, s: string) {
    exists x :: (s, x) in e
  }

  /** `r` is `result` with the pairs written over it; of several texts for one key, any may win. */
  ghost predicate Wrote(result: map<string, string>, r: map<string, string>, e: Pairs) {
    && (forall s :: s in r <==> s in result || HasKey(e, s))
    && (forall s :: s in r ==> (s, r[s]) in e || (!HasKey(e, s) && s in result && r[s] == result[s]))
  }

  lemma WroteNothing(result: map<string, string>)
    ensures Wrote(result, result, {})
  {
  }

  lemma WroteOne(result: map<string, string>, s: string, x: string)
    ensures Wrote(result, result[s := x], {(s, x)})
  {
    forall k
      ensures HasKey({(s, x)}, k) <==> k == s
    {
      assert (s, x) in {(s, x)};
    }
  }

  lemma WroteBoth(a: map<string, string>, b: map<string, string>, c: map<string, string>, e: Pairs, f: Pairs)
    requires Wrote(a, b, e) && Wrote(b, c, f)
    ensures Wrote(a, c, e + f)
  {
    forall s
      ensures HasKey(e + f, s) <==> HasKey(e, s) || HasKey(f, s)
    {
      if x :| (s, x) in e { assert (s, x) in e + f; }
      if x :| (s, x) in f { assert (s, x) in e + f; }
    }
  }

  function Slashed(s: string): string {
    if s != "" && s[0] == '/' then s else "/" + s
  }

  /** `flatten`: writes a thing into the result, under the key `prefix`. */
  method FlattenInto(result: map<string, string>, prefix: string, v: Thing) returns (r: map<string, string>)
    ensures if prefix == "" then r == result else Wrote(result, r, Emits(v, Slashed(prefix)))
    decreases v, 2
  {
    if prefix == "" {
      return result;
    }
    var key := prefix;
    if prefix[0] != '/' {
      key := "/" + prefix;
    }
    match v {
      case Nothing =>
        r := result[key := ""];
        WroteOne(result, key, "");
      case Text(text) =>
        r := result[key := text];
        WroteOne(result, key, text);
      case Scalar(printed) =>
        r := result[key := printed];
        WroteOne(result, key, printed);
      case Table(_) =>
        r := FlattenTable(result, key, v);
      case Slice(_) =>
        r := FlattenSlice(result, key, v);
    }
  }

  ghost function EmitsSome(t: Thing, prefix: string, names: set<string>): Pairs
    requires t.Table? && names <= t.entries.Keys
  {
    set c, e | c in names && e in Emits(t.entries[c], prefix + "/" + c) :: e
  }

  lemma EmitsOneMore(t: Thing, prefix: string, names: set<string>, c: string)
    requires t.Table? && names + {c} <= t.entries.Keys
    ensures EmitsSome(t, prefix, names + {c}) == EmitsSome(t, prefix, names) + Emits(t.entries[c], prefix + "/" + c)
  {
    forall e
      ensures e in EmitsSome(t, prefix, names + {c}) <==>
                e in EmitsSome(t, prefix, names) + Emits(t.entries[c], prefix + "/" + c)
    {
    }
  }

  /** `flattenMap`. */
  method FlattenTable(result: map<string, string>, prefix: string, v: Thing) returns (r: map<string, string>)
    requires v.Table? && prefix != "" && prefix[0] == '/'
    ensures Wrote(result, r, Emits(v, prefix))
    decreases v, 1
  {
    hide Wrote;
    r := result;
    WroteNothing(result);
    var names := v.entries.Keys;
    ghost var done: set<string> := {};
    assert EmitsSome(v, prefix, {}) == {};
    while names != {}
      invariant names <= v.entries.Keys && done == v.entries.Keys - names
      invariant Wrote(result, r, EmitsSome(v, prefix, done))
      decreases names
    {
      var k :| k in names;
      names := names - {k};
      ghost var before := r;
      r := FlattenInto(r, prefix + "/" + k, v.entries[k]);
      WroteBoth(result, before, r, EmitsSome(v, prefix, done), Emits(v.entries[k], prefix + "/" + k));
      EmitsOneMore(v, prefix, done, k);
      done := done + {k};
    }
    assert EmitsSome(v, prefix, done) == Emits(v, prefix);
  }

  ghost function EmitsFirst(t: Thing, prefix: string, n: nat): Pairs
    requires t.Slice? && n <= |t.items|
  {
    set i, e | 0 <= i < n && e in Emits(t.items[i], prefix + "/" + Digits(i)) :: e
  }

  lemma EmitsNext(t: Thing, prefix: string, n: nat)
    requires t.Slice? && n < |t.items|
    ensures EmitsFirst(t, prefix, n + 1) == EmitsFirst(t, prefix, n) + Emits(t.items[n], prefix + "/" + Digits(n))
  {
    forall e
      ensures e in EmitsFirst(t, prefix, n + 1) <==>
                e in EmitsFirst(t, prefix, n) + Emits(t.items[n], prefix + "/" + Digits(n))
    {
    }
  }

  /** `flattenSlice`. */
  method FlattenSlice(result: map<string, string>, prefix: string, v: Thing) returns (r: map<string, string>)
    requires v.Slice? && (prefix != "" ==> prefix[0] == '/')
    ensures Wrote(result, r, Emits(v, prefix))
    decreases v, 1
  {
    hide Wrote;
    r := result;
    WroteNothing(result);
    assert EmitsFirst(v, prefix, 0) == {};
    for i := 0 to |v.items|
      invariant Wrote(result, r, EmitsFirst(v, prefix, i))
    {
      ghost var before := r;
      var key := prefix + "/" + Digits(i);
      assert Slashed(key) == key;
      r := FlattenInto(r, key, v.items[i]);
      WroteBoth(result, before, r, EmitsFirst(v, prefix, i), Emits(v.items[i], key));
      EmitsNext(v, prefix, i);
    }
    assert EmitsFirst(v, prefix, |v.items|) == Emits(v, prefix);
  }

  /** What `Flatten` writes for a map or a slice: at the top a blank name is skipped, and a name gets
      its slash unless it has one. */
  ghost function TopEmits(t: Thing): Pairs {
    if t.Table? then set c, e | c in t.entries && c != "" && e in Emits(t.entries[c], Slashed(c)) :: e
    else Emits(t, "")
  }

  ghost predicate Flattened(t: Thing, m: map<string, string>) {
    Wrote(map[], m, TopEmits(t))
  }

  /** `Flatten`, of a map or a slice; anything else panics. */
  method Flatten(thing: Thing) returns (r: map<string, string>)
    requires thing.Table? || thing.Slice?
    ensures Flattened(thing, r)
  {
    if thing.Table? {
      r := FlattenTop(thing);
    } else {
      r := FlattenSlice(map[], "", thing);
    }
  }

  ghost function TopSome(t: Thing, names: set<string>): Pairs
    requires t.Table? && names <= t.entries.Keys
  {
    set c, e | c in names && c != "" && e in Emits(t.entries[c], Slashed(c)) :: e
  }

  lemma TopOneMore(t: Thing, names: set<string>, c: string)
    requires t.Table? && names + {c} <= t.entries.Keys
    ensures TopSome(t, names + {c}) == TopSome(t, names) + if c == "" then {} else Emits(t.entries[c], Slashed(c))
  {
    forall e
      ensures e in TopSome(t, names + {c}) <==>
                e in TopSome(t, names) + if c == "" then {} else Emits(t.entries[c], Slashed(c))
    {
    }
  }

  method FlattenTop(thing: Thing) returns (r: map<string, string>)
    requires thing.Table?
    ensures Flattened(thing, r)
  {
    hide Wrote, Slashed;
    r := map[];
    WroteNothing(r);
    var names := thing.entries.Keys;
    ghost var done: set<string> := {};
    assert TopSome(thing, {}) == {};
    while names != {}
      invariant names <= thing.entries.Keys && done == thing.entries.Keys - names
      invariant Wrote(map[], r, TopSome(thing, done))
      decreases names
    {
      var k :| k in names;
      names := names - {k};
      ghost var before := r;
      r := FlattenInto(r, k, thing.entries[k]);
      TopOneMore(thing, done, k);
      if k != "" {
        WroteBoth(map[], before, r, TopSome(thing, done), Emits(thing.entries[k], Slashed(k)));
      } else {
        assert TopSome(thing, done) + {} == TopSome(thing, done);
      }
      done := done + {k};
    }
    assert TopSome(thing, done) == TopEmits(thing);
  }

  // ---- The nested value of a thing ---------------------------------------------------------------

  /** The nested value a thing stands for: scalars as text, slices as maps by index. */
  ghost function Norm(t: Thing): Val
    decreases t, if t.Slice? then |t.items| + 1 else 0
  {
    match t
    case Nothing => Leaf("")
    case Text(s) => Leaf(s)
    case Scalar(s) => Leaf(s)
    case Table(entries) => Dir(map c | c in entries :: Norm(entries[c]))
    case Slice(items) => Dir(NormItems(t, |items|))
  }

  ghost function NormItems(t: Thing, n: nat): map<string, Val>
    requires t.Slice? && n <= |t.items|
    decreases t, n
  {
    if n == 0 then map[] else NormItems(t, n - 1)[Digits(n - 1) := Norm(t.items[n - 1])]
  }

  /** What a thing stands for, kind by kind: nil is the blank text, a scalar the text it is printed as, and
      a slice the map of its items by index. */
  lemma NormExactly(t: Thing)
    ensures t.Nothing? ==> Norm(t) == Leaf("")
    ensures t.Text? ==> Norm(t) == Leaf(t.text)
    ensures t.Scalar? ==> Norm(t) == Leaf(t.printed)
    ensures t.Table? ==>
              && Norm(t).Dir? && Norm(t).entries.Keys == t.entries.Keys
              && forall c :: c in t.entries ==> Norm(t).entries[c] == Norm(t.entries[c])
    ensures t.Slice? ==>
              && Norm(t).Dir?
              && (forall i :: 0 <= i < |t.items| ==>
                    Digits(i) in Norm(t).entries && Norm(t).entries[Digits(i)] == Norm(t.items[i]))
              && forall c :: c in Norm(t).entries ==> exists i :: 0 <= i < |t.items| && c == Digits(i)
  {
    hide Digits;
    if t.Slice? {
      forall i | 0 <= i < |t.items|
        ensures Digits(i) in Norm(t).entries && Norm(t).entries[Digits(i)] == Norm(t.items[i])
      {
        ItemAt(t, |t.items|, i);
      }
      forall c | c in Norm(t).entries
        ensures exists i :: 0 <= i < |t.items| && c == Digits(i)
      {
        var i := ItemOf(t, |t.items|, c);
      }
    }
  }

  /** A nil entry is written as the blank text. */
  lemma NilFlattened(m: map<string, string>)
    requires Flattened(Table(map["a" := Nothing]), m)
    ensures m == map["/a" := ""]
  {
    var t := Table(map["a" := Nothing]);
    assert Slashed("a") == "/a";
    assert TopEmits(t) == {("/a", "")} by {
      assert "a" in t.entries && Emits(t.entries["a"], Slashed("a")) == {("/a", "")};
    }
    assert HasKey(TopEmits(t), "/a");
  }

  /** A name that starts with a slash is not given another. */
  lemma SlashFlattened(m: map<string, string>)
    requires Flattened(Table(map["/a" := Text("1")]), m)
    ensures m == map["/a" := "1"]
  {
    var t := Table(map["/a" := Text("1")]);
    assert Slashed("/a") == "/a";
    assert TopEmits(t) == {("/a", "1")} by {
      assert "/a" in t.entries && Emits(t.entries["/a"], Slashed("/a")) == {("/a", "1")};
    }
    assert HasKey(TopEmits(t), "/a");
  }

  /** The items of a slice are found under their numerals, and nothing else is. */
  lemma {:induction false} ItemAt(t: Thing, n: nat, i: nat)
    requires t.Slice? && n <= |t.items| && i < n
    ensures Digits(i) in NormItems(t, n) && NormItems(t, n)[Digits(i)] == Norm(t.items[i])
    decreases n
  {
    hide Digits, Number;
    if i < n - 1 {
      NumberDigits(i);
      NumberDigits(n - 1);
      ItemAt(t, n - 1, i);
    }
  }

  lemma {:induction false} ItemOf(t: Thing, n: nat, c: string) returns (i: nat)
    requires t.Slice? && n <= |t.items| && c in NormItems(t, n)
    ensures i < n && c == Digits(i) && '/' !in c
    decreases n
  {
    hide Digits, Number;
    i := n - 1;
    NumberDigits(i);
    if c != Digits(i) {
      i := ItemOf(t, n - 1, c);
    }
  }

  /** No name contains a slash. */
  ghost predicate PlainNames(t: Thing) {
    match t
    case Table(entries) => forall c :: c in entries ==> '/' !in c && PlainNames(entries[c])
    case Slice(items) => forall i :: 0 <= i < |items| ==> PlainNames(items[i])
    case _ => true
  }

  /** What a value at `b` puts under the key `s`. */
  ghost function FlatAt(b: Path, v: Val, s: string): Option<string> {
    if s != "" && s[0] == '/' && b <= Comps(s) then Lookup(v, Comps(s)[|b|..]) else None
  }

  lemma PlainChild(b: Path, c: string)
    requires Plain(b) && '/' !in c
    ensures Plain(b + [c]) && Key(b + [c]) == Key(b) + "/" + c
  {
  }

  /** The keys of a thing without slashes in its names are those of its nested value, each with one
      text. */
  lemma {:induction false} EmitsFlat(t: Thing, b: Path, s: string, x: string)
    requires PlainNames(t) && Plain(b) && b != []
    ensures (s, x) in Emits(t, Key(b)) <==> FlatAt(b, Norm(t), s) == Some(x)
    decreases t
  {
    hide Key, Comps, Lookup;
    match t {
      case Table(entries) =>
        if (s, x) in Emits(t, Key(b)) {
          var c :| c in entries && (s, x) in Emits(entries[c], Key(b) + "/" + c);
          PlainChild(b, c);
          EmitsFlat(entries[c], b + [c], s, x);
          FlatStep(b, Norm(t), c, s);
        }
        if FlatAt(b, Norm(t), s) == Some(x) {
          var c := FlatName(b, Norm(t), s);
          PlainChild(b, c);
          EmitsFlat(entries[c], b + [c], s, x);
          FlatStep(b, Norm(t), c, s);
        }
      case Slice(items) =>
        if (s, x) in Emits(t, Key(b)) {
          var i :| 0 <= i < |items| && (s, x) in Emits(items[i], Key(b) + "/" + Digits(i));
          NumberDigits(i);
          ItemAt(t, |items|, i);
          PlainChild(b, Digits(i));
          EmitsFlat(items[i], b + [Digits(i)], s, x);
          FlatStep(b, Norm(t), Digits(i), s);
        }
        if FlatAt(b, Norm(t), s) == Some(x) {
          var c := FlatName(b, Norm(t), s);
          var i := ItemOf(t, |items|, c);
          ItemAt(t, |items|, i);
          PlainChild(b, c);
          EmitsFlat(items[i], b + [c], s, x);
          FlatStep(b, Norm(t), c, s);
        }
      case _ =>
        FlatLeaf(b, Norm(t).value, s);
    }
  }

  lemma FlatLeaf(b: Path, x: string, s: string)
    requires Plain(b) && b != []
    ensures FlatAt(b, Leaf(x), s) == if s == Key(b) then Some(x) else None
  {
    hide Key, Comps;
    KeyStarts(b);
    CompsKey(b);
    if s != "" && s[0] == '/' && b <= Comps(s) && Comps(s)[|b|..] == [] {
      KeyComps(s);
      assert Comps(s) == b;
    }
  }

  /** Below a name, a directory puts under a key what its entry does. */
  lemma FlatStep(b: Path, v: Val, c: string, s: string)
    requires v.Dir? && c in v.entries
    ensures FlatAt(b + [c], v.entries[c], s).Some? ==> FlatAt(b, v, s) == FlatAt(b + [c], v.entries[c], s)
    ensures FlatAt(b, v, s).Some? && |b| < |Comps(s)| && Comps(s)[|b|] == c ==>
              FlatAt(b, v, s) == FlatAt(b + [c], v.entries[c], s)
  {
    hide Comps;
    StepDown(b, c, Comps(s));
    if b + [c] <= Comps(s) {
      assert Comps(s)[|b|..][1..] == Comps(s)[|b| + 1..];
    } else if b <= Comps(s) && |b| < |Comps(s)| && Comps(s)[|b|] == c {
      Strict(b, Comps(s));
    }
  }

  lemma FlatName(b: Path, v: Val, s: string) returns (c: string)
    requires v.Dir? && FlatAt(b, v, s).Some?
    ensures |b| < |Comps(s)| && c == Comps(s)[|b|] && c in v.entries
  {
    c := Comps(s)[|b|];
  }

  /** What `Flatten` takes from the top of a thing: a blank name is skipped. */
  ghost function Top(t: Thing): Val
    requires t.Table? || t.Slice?
  {
    Dir(Norm(t).entries - {""})
  }

  lemma TopKey(c: string)
    requires '/' !in c && c != ""
    ensures Slashed(c) == Key([c])
  {
    assert c[0] in c;
    assert Key([c]) == Key([]) + "/" + c;
  }

  /** Without slashes in the names, `Flatten` gives exactly one key for each scalar. */
  lemma TopFlat(t: Thing, s: string, x: string)
    requires (t.Table? || t.Slice?) && PlainNames(t)
    ensures (s, x) in TopEmits(t) <==> FlatAt([], Top(t), s) == Some(x)
  {
    hide Key, Comps, Lookup, Slashed;
    if (s, x) in TopEmits(t) {
      var c := TopName(t, s, x);
      assert [] + [c] == [c] && Plain([c]);
      EmitsFlat(TopEntry(t, c), [c], s, x);
      FlatStep([], Top(t), c, s);
    }
    if FlatAt([], Top(t), s) == Some(x) {
      var c := FlatName([], Top(t), s);
      FlatStep([], Top(t), c, s);
      assert [] + [c] == [c];
      NameIn(t, c);
      TopKey(c);
      EmitsFlat(TopEntry(t, c), [c], s, x);
    }
  }

  ghost function TopEntry(t: Thing, c: string): Thing
    requires t.Table? || t.Slice?
  {
    if t.Table? && c in t.entries then t.entries[c]
    else if t.Slice? && exists i :: 0 <= i < |t.items| && Digits(i) == c
    then var i :| 0 <= i < |t.items| && Digits(i) == c; t.items[i]
    else Nothing
  }

  lemma NameIn(t: Thing, c: string)
    requires (t.Table? || t.Slice?) && PlainNames(t) && c in Norm(t).entries && c != ""
    ensures '/' !in c && PlainNames(TopEntry(t, c)) && Norm(TopEntry(t, c)) == Norm(t).entries[c]
    ensures forall e :: e in Emits(TopEntry(t, c), Slashed(c)) ==> e in TopEmits(t)
  {
    hide Slashed;
    if t.Slice? {
      ItemIn(t, c);
    }
  }

  lemma ItemIn(t: Thing, c: string)
    requires t.Slice? && PlainNames(t) && c in Norm(t).entries
    ensures '/' !in c && PlainNames(TopEntry(t, c)) && Norm(TopEntry(t, c)) == Norm(t).entries[c]
    ensures forall e :: e in Emits(TopEntry(t, c), Slashed(c)) ==> e in TopEmits(t)
  {
    hide Slashed, Digits, TopEntry, NormItems;
    var i := ItemOf(t, |t.items|, c);
    TheItem(t, i);
    assert "" + "/" + Digits(i) == Slashed(c);
  }

  lemma TheItem(t: Thing, i: nat)
    requires t.Slice? && i < |t.items|
    ensures TopEntry(t, Digits(i)) == t.items[i] && Digits(i) in Norm(t).entries && Digits(i) != ""
    ensures Norm(t).entries[Digits(i)] == Norm(t.items[i]) && Slashed(Digits(i)) == "/" + Digits(i)
  {
    hide Digits, Number;
    forall j | 0 <= j < |t.items| && Digits(j) == Digits(i)
      ensures j == i
    {
      NumberDigits(i);
      NumberDigits(j);
    }
    NumberDigits(i);
    assert Digits(i)[0] in Digits(i);
    ItemAt(t, |t.items|, i);
  }

  lemma TopName(t: Thing, s: string, x: string) returns (c: string)
    requires (t.Table? || t.Slice?) && PlainNames(t) && (s, x) in TopEmits(t)
    ensures c != "" && '/' !in c && c in Norm(t).entries && PlainNames(TopEntry(t, c))
    ensures Norm(TopEntry(t, c)) == Norm(t).entries[c] && (s, x) in Emits(TopEntry(t, c), Key([c]))
  {
    if t.Table? {
      c :| c in t.entries && c != "" && (s, x) in Emits(t.entries[c], Slashed(c));
    } else {
      var i :| 0 <= i < |t.items| && (s, x) in Emits(t.items[i], "" + "/" + Digits(i));
      TheItem(t, i);
      NumberDigits(i);
      c := Digits(i);
    }
    TopKey(c);
  }

  /** `Flatten`, key by key. */
  lemma FlattenedKey(t: Thing, m: map<string, string>, s: string)
    requires (t.Table? || t.Slice?) && PlainNames(t) && Flattened(t, m)
    ensures GetKey(m, s) == FlatAt([], Top(t), s)
  {
    hide TopEmits, FlatAt, Top;
    if s in m {
      TopFlat(t, s, m[s]);
    } else if FlatAt([], Top(t), s).Some? {
      TopFlat(t, s, FlatAt([], Top(t), s).value);
    }
  }

  // ---- Round trips -------------------------------------------------------------------------------

  /** The key `q` below `prefix` is there, and none on the way to it is. */
  ghost predicate Met(m: map<string, string>, prefix: string, q: Path) {
    && q != [] && Plain(q) && prefix + Key(q) in m
    && forall r :: r in Above(q) && r != [] ==> prefix + Key(r) !in m
  }

  /** A key is found exactly if no other key lies on the way to it. */
  lemma {:induction false} FoundMet(m: map<string, string>, prefix: string, q: Path)
    ensures Found(m, prefix, q) == if Met(m, prefix, q) then Some(m[prefix + Key(q)]) else None
    decreases |q|
  {
    hide Key, Met;
    NotMet(m, prefix, q);
    if q != [] && '/' !in q[0] {
      var next := prefix + "/" + q[0];
      KeyFrom(prefix, q);
      MetStep(m, prefix, q);
      if next !in m {
        FoundMet(m, next, q[1..]);
      } else if |q| == 1 {
        KeyStarts([]);
        assert q[1..] == [] && next + "" == next;
      }
    }
  }

  lemma KeyFrom(prefix: string, q: Path)
    requires q != []
    ensures prefix + Key(q) == prefix + "/" + q[0] + Key(q[1..])
  {
    assert q == [q[0]] + q[1..];
    KeyCons(q[0], q[1..]);
    assert prefix + ("/" + q[0] + Key(q[1..])) == prefix + "/" + q[0] + Key(q[1..]);
  }

  lemma NotMet(m: map<string, string>, prefix: string, q: Path)
    ensures q == [] || '/' in q[0] ==> !Met(m, prefix, q)
  {
  }

  lemma MetStep(m: map<string, string>, prefix: string, q: Path)
    requires q != [] && '/' !in q[0]
    ensures Met(m, prefix, q) <==>
              if prefix + "/" + q[0] in m then |q| == 1 else Met(m, prefix + "/" + q[0], q[1..])
  {
    hide Key;
    var c, rest := q[0], q[1..];
    var next := prefix + "/" + c;
    KeyFrom(prefix, q);
    KeyFrom(prefix, [c]);
    KeyStarts([]);
    assert q == [c] + rest && [c][1..] == [];
    assert prefix + Key([c]) == next;
    assert Plain(q) <==> Plain(rest);
    if |q| == 1 {
      assert rest == [] && next + Key(rest) == next;
      forall r | r in Above(q) ensures r == [] {}
    } else {
      assert [c] < q && [c] in Above(q);
      if next !in m {
        if Met(m, next, rest) {
          forall r | r in Above(q) && r != []
            ensures prefix + Key(r) !in m
          {
            KeyFrom(prefix, r);
            assert r[0] == c && r[1..] < rest;
            if r[1..] == [] { assert next + Key(r[1..]) == next; }
          }
        }
        if Met(m, prefix, q) {
          forall r | r in Above(rest) && r != []
            ensures next + Key(r) !in m
          {
            KeyFrom(prefix, [c] + r);
            assert ([c] + r)[1..] == r && [c] + r < q;
            assert [c] + r in Above(q);
          }
        }
      }
    }
  }

  /** Flattening a map or a slice and expanding the result gives it back, scalars as strings, slices
      as maps by index, and nothing where there was an empty map. */
  method FlattenThenExpand(t: Thing) returns (e: Val)
    requires (t.Table? || t.Slice?) && PlainNames(t)
    ensures Pruned(e) && forall q :: Lookup(e, q) == Lookup(Top(t), q)
  {
    hide Flattened, Found, Lookup, Top, PathOf;
    var m := Flatten(t);
    FlattenedAbsolute(t, m);
    RootPrefix();
    e := Expand(m, "/");
    ExpandFlatten(t, m, e);
  }

  lemma RootPrefix()
    ensures PathOf("/") == [] && Key([]) == ""
  {
    Helpers.PathOfText([]);
  }

  lemma FlattenedAbsolute(t: Thing, m: map<string, string>)
    requires (t.Table? || t.Slice?) && PlainNames(t) && Flattened(t, m)
    ensures Absolute(m)
  {
    forall s | s in m
      ensures s != "" && s[0] == '/'
    {
      FlattenedKey(t, m, s);
    }
  }

  lemma ExpandFlatten(t: Thing, m: map<string, string>, e: Val)
    requires (t.Table? || t.Slice?) && PlainNames(t) && Flattened(t, m)
    requires forall q :: Lookup(e, q) == Found(m, "", q)
    ensures forall q :: Lookup(e, q) == Lookup(Top(t), q)
  {
    hide Key, PlainVal, Found, Flattened, Norm;
    TopPlain(t);
    forall q
      ensures Lookup(e, q) == Lookup(Top(t), q)
    {
      FoundMet(m, "", q);
      assert "" + Key(q) == Key(q);
      if Plain(q) {
        FlatKey(t, m, q);
        if Lookup(Top(t), q).Some? {
          forall r | r in Above(q) && r != []
            ensures "" + Key(r) !in m
          {
            assert "" + Key(r) == Key(r);
            PlainAbove(r, q);
            FlatKey(t, m, r);
            if Lookup(Top(t), r).Some? {
              LookupPrefixFree(Top(t), r, q);
            }
          }
        }
      } else if Lookup(Top(t), q).Some? {
        PlainLookup(Top(t), q);
      }
    }
  }

  /** A plain path's key holds what the nested value has there. */
  lemma FlatKey(t: Thing, m: map<string, string>, q: Path)
    requires (t.Table? || t.Slice?) && PlainNames(t) && Flattened(t, m) && Plain(q)
    ensures GetKey(m, Key(q)) == Lookup(Top(t), q)
  {
    hide Key, Comps, Flattened;
    CompsKey(q);
    KeyStarts(q);
    FlattenedKey(t, m, Key(q));
    assert q[0..] == q;
  }

  lemma PlainAbove(r: Path, q: Path)
    requires r < q && Plain(q)
    ensures Plain(r)
  {
  }

  lemma {:induction false} PlainLookup(v: Val, q: Path)
    requires PlainVal(v) && Lookup(v, q).Some?
    ensures Plain(q)
    decreases |q|
  {
    if v.Dir? {
      PlainLookup(v.entries[q[0]], q[1..]);
      assert q == [q[0]] + q[1..];
    }
  }

  lemma {:induction false} NormPlain(t: Thing)
    requires PlainNames(t)
    ensures PlainVal(Norm(t))
    decreases t
  {
    match t
    case Table(entries) =>
      forall c | c in entries ensures PlainVal(Norm(entries[c])) { NormPlain(entries[c]); }
    case Slice(items) =>
      forall c | c in Norm(t).entries
        ensures '/' !in c && PlainVal(Norm(t).entries[c])
      {
        var i := ItemOf(t, |items|, c);
        ItemAt(t, |items|, i);
        NormPlain(items[i]);
      }
    case _ =>
  }

  lemma TopPlain(t: Thing)
    requires (t.Table? || t.Slice?) && PlainNames(t)
    ensures PlainVal(Top(t))
  {
    NormPlain(t);
  }

  /** A nested value as it is handed to `Flatten` and `Put`. */
  function ThingOf(v: Val): (t: Thing)
    ensures v.Dir? <==> t.Table?
    ensures v.Leaf? <==> t.Text?
  {
    match v
    case Leaf(s) => Text(s)
    case Dir(entries) => Table(map c | c in entries :: ThingOf(entries[c]))
  }

  lemma {:induction false} ThingOfNorm(v: Val)
    ensures Norm(ThingOf(v)) == v
    ensures PlainVal(v) ==> PlainNames(ThingOf(v))
  {
    if v.Dir? {
      forall c | c in v.entries
        ensures Norm(ThingOf(v.entries[c])) == v.entries[c]
        ensures PlainVal(v) ==> PlainNames(ThingOf(v.entries[c]))
      {
        ThingOfNorm(v.entries[c]);
      }
      assert Norm(ThingOf(v)).entries == v.entries;
    }
  }

  ghost predicate BlankFirst(p: Path) {
    p != [] && p[0] == ""
  }

  /** The key is there, no other key lies on the way to it, and it does not begin with a blank
      component. */
  ghost predicate Kept(m: map<string, string>, s: string) {
    s in m && !BlankFirst(Comps(s)) && forall p :: p in Above(Comps(s)) && p != [] ==> Key(p) !in m
  }

  /** Expanding a flat map and flattening the result keeps exactly the keys that have no other key
      on the way to them; a key that begins with a blank component is skipped. */
  method ExpandThenFlatten(m: map<string, string>) returns (r: map<string, string>)
    requires Absolute(m)
    ensures forall s :: GetKey(r, s) == if Kept(m, s) then GetKey(m, s) else None
  {
    hide Kept, Found, Flattened, Lookup, PathOf, Pruned, Key, Children;
    RootPrefix();
    var e := Expand(m, "/");
    ThingOfNorm(e);
    r := Flatten(ThingOf(e));
    forall s
      ensures GetKey(r, s) == if Kept(m, s) then GetKey(m, s) else None
      ensures Kept(m, s) ==> s in m
    {
      KeptKey(m, e, r, s);
    }
  }

  lemma KeptKey(m: map<string, string>, e: Val, r: map<string, string>, s: string)
    requires Absolute(m) && e.Dir? && forall q :: Lookup(e, q) == Found(m, "", q)
    requires PlainVal(e) && Norm(ThingOf(e)) == e && PlainNames(ThingOf(e)) && Flattened(ThingOf(e), r)
    ensures GetKey(r, s) == if Kept(m, s) then GetKey(m, s) else None
    ensures Kept(m, s) ==> s in m
  {
    hide Key, Comps, Found, Flattened, Met;
    FlattenedKey(ThingOf(e), r, s);
    if s != "" && s[0] == '/' {
      var q := Comps(s);
      KeyComps(s);
      FoundMet(m, "", q);
      MetTop(m, q);
      assert q[0..] == q;
      assert Lookup(Dir(e.entries - {""}), q) == if q[0] == "" then None else Lookup(e, q);
    }
  }

  lemma MetTop(m: map<string, string>, q: Path)
    requires Plain(q) && q != []
    ensures "" + Key(q) == Key(q)
    ensures Met(m, "", q) <==> Key(q) in m && forall p :: p in Above(q) && p != [] ==> Key(p) !in m
  {
    hide Key;
    forall p
      ensures "" + Key(p) == Key(p)
    {
    }
  }

  // ---- The keys as paths -------------------------------------------------------------------------

  /** No name is blank or contains a slash. */
  ghost predicate ProperNames(t: Thing) {
    match t
    case Table(entries) => forall c :: c in entries ==> '/' !in c && c != "" && ProperNames(entries[c])
    case Slice(items) => forall i :: 0 <= i < |items| ==> ProperNames(items[i])
    case _ => true
  }

  /** No name in a value is blank or contains a slash. */
  ghost predicate ProperVal(v: Val) {
    v.Dir? ==> forall c :: c in v.entries ==> '/' !in c && c != "" && ProperVal(v.entries[c])
  }

  lemma {:induction false} ProperNorm(t: Thing)
    requires ProperNames(t)
    ensures PlainNames(t) && ProperVal(Norm(t))
    decreases t
  {
    match t
    case Table(entries) =>
      forall c | c in entries
        ensures PlainNames(entries[c]) && ProperVal(Norm(entries[c]))
      {
        ProperNorm(entries[c]);
      }
    case Slice(items) =>
      forall i | 0 <= i < |items|
        ensures PlainNames(items[i]) && ProperVal(Norm(items[i]))
      {
        ProperNorm(items[i]);
      }
      forall c | c in Norm(t).entries
        ensures '/' !in c && c != "" && ProperVal(Norm(t).entries[c])
      {
        var i := ItemOf(t, |items|, c);
        ItemAt(t, |items|, i);
      }
    case _ =>
  }

  lemma {:induction false} ProperLookup(v: Val, q: Path)
    requires ProperVal(v) && Lookup(v, q).Some?
    ensures Helpers.Proper(q)
    decreases |q|
  {
    if v.Dir? {
      ProperLookup(v.entries[q[0]], q[1..]);
      assert q == [q[0]] + q[1..];
    }
  }

  /** A pruned value that answers only for proper paths has only proper names. */
  lemma {:induction false} ValProper(v: Val)
    requires Pruned(v) && forall q :: Lookup(v, q).Some? ==> Helpers.Proper(q)
    ensures ProperVal(v)
  {
    if v.Dir? {
      forall c | c in v.entries
        ensures '/' !in c && c != "" && ProperVal(v.entries[c])
      {
        var p := SomethingInside(v.entries[c]);
        assert ([c] + p)[1..] == p && Lookup(v, [c] + p).Some? && c in [c] + p;
        forall q | Lookup(v.entries[c], q).Some?
          ensures Helpers.Proper(q)
        {
          assert ([c] + q)[1..] == q;
          assert Lookup(v, [c] + q).Some?;
          assert forall d :: d in q ==> d in [c] + q;
        }
        ValProper(v.entries[c]);
      }
    }
  }

  lemma {:induction false} ThingOfProper(v: Val)
    requires ProperVal(v)
    ensures ProperNames(ThingOf(v))
  {
    if v.Dir? {
      forall c | c in v.entries
        ensures ProperNames(ThingOf(v.entries[c]))
      {
        ThingOfProper(v.entries[c]);
      }
    }
  }

  /** What a store answers, as it is handed on: if the paths below have proper components, so have the
      names. */
  lemma ThingOfLeaves(v: Val, m: map<Path, string>)
    requires Pruned(v) && v.Dir? && Values.Flatten(v) == m && forall q :: q in m ==> Helpers.Proper(q)
    ensures ProperNames(ThingOf(v)) && ThingOf(v).Table? && Norm(ThingOf(v)) == v
  {
    hide Helpers.Proper, Values.Flatten, ProperVal, ProperNames, Norm;
    forall q | Lookup(v, q).Some?
      ensures Helpers.Proper(q)
    {
      assert Find(Values.Flatten(v), q) == Lookup(v, q);
    }
    ValProper(v);
    ThingOfProper(v);
    ThingOfNorm(v);
  }

  /** With proper names, each key leads along its own path, to what the nested value has there. */
  lemma FlatCleaned(t: Thing, m: map<string, string>)
    requires (t.Table? || t.Slice?) && ProperNames(t) && Flattened(t, m)
    ensures Helpers.Separate(m) && Helpers.Cleaned(m) == Values.Flatten(Norm(t))
  {
    hide Key, Comps, PathOf, Flattened, Lookup, Norm, Helpers.IsBlank, Values.Flatten;
    ProperNorm(t);
    forall s | s in m
      ensures !Helpers.IsBlank(s) && s == Key(PathOf(s)) && Lookup(Norm(t), PathOf(s)) == Some(m[s])
    {
      KeyPath(t, m, s);
    }
    var c, f := Helpers.Cleaned(m), Values.Flatten(Norm(t));
    forall p
      ensures Find(c, p) == Find(f, p)
    {
      if Lookup(Norm(t), p).Some? {
        PathKey(t, m, p);
      }
    }
    SameFinds(c, f);
  }

  lemma KeyPath(t: Thing, m: map<string, string>, s: string)
    requires (t.Table? || t.Slice?) && ProperNames(t) && Flattened(t, m) && s in m
    ensures !Helpers.IsBlank(s) && s == Key(PathOf(s)) && Lookup(Norm(t), PathOf(s)) == Some(m[s])
  {
    hide Key, Comps, PathOf, Flattened;
    ProperNorm(t);
    FlattenedKey(t, m, s);
    assert Norm(t).entries - {""} == Norm(t).entries;
    KeyComps(s);
    var q := Comps(s);
    assert q[0..] == q;
    ProperLookup(Norm(t), q);
    Helpers.PathOfText(q);
    assert '/' in s;
  }

  lemma PathKey(t: Thing, m: map<string, string>, p: Path)
    requires (t.Table? || t.Slice?) && ProperNames(t) && Flattened(t, m) && Lookup(Norm(t), p).Some?
    ensures Key(p) in m && PathOf(Key(p)) == p && Lookup(Norm(t), p) == Some(m[Key(p)])
  {
    hide Key, PathOf, Flattened;
    ProperNorm(t);
    ProperLookup(Norm(t), p);
    assert Norm(t).entries - {""} == Norm(t).entries;
    FlatKey(t, m, p);
    Helpers.PathOfText(p);
  }
}
