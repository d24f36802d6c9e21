/**
 Module paths, as the strings that the runner compares and as the sequences of names that they stand for.
 */
module Paths {
  /** The names of the crate and of the nested modules, from the outside in. */
  type Path = seq<string>

  /** The pieces between the `::` separators. */
  function SplitPath(s: string): (r: Path)
    ensures r != []
  {
    if |s| < 2 then [s]
    else if s[..2] == "::" then [""] + SplitPath(s[2..])
    else
      var rest := SplitPath(s[1..]);
      [[s[0]] + rest[0]] + rest[1..]
  }

  function Joined(p: Path): string {
    if p == [] then "" else if |p| == 1 then p[0] else p[0] + "::" + Joined(p[1..])
  }

  function NonEmpty(parts: seq<string>): seq<string> {
    if parts == [] then [] else (if parts[0] == "" then [] else [parts[0]]) + NonEmpty(parts[1..])
  }

  /** Crate, module and perhaps a name, without those that are empty. */
  function CrateAndModule(parts: seq<string>): string {
    Joined(NonEmpty(parts))
  }

  function Names(s: string): Path {
    if s == "" then [] else SplitPath(s)
  }

  predicate IsPrefixOf(outer: string, inner: string) {
    outer == "" || outer == inner || outer + "::" <= inner
  }

  function TrimStart(s: string): string {
    if "::" <= s then TrimStart(s[2..]) else s
  }

  function NextLevel(from: string, to: string): string
    requires IsPrefixOf(from, to) && from != to
  {
    var remaining := if from == "" then to else to[|from| + 2..];
    TrimStart(from + "::" + SplitPath(remaining)[0])
  }

  /** Identifiers are not empty and hold no colons. */
  predicate Proper(p: Path) {
    forall x :: x in p ==> x != "" && ':' !in x
  }

  lemma {:induction false} SplitAtName(name: string, rest: string)
    requires ':' !in name
    ensures SplitPath(name) == [name] && SplitPath(name + "::" + rest) == [name] + SplitPath(rest)
  {
    var s := name + "::" + rest;
    if name == "" {
      assert s[..2] == "::" && s[2..] == rest;
    } else {
      SplitAtName(name[1..], rest);
      assert name == [name[0]] + name[1..];
      assert s[0] == name[0] && s[1..] == name[1..] + "::" + rest;
      assert s[..2][0] == name[0] && "::"[0] == ':' && s[..2] != "::";
      if |name| >= 2 {
        assert name[..2][0] == name[0] && name[..2] != "::";
      }
    }
  }

  lemma {:induction false} SplitAfterJoined(p: Path, rest: string)
    requires p != [] && Proper(p)
    ensures SplitPath(Joined(p)) == p && SplitPath(Joined(p) + "::" + rest) == p + SplitPath(rest)
  {
    hide SplitPath;
    assert p[0] in p && p == [p[0]] + p[1..];
    if |p| == 1 {
      SplitAtName(p[0], rest);
    } else {
      assert Proper(p[1..]) by {
        assert forall x :: x in p[1..] ==> x in p;
      }
      SplitAfterJoined(p[1..], rest);
      SplitAtName(p[0], Joined(p[1..]));
      SplitAtName(p[0], Joined(p[1..]) + "::" + rest);
      assert Joined(p) + "::" + rest == p[0] + "::" + (Joined(p[1..]) + "::" + rest);
    }
  }

  lemma {:induction false} JoinedConcat(p: Path, q: Path)
    requires p != [] && q != []
    ensures Joined(p + q) == Joined(p) + "::" + Joined(q)
  {
    var s := p + q;
    assert s[0] == p[0] && s[1..] == p[1..] + q;
    if |p| > 1 {
      JoinedConcat(p[1..], q);
      assert p[0] + "::" + (Joined(p[1..]) + "::" + Joined(q)) == p[0] + "::" + Joined(p[1..]) + "::" + Joined(q);
    }
  }

  lemma {:induction false} JoinedStart(p: Path)
    requires p != [] && Proper(p)
    ensures Joined(p) != "" && Joined(p)[0] != ':'
  {
    assert p[0] in p && p[0][0] in p[0];
  }

  /** Joining paths loses nothing, and the test for string prefixes is the test for outer modules. */
  lemma {:induction false} PrefixesAreOuterModules(q: Path, p: Path)
    requires Proper(q) && Proper(p)
    ensures Names(Joined(p)) == p
    ensures IsPrefixOf(Joined(q), Joined(p)) <==> q <= p
  {
    hide SplitPath, Joined;
    NoNames();
    if p != [] {
      SplitAfterJoined(p, "");
      JoinedStart(p);
    }
    if q != [] {
      SplitAfterJoined(q, "");
      JoinedStart(q);
      if q < p {
        JoinedConcat(q, p[|q|..]);
        assert q + p[|q|..] == p;
        assert Joined(q) + "::" <= Joined(p);
      }
      if Joined(q) + "::" <= Joined(p) {
        var rest := Joined(p)[|Joined(q)| + 2..];
        assert Joined(p) == Joined(q) + "::" + rest;
        SplitAfterJoined(q, rest);
        assert p == q + SplitPath(rest);
      }
      assert Joined(q) == Joined(p) ==> p != [] && q == p;
      assert q <= p ==> q < p || q == p;
    }
  }

  lemma {:induction false} NoNames()
    ensures Joined([]) == ""
  {
  }

  /** The name of a missing suite is the next name on the way. */
  lemma {:induction false} NextLevelIsTheNextName(q: Path, p: Path)
    requires Proper(p) && q < p
    ensures IsPrefixOf(Joined(q), Joined(p)) && Joined(q) != Joined(p)
    ensures NextLevel(Joined(q), Joined(p)) == Joined(p[..|q| + 1])
  {
    hide SplitPath, Joined;
    assert Proper(q) by {
      assert forall x :: x in q ==> x in p;
    }
    PrefixesAreOuterModules(q, p);
    PrefixesAreOuterModules(p, q);
    var r := p[|q|..];
    assert p == q + r && p[..|q| + 1] == q + [r[0]];
    assert Proper(r) by {
      assert forall x :: x in r ==> x in p;
    }
    SplitAfterJoined(r, "");
    NoNames();
    assert r[0] in r;
    JoinedOne(r[0]);
    if q == [] {
      assert p == r && [] + [r[0]] == [r[0]];
      TrimsSeparator(r[0]);
    } else {
      JoinedConcat(q, r);
      JoinedConcat(q, [r[0]]);
      assert Joined(p)[|Joined(q)| + 2..] == Joined(r);
      JoinedStart(q);
      var s := Joined(q) + "::" + r[0];
      assert s[0] == Joined(q)[0] && !("::" <= s);
    }
  }

  lemma {:induction false} JoinedOne(name: string)
    ensures Joined([name]) == name
  {
  }

  lemma {:induction false} TrimsSeparator(name: string)
    requires name != "" && ':' !in name
    ensures TrimStart("" + "::" + name) == name
  {
    assert ("::" + name)[2..] == name && "" + "::" + name == "::" + name;
    assert name[0] in name;
  }

  // ---------- Which module crate, path and name stand for ----------

  lemma {:induction false} JoinsOfJoined(p: Path, q: Path)
    requires Proper(p) && Proper(q)
    ensures Proper(p + q) && CrateAndModule([Joined(p), Joined(q)]) == Joined(p + q)
  {
    hide Joined, Names;
    NoNames();
    JoinedParts(Joined(p), Joined(q));
    if p == [] {
      assert p + q == q;
    } else if q == [] {
      assert p + q == p;
      JoinedStart(p);
    } else {
      JoinedStart(p);
      JoinedStart(q);
      JoinedConcat(p, q);
    }
  }

  lemma {:induction false} JoinedParts(a: string, b: string)
    ensures CrateAndModule([a, b]) == if a == "" then b else if b == "" then a else a + "::" + b
  {
    assert [a, b][1..] == [b] && [b][1..] == [];
    assert NonEmpty([b]) == if b == "" then [] else [b];
    JoinedOne(a);
    JoinedOne(b);
    if a != "" && b != "" {
      assert NonEmpty([a, b]) == [a, b];
    } else if a != "" {
      assert NonEmpty([a, b]) == [a] + [];
    } else {
      assert NonEmpty([a, b]) == [] + NonEmpty([b]);
    }
  }

  lemma {:induction false} FirstTwoParts(a: string, b: string, c: string)
    ensures CrateAndModule([a, b, c]) == CrateAndModule([CrateAndModule([a, b]), c])
  {
    JoinedParts(a, b);
    JoinedParts(b, c);
    JoinedParts(CrateAndModule([a, b]), c);
    assert [a, b, c][1..] == [b, c] && [b, c][1..] == [c];
    assert NonEmpty([a, b, c]) == (if a == "" then [] else [a]) + NonEmpty([b, c]);
    assert NonEmpty([c]) == if c == "" then [] else [c];
    assert NonEmpty([b, c]) == (if b == "" then [] else [b]) + (if c == "" then [] else [c]);
    if a != "" && b != "" && c != "" {
      assert NonEmpty([a, b, c]) == [a, b, c];
      assert Joined([a, b, c]) == a + "::" + Joined([b, c]) && a + "::" + (b + "::" + c) == a + "::" + b + "::" + c;
    } else if a == "" {
      assert [] + NonEmpty([b, c]) == NonEmpty([b, c]);
    } else {
      JoinedParts(a, if b == "" then c else b);
    }
  }

  /** The crate and the module path of a test in module `m`. */
  ghost predicate Locates(crateName: string, modulePath: string, m: Path) {
    exists p, q :: Proper(p) && Proper(q) && Joined(p) == crateName && Joined(q) == modulePath && m == p + q
  }

  /** The crate, the module path and the name of the suite that is module `m`. */
  ghost predicate LocatesSuite(crateName: string, modulePath: string, name: string, m: Path) {
    exists around :: Locates(crateName, modulePath, around) && ':' !in name &&
                     m == around + if name == "" then [] else [name]
  }

  /** The strings that the runner compares name these modules. */
  lemma {:induction false} LocatedModule(crateName: string, modulePath: string, m: Path)
    requires Locates(crateName, modulePath, m)
    ensures Proper(m) && CrateAndModule([crateName, modulePath]) == Joined(m)
    ensures Names(CrateAndModule([crateName, modulePath])) == m
  {
    hide Joined, Names, CrateAndModule;
    var p, q :| Proper(p) && Proper(q) && Joined(p) == crateName && Joined(q) == modulePath && m == p + q;
    JoinsOfJoined(p, q);
    PrefixesAreOuterModules(m, m);
  }

  lemma {:induction false} LocatedSuite(crateName: string, modulePath: string, name: string, m: Path)
    requires LocatesSuite(crateName, modulePath, name, m)
    ensures Proper(m) && CrateAndModule([crateName, modulePath, name]) == Joined(m)
    ensures Names(CrateAndModule([crateName, modulePath, name])) == m
  {
    hide Joined, Names, CrateAndModule, Locates;
    var around :| Locates(crateName, modulePath, around) && ':' !in name &&
                  m == around + if name == "" then [] else [name];
    LocatedModule(crateName, modulePath, around);
    FirstTwoParts(crateName, modulePath, name);
    var last := if name == "" then [] else [name];
    NoNames();
    JoinedOne(name);
    JoinsOfJoined(around, last);
    PrefixesAreOuterModules(m, m);
  }

  // ---------- Plain string prefixes ----------

  /** The names agree up to the last of `q`, and that one begins the name in its place. */
  predicate BeginsLike(q: Path, m: Path) {
    q == [] || (|q| <= |m| && q[..|q| - 1] == m[..|q| - 1] && q[|q| - 1] <= m[|q| - 1])
  }

  lemma {:induction false} NameThenSeparator(a: string, b: string, x: string, y: string)
    requires ':' !in a && ':' !in b
    ensures a + "::" + x <= b + "::" + y <==> a == b && x <= y
    ensures !(a + "::" + x <= b)
  {
    var l, r := a + "::" + x, b + "::" + y;
    assert l[|a|] == ':' && r[|b|] == ':';
    if |a| < |b| {
      assert r[|a|] == b[|a|] && b[|a|] in b;
    } else if |b| < |a| {
      assert l[|b|] == a[|b|] && a[|b|] in a;
    } else {
      assert l[..|a|] == a && r[..|a|] == b && l[|a| + 2..] == x && r[|a| + 2..] == y;
      assert a == b && x <= y ==> l <= r;
      assert l <= r ==> l == r[..|l|] && r[..|l|][..|a|] == b && r[|a| + 2..|l|] == y[..|x|];
    }
    if |l| <= |b| {
      assert b[|a|] in b && l[|a|] != b[|a|];
    }
  }

  lemma {:induction false} NameIsPlainPrefix(a: string, b: string, y: string)
    requires ':' !in a
    ensures a <= b + "::" + y <==> a <= b
  {
    var r := b + "::" + y;
    if |a| <= |b| {
      assert r[..|a|] == b[..|a|];
    } else {
      assert r[|b|] == ':' && a[|b|] in a && a[|b|] != r[|b|];
    }
  }

  /**
   A plain string prefix need not end at a module boundary: it also takes in modules whose name merely
   begins with the last name of `q`.
   */
  lemma {:induction false} PlainPrefixExactlyIf(q: Path, m: Path)
    requires Proper(q) && Proper(m)
    ensures Joined(q) <= Joined(m) <==> BeginsLike(q, m)
  {
    if q == [] {
    } else if m == [] {
      JoinedStart(q);
    } else {
      assert q[0] in q && m[0] in m;
      assert Proper(q[1..]) && Proper(m[1..]) by {
        assert (forall x :: x in q[1..] ==> x in q) && (forall x :: x in m[1..] ==> x in m);
      }
      if |q| == 1 {
        if |m| > 1 {
          NameIsPlainPrefix(q[0], m[0], Joined(m[1..]));
        }
      } else {
        NameThenSeparator(q[0], m[0], Joined(q[1..]), Joined(m[1..]));
        PlainPrefixExactlyIf(q[1..], m[1..]);
        BeginsLikeTail(q, m);
      }
    }
  }

  lemma {:induction false} BeginsLikeTail(q: Path, m: Path)
    requires |q| > 1 && m != []
    ensures BeginsLike(q, m) <==> q[0] == m[0] && |m| > 1 && BeginsLike(q[1..], m[1..])
  {
    if |m| > 1 && |q| <= |m| {
      var a, b := q[..|q| - 1], m[..|q| - 1];
      assert a == [q[0]] + q[1..][..|q| - 2] && b == [m[0]] + m[1..][..|q| - 2];
    }
  }

  /** What begins like `q` lies inside, or in a neighbour whose name only begins with the last name of `q`. */
  lemma {:induction false} InsideOrNeighbour(q: Path, m: Path)
    ensures q <= m ==> BeginsLike(q, m)
    ensures BeginsLike(q, m) && !(q <= m) <==>
            q != [] && |q| <= |m| && q[..|q| - 1] == m[..|q| - 1] && q[|q| - 1] < m[|q| - 1]
  {
    if q != [] && |q| <= |m| {
      var last := |q| - 1;
      assert q == q[..last] + [q[last]] && m[..|q|] == m[..last] + [m[last]];
      if q[..last] == m[..last] && q[last] == m[last] {
        assert q == m[..|q|];
      }
      if q <= m {
        assert q[..last] == m[..last] && q[last] == m[last];
      }
    }
  }
}
