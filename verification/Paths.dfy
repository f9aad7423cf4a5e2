/** The path classification of internal/proxy/router.go, on ASCII paths. */
module Paths {

  const POWER := "/v1/power"
  const MESH_POWER := "/v1/mesh/power"
  const ALIASES := "/v1/aliases"
  const CHAT_COMPLETIONS := "/v1/chat/completions"
  const COMPLETIONS := "/v1/completions"
  const EMBEDDINGS := "/v1/embeddings"

  /** The segments between slashes. */
  function Split(p: string): (segs: seq<string>)
    ensures segs != []
  {
    if p == "" then [""] else Prepend(p[0], Split(p[1..]))
  }

  /** The segments when one more character is put in front: a slash begins a new one. */
  function Prepend(c: char, segs: seq<string>): (r: seq<string>)
    requires segs != []
    ensures r != []
  {
    if c == '/' then [""] + segs else [[c] + segs[0]] + segs[1..]
  }

  function Join(segs: seq<string>): string {
    if segs == [] then "" else if |segs| == 1 then segs[0] else segs[0] + "/" + Join(segs[1..])
  }

  function Push(rooted: bool, stack: seq<string>, seg: string): seq<string> {
    if seg == "" || seg == "." then stack
    else if seg == ".." then
      if stack != [] && stack[|stack| - 1] != ".." then stack[..|stack| - 1]
      else if rooted then stack
      else stack + [".."]
    else stack + [seg]
  }

  /** Resolves empty, "." and ".." segments against a stack; a rooted path cannot climb above "/". */
  function Resolve(rooted: bool, stack: seq<string>, segs: seq<string>): seq<string>
    decreases |segs|
  {
    if segs == [] then stack else Resolve(rooted, Push(rooted, stack, segs[0]), segs[1..])
  }

  predicate Rooted(p: string) { p != "" && p[0] == '/' }

  /** path.Clean by its documented rules. */
  function Clean(p: string): string {
    if Rooted(p) then "/" + Join(Resolve(true, [], Split(p)))
    else
      var segs := Resolve(false, [], Split(p));
      if segs == [] then "." else Join(segs)
  }

  function Lower(c: char): char {
    if 'A' <= c <= 'Z' then (c as int + 32) as char else c
  }

  function Fold(s: string): (f: string)
    ensures |f| == |s| && forall i | 0 <= i < |s| :: f[i] == Lower(s[i])
  {
    seq(|s|, i requires 0 <= i < |s| => Lower(s[i]))
  }

  predicate EqualFold(a: string, b: string) { Fold(a) == Fold(b) }

  predicate HasPrefixFold(s: string, prefix: string) {
    |s| >= |prefix| && EqualFold(s[..|prefix|], prefix)
  }

  function TrimSlash(s: string): string {
    if s != "" && s[|s| - 1] == '/' then s[..|s| - 1] else s
  }

  function Normalised(p: string): string {
    var cleaned := Clean(p);
    if cleaned != "/" then TrimSlash(cleaned) else cleaned
  }

  predicate IsPowerPath(p: string) {
    EqualFold(Normalised(p), POWER) || EqualFold(Normalised(p), MESH_POWER)
  }

  predicate IsAliasWrite(verb: string, p: string) {
    verb != "GET" && verb != "HEAD"
    && (EqualFold(Normalised(p), ALIASES) || HasPrefixFold(Normalised(p), ALIASES + "/"))
  }

  predicate IsInferencePath(p: string) {
    p == CHAT_COMPLETIONS || p == COMPLETIONS || p == EMBEDDINGS
  }

  datatype Route = Forbidden | ByModel | ToView(path: string)

  /** ServeHTTP's switch, in its order. The bare GET "/" is forwarded as the mesh page. */
  function RouteOf(verb: string, p: string): Route {
    if IsPowerPath(p) then Forbidden
    else if IsAliasWrite(verb, p) then Forbidden
    else if verb == "POST" && IsInferencePath(p) then ByModel
    else if verb == "GET" && p == "/" then ToView("/mesh")
    else ToView(p)
  }

  // ---- what the classification means

  /** The resolved segments of a path, in lower case. */
  function Meaning(p: string): seq<string> {
    FoldAll(Resolve(true, [], Split(p)))
  }

  function FoldAll(segs: seq<string>): (f: seq<string>)
    ensures |f| == |segs| && forall i | 0 <= i < |segs| :: f[i] == Fold(segs[i])
  {
    seq(|segs|, i requires 0 <= i < |segs| => Fold(segs[i]))
  }

  /** Segments that a resolved path can have: no slash inside, none empty. */
  ghost predicate Plain(segs: seq<string>) {
    forall i | 0 <= i < |segs| :: segs[i] != "" && '/' !in segs[i]
  }

  lemma {:induction false} SplitHasNoSlash(p: string)
    ensures forall i | 0 <= i < |Split(p)| :: '/' !in Split(p)[i]
  {
    if p != "" {
      SplitHasNoSlash(p[1..]);
    }
  }

  lemma {:induction false} ResolveIsPlain(rooted: bool, stack: seq<string>, segs: seq<string>)
    requires Plain(stack) && forall i | 0 <= i < |segs| :: '/' !in segs[i]
    ensures Plain(Resolve(rooted, stack, segs))
    decreases |segs|
  {
    if segs != [] {
      ResolveIsPlain(rooted, Push(rooted, stack, segs[0]), segs[1..]);
    }
  }

  lemma PrependConcat(c: char, a: seq<string>, b: seq<string>)
    requires a != []
    ensures Prepend(c, a + b) == Prepend(c, a) + b
  {
  }

  lemma {:induction false} SplitAtSlash(a: string, b: string)
    ensures Split(a + "/" + b) == Split(a) + Split(b)
  {
    hide Prepend;
    var p := a + "/" + b;
    if a == "" {
      assert p[0] == '/' && p[1..] == b;
      PrependSlash(Split(b));
    } else {
      SplitAtSlash(a[1..], b);
      assert p[0] == a[0] && p[1..] == a[1..] + "/" + b;
      PrependConcat(a[0], Split(a[1..]), Split(b));
    }
  }

  lemma PrependSlash(segs: seq<string>)
    requires segs != []
    ensures Prepend('/', segs) == [""] + segs
  {
  }

  lemma {:induction false} SplitPlain(s: string)
    requires '/' !in s
    ensures Split(s) == [s]
  {
    if s != "" {
      SplitPlain(s[1..]);
      assert s == [s[0]] + s[1..];
    }
  }

  lemma {:induction false} SplitJoin(segs: seq<string>)
    requires segs != [] && forall i | 0 <= i < |segs| :: '/' !in segs[i]
    ensures Split(Join(segs)) == segs
  {
    SplitPlain(segs[0]);
    if |segs| > 1 {
      SplitJoin(segs[1..]);
      SplitAtSlash(segs[0], Join(segs[1..]));
    }
  }

  lemma FoldConcat(a: string, b: string)
    ensures Fold(a + b) == Fold(a) + Fold(b)
  {
  }

  lemma {:induction false} FoldJoin(segs: seq<string>)
    ensures Fold(Join(segs)) == Join(FoldAll(segs))
  {
    if |segs| > 1 {
      FoldJoin(segs[1..]);
      FoldConcat(segs[0] + "/", Join(segs[1..]));
      FoldConcat(segs[0], "/");
      assert FoldAll(segs)[1..] == FoldAll(segs[1..]);
      assert Fold("/") == "/";
    }
  }

  lemma FoldIsPlain(segs: seq<string>)
    requires Plain(segs)
    ensures Plain(FoldAll(segs))
  {
  }

  /** A plain list is told from its joined text. */
  lemma JoinInjective(a: seq<string>, b: seq<string>)
    requires Plain(a) && Plain(b) && Join(a) == Join(b)
    ensures a == b
  {
    if a != [] { SplitJoin(a); JoinNotEmpty(a); }
    if b != [] { SplitJoin(b); JoinNotEmpty(b); }
  }

  lemma JoinNotEmpty(segs: seq<string>)
    requires Plain(segs) && segs != []
    ensures Join(segs) != "" && Join(segs)[0] != '/'
  {
    assert segs[0][0] in segs[0];
  }

  lemma {:induction false} JoinDoesNotEndInSlash(segs: seq<string>)
    requires Plain(segs) && segs != []
    ensures Join(segs) != "" && Join(segs)[|Join(segs)| - 1] != '/'
  {
    if |segs| == 1 {
      assert segs[0][|segs[0]| - 1] in segs[0];
    } else {
      JoinDoesNotEndInSlash(segs[1..]);
    }
  }

  /** The normal form, folded, is a slash and the joined meaning; a relative path never starts with one. */
  lemma NormalForm(p: string)
    ensures Rooted(p) ==> Fold(Normalised(p)) == "/" + Join(Meaning(p)) && Plain(Meaning(p))
    ensures !Rooted(p) ==> Normalised(p) == "" || Normalised(p)[0] != '/'
  {
    SplitHasNoSlash(p);
    ResolveIsPlain(Rooted(p), [], Split(p));
    hide Resolve, Split;
    var segs := Resolve(Rooted(p), [], Split(p));
    if segs != [] {
      JoinDoesNotEndInSlash(segs);
      JoinNotEmpty(segs);
    }
    if Rooted(p) {
      RootedNormalForm(segs);
      FoldIsPlain(segs);
    }
  }

  lemma RootedNormalForm(segs: seq<string>)
    requires Plain(segs)
    ensures var cleaned := "/" + Join(segs);
            (if cleaned != "/" then TrimSlash(cleaned) else cleaned) == cleaned
            && Fold(cleaned) == "/" + Join(FoldAll(segs))
  {
    FoldConcat("/", Join(segs));
    FoldJoin(segs);
    assert Fold("/") == "/";
    if segs != [] {
      JoinDoesNotEndInSlash(segs);
    }
  }

  lemma FoldedConstants()
    ensures Fold(POWER) == "/" + Join(["v1", "power"]) && Fold(MESH_POWER) == "/" + Join(["v1", "mesh", "power"])
    ensures Fold(ALIASES) == "/" + Join(["v1", "aliases"])
  {
    assert Join(["power"]) == "power" && ["v1", "power"][1..] == ["power"];
    assert Fold(POWER) == POWER && POWER == "/" + ("v1" + "/" + "power");
    assert ["v1", "mesh", "power"][1..] == ["mesh", "power"] && ["mesh", "power"][1..] == ["power"];
    assert Join(["mesh", "power"]) == "mesh/power";
    assert Fold(MESH_POWER) == MESH_POWER && MESH_POWER == "/" + ("v1" + "/" + "mesh/power");
    assert Join(["aliases"]) == "aliases" && ["v1", "aliases"][1..] == ["aliases"];
    assert Fold(ALIASES) == ALIASES && ALIASES == "/" + ("v1" + "/" + "aliases");
  }

  lemma SlashPlusJoin(a: seq<string>, b: seq<string>)
    requires Plain(a) && Plain(b)
    ensures "/" + Join(a) == "/" + Join(b) <==> a == b
  {
    assert ("/" + Join(a))[1..] == Join(a) && ("/" + Join(b))[1..] == Join(b);
    if Join(a) == Join(b) {
      JoinInjective(a, b);
    }
  }

  /** isPowerPath is exactly: the path resolves to /v1/power or /v1/mesh/power, up to case. */
  lemma PowerPathByMeaning(p: string)
    ensures IsPowerPath(p) <==> Rooted(p) && (Meaning(p) == ["v1", "power"] || Meaning(p) == ["v1", "mesh", "power"])
  {
    hide Fold, Join, Meaning, Normalised;
    NormalForm(p);
    FoldedConstants();
    if Rooted(p) {
      SlashPlusJoin(Meaning(p), ["v1", "power"]);
      SlashPlusJoin(Meaning(p), ["v1", "mesh", "power"]);
    } else if Normalised(p) != "" {
      assert Fold(Normalised(p))[0] != '/';
    }
  }

  /** A slash-joined text begins with another one and a slash exactly when the lists do, properly. */
  lemma JoinedPrefix(a: seq<string>, m: seq<string>)
    requires Plain(a) && Plain(m) && a != []
    ensures (exists t :: Join(m) == Join(a) + "/" + t) <==> a < m
  {
    if t :| Join(m) == Join(a) + "/" + t {
      SplitJoin(a);
      SplitAtSlash(Join(a), t);
      if m != [] {
        SplitJoin(m);
        assert m == a + Split(t);
      }
    }
    if a < m {
      JoinConcat(a, m[|a|..]);
      assert m == a + m[|a|..];
    }
  }

  lemma {:induction false} JoinConcat(a: seq<string>, b: seq<string>)
    requires a != [] && b != []
    ensures Join(a + b) == Join(a) + "/" + Join(b)
  {
    if |a| == 1 {
      assert (a + b)[1..] == b;
    } else {
      JoinConcat(a[1..], b);
      assert (a + b)[1..] == a[1..] + b;
    }
  }

  /** isAliasWrite is exactly: not a read, and the path resolves to /v1/aliases or below, up to case. */
  lemma AliasWriteByMeaning(verb: string, p: string)
    ensures IsAliasWrite(verb, p) <==>
              verb != "GET" && verb != "HEAD" && Rooted(p) && ["v1", "aliases"] <= Meaning(p)
  {
    NormalForm(p);
    FoldedConstants();
    var q, a, m := Normalised(p), ["v1", "aliases"], Meaning(p);
    if Rooted(p) {
      SlashPlusJoin(m, a);
      PrefixFoldOfJoin(q, m);
    } else if q != "" {
      assert Fold(q)[0] != '/';
      assert Fold(ALIASES)[0] == '/' && Fold(q[..1])[0] != '/';
      if |q| >= |ALIASES + "/"| {
        assert Fold(q[..|ALIASES + "/"|])[0] != '/' && Fold(ALIASES + "/")[0] == '/';
      }
    }
  }

  lemma PrefixFold(q: string, prefix: string)
    ensures HasPrefixFold(q, prefix) <==> exists t :: Fold(q) == Fold(prefix) + t
  {
    if HasPrefixFold(q, prefix) {
      FoldConcat(q[..|prefix|], q[|prefix|..]);
      assert q == q[..|prefix|] + q[|prefix|..];
      assert Fold(q) == Fold(prefix) + Fold(q[|prefix|..]);
    }
    if t :| Fold(q) == Fold(prefix) + t {
      assert Fold(q[..|prefix|]) == Fold(q)[..|prefix|] == Fold(prefix);
    }
  }

  lemma BehindSlash(j: string, a: string, t: string)
    ensures "/" + j == "/" + a + "/" + t <==> j == a + "/" + t
  {
    assert ("/" + j)[1..] == j;
    assert "/" + a + "/" + t == "/" + (a + "/" + t);
    assert ("/" + (a + "/" + t))[1..] == a + "/" + t;
  }

  lemma PrefixFoldOfJoin(q: string, m: seq<string>)
    requires Fold(q) == "/" + Join(m) && Plain(m)
    ensures HasPrefixFold(q, ALIASES + "/") <==> ["v1", "aliases"] < m
  {
    var a := ["v1", "aliases"];
    PrefixFold(q, ALIASES + "/");
    FoldedConstants();
    FoldConcat(ALIASES, "/");
    assert Fold("/") == "/";
    JoinedPrefix(a, m);
    hide Fold, Join, HasPrefixFold;
    forall t: string ensures Fold(q) == Fold(ALIASES + "/") + t <==> Join(m) == Join(a) + "/" + t {
      BehindSlash(Join(m), Join(a), t);
    }
  }

  lemma {:induction false} ResolveConcat(stack: seq<string>, a: seq<string>, b: seq<string>)
    ensures Resolve(true, stack, a + b) == Resolve(true, Resolve(true, stack, a), b)
    decreases |a|
  {
    hide Push;
    if a == [] {
      assert a + b == b;
    } else {
      var ab := a + b;
      assert ab[0] == a[0] && ab[1..] == a[1..] + b;
      ResolveConcat(Push(true, stack, a[0]), a[1..], b);
    }
  }

  /** Spellings of one slash that a node's server may resolve to it. */
  ghost predicate Detour(mid: string) {
    mid == "//" || mid == "/./" || exists x :: mid == "/" + x + "/../" && x != "" && x != "." && x != ".." && '/' !in x
  }

  lemma WhatDetoursAre(x: string)
    requires x != "" && x != "." && x != ".." && '/' !in x
    ensures Detour("//") && Detour("/./") && Detour("/" + x + "/../")
  {
  }

  lemma DetourVanishes(a: string, mid: string, b: string)
    requires Detour(mid)
    ensures Resolve(true, [], Split(a + mid + b)) == Resolve(true, [], Split(a + "/" + b))
  {
    hide Resolve, Split;
    SplitAtSlash(a, b);
    ResolveConcat([], Split(a), Split(b));
    var stack := Resolve(true, [], Split(a));
    if mid == "//" {
      assert a + mid + b == a + "/" + "" + "/" + b;
      Between(a, "", b);
      NothingPushed(stack);
    } else if mid == "/./" {
      assert a + mid + b == a + "/" + "." + "/" + b;
      Between(a, ".", b);
      NothingPushed(stack);
    } else {
      var x :| mid == "/" + x + "/../" && x != "" && x != "." && x != ".." && '/' !in x;
      assert a + mid + b == a + "/" + (x + "/" + "..") + "/" + b;
      Between(a, x + "/" + "..", b);
      PushedAndPopped(stack, x);
    }
  }

  lemma NothingPushed(stack: seq<string>)
    ensures Resolve(true, stack, Split("")) == stack && Resolve(true, stack, Split(".")) == stack
  {
    SplitPlain(".");
  }

  lemma PushedAndPopped(stack: seq<string>, x: string)
    requires x != "" && x != "." && x != ".." && '/' !in x
    ensures Resolve(true, stack, Split(x + "/" + "..")) == stack
  {
    SplitAtSlash(x, "..");
    SplitPlain(x);
    SplitPlain("..");
    assert [x, ".."][1..] == [".."];
    assert Push(true, stack, x) == stack + [x];
    assert Push(true, stack + [x], "..") == stack;
    assert Resolve(true, stack + [x], [".."]) == Resolve(true, stack, []);
  }

  lemma Between(a: string, x: string, b: string)
    ensures Resolve(true, [], Split(a + "/" + x + "/" + b))
         == Resolve(true, Resolve(true, Resolve(true, [], Split(a)), Split(x)), Split(b))
  {
    SplitAtSlash(a + "/" + x, b);
    SplitAtSlash(a, x);
    ResolveConcat([], Split(a) + Split(x), Split(b));
    ResolveConcat([], Split(a), Split(x));
  }

  /** No detour and no trailing slash changes what a request is taken for. */
  lemma SpellingDoesNotMatter(verb: string, a: string, mid: string, b: string)
    requires Detour(mid) && (a == "" || Rooted(a))
    ensures IsPowerPath(a + mid + b) <==> IsPowerPath(a + "/" + b)
    ensures IsAliasWrite(verb, a + mid + b) <==> IsAliasWrite(verb, a + "/" + b)
    ensures IsPowerPath(a + "/" + b + "/") <==> IsPowerPath(a + "/" + b)
    ensures IsAliasWrite(verb, a + "/" + b + "/") <==> IsAliasWrite(verb, a + "/" + b)
  {
    var p, q, r := a + "/" + b, a + mid + b, a + "/" + b + "/";
    assert Rooted(p) && Rooted(q) && Rooted(r);
    DetourVanishes(a, mid, b);
    SplitAtSlash(p, "");
    assert p + "/" + "" == r;
    ResolveConcat([], Split(p), [""]);
    PowerPathByMeaning(p);
    PowerPathByMeaning(q);
    PowerPathByMeaning(r);
    AliasWriteByMeaning(verb, p);
    AliasWriteByMeaning(verb, q);
    AliasWriteByMeaning(verb, r);
  }

  /** What ServeHTTP refuses outright is exactly what resolves to power control or an alias write. */
  lemma ForbiddenByMeaning(verb: string, p: string)
    ensures RouteOf(verb, p).Forbidden? <==>
              && Rooted(p)
              && (|| Meaning(p) == ["v1", "power"]
                  || Meaning(p) == ["v1", "mesh", "power"]
                  || (verb != "GET" && verb != "HEAD" && ["v1", "aliases"] <= Meaning(p)))
  {
    PowerPathByMeaning(p);
    AliasWriteByMeaning(verb, p);
  }

  // ---- the dispatch and the meaning, spelled out

  /** A request for the view node keeps its path; only a GET of the bare root becomes the mesh page. */
  lemma ViewPathKept(verb: string, p: string, q: string)
    requires RouteOf(verb, p) == ToView(q)
    ensures q == if verb == "GET" && p == "/" then "/mesh" else p
  {
  }

  /** What a path of ordinary segments resolves to. */
  lemma {:induction false} PlainResolves(stack: seq<string>, segs: seq<string>)
    requires forall i | 0 <= i < |segs| :: segs[i] != "" && segs[i] != "." && segs[i] != ".."
    ensures Resolve(true, stack, segs) == stack + segs
    decreases |segs|
  {
    if segs != [] {
      PlainResolves(stack + [segs[0]], segs[1..]);
      assert stack + segs == stack + [segs[0]] + segs[1..];
    }
  }

  /** The segments of a rooted path: an empty one before the first slash, then the rest. */
  lemma SplitRooted(segs: seq<string>)
    requires segs != [] && forall i | 0 <= i < |segs| :: '/' !in segs[i]
    ensures Split("/" + Join(segs)) == [""] + segs
  {
    SplitJoin(segs);
    var rest := Join(segs);
    hide Join;
    assert ("/" + rest)[0] == '/' && ("/" + rest)[1..] == rest;
  }

  /**
   A path of ordinary segments means those segments, in lower case. With the detours that vanish this
   says what every rooted path means.
   */
  lemma OrdinaryPathMeansItself(segs: seq<string>)
    requires segs != []
    requires forall i | 0 <= i < |segs| :: segs[i] != "" && segs[i] != "." && segs[i] != ".." && '/' !in segs[i]
    ensures Resolve(true, [], Split("/" + Join(segs))) == segs
    ensures Meaning("/" + Join(segs)) == FoldAll(segs)
  {
    SplitRooted(segs);
    hide Split, Join, FoldAll;
    var all := [""] + segs;
    assert all[1..] == segs && Push(true, [], all[0]) == [];
    PlainResolves([], segs);
  }

  /** Above the root there is nothing. */
  lemma RootHasNoParent(b: string)
    ensures Resolve(true, [], Split("/.." + "/" + b)) == Resolve(true, [], Split("/" + b))
  {
    SplitAtSlash("/..", b);
    SplitAtSlash("", "..");
    SplitAtSlash("", b);
    SplitPlain("..");
    assert "" + "/" + ".." == "/.." && "" + "/" + b == "/" + b;
    var rest := Split(b);
    assert Split("/..") == ["", ".."] && Split("/" + b) == [""] + rest;
    assert Split("/.." + "/" + b) == ["", ".."] + rest;
    ResolveConcat([], ["", ".."], rest);
    ResolveConcat([], [""], rest);
    assert ["", ".."][1..] == [".."] && [".."][1..] == [] && [""][1..] == [];
    assert Resolve(true, [], [".."]) == Resolve(true, Push(true, [], ".."), []) == [];
  }

  /** A dot at the end is nothing, and two dots at the end take the last segment away. */
  lemma DotsAtTheEnd(a: string, x: string)
    requires x != "" && x != "." && x != ".." && '/' !in x
    ensures Resolve(true, [], Split(a + "/" + ".")) == Resolve(true, [], Split(a))
    ensures Resolve(true, [], Split(a + "/" + (x + "/" + ".."))) == Resolve(true, [], Split(a))
  {
    SplitAtSlash(a, ".");
    SplitAtSlash(a, x + "/" + "..");
    ResolveConcat([], Split(a), Split("."));
    ResolveConcat([], Split(a), Split(x + "/" + ".."));
    NothingPushed(Resolve(true, [], Split(a)));
    PushedAndPopped(Resolve(true, [], Split(a)), x);
  }

  /** The same text, letter by letter, up to the case of the letters A to Z. */
  ghost predicate SameLetters(a: string, b: string) {
    |a| == |b| && forall i | 0 <= i < |a| ::
      || a[i] == b[i]
      || ('A' <= a[i] <= 'Z' && b[i] as int == a[i] as int + 32)
      || ('A' <= b[i] <= 'Z' && a[i] as int == b[i] as int + 32)
  }

  lemma EqualFoldByLetters(a: string, b: string)
    ensures EqualFold(a, b) <==> SameLetters(a, b)
  {
    if SameLetters(a, b) {
      assert forall i | 0 <= i < |a| :: Fold(a)[i] == Fold(b)[i];
      assert Fold(a) == Fold(b);
    }
    if EqualFold(a, b) {
      forall i | 0 <= i < |a|
        ensures a[i] == b[i] || ('A' <= a[i] <= 'Z' && b[i] as int == a[i] as int + 32)
             || ('A' <= b[i] <= 'Z' && a[i] as int == b[i] as int + 32)
      {
        assert Fold(a)[i] == Fold(b)[i];
      }
    }
  }

  predicate Ordinary(seg: string) {
    seg != "" && seg != "." && seg != ".." && '/' !in seg
  }

  lemma TwoSegments(a: string, b: string)
    requires Ordinary(a) && Ordinary(b)
    ensures Meaning("/" + (a + "/" + b)) == FoldAll([a, b])
  {
    assert [a, b][1..] == [b] && Join([b]) == b && Join([a, b]) == a + "/" + b;
    hide Meaning, Join, FoldAll;
    OrdinaryPathMeansItself([a, b]);
  }

  lemma ThreeSegments(a: string, b: string, c: string)
    requires Ordinary(a) && Ordinary(b) && Ordinary(c)
    ensures Meaning("/" + (a + "/" + (b + "/" + c))) == FoldAll([a, b, c])
  {
    assert [b, c][1..] == [c] && Join([c]) == c && Join([b, c]) == b + "/" + c;
    assert [a, b, c][1..] == [b, c] && Join([a, b, c]) == a + "/" + (b + "/" + c);
    hide Meaning, Join, FoldAll;
    OrdinaryPathMeansItself([a, b, c]);
  }

  lemma CompletionsMeaning()
    ensures Meaning("/v1/completions") == FoldAll(["v1", "completions"])
  {
    hide Meaning, FoldAll;
    TwoSegments("v1", "completions");
    assert "/v1/completions" == "/" + ("v1" + "/" + "completions");
  }

  lemma EmbeddingsMeaning()
    ensures Meaning("/v1/embeddings") == FoldAll(["v1", "embeddings"])
  {
    hide Meaning, FoldAll;
    TwoSegments("v1", "embeddings");
    assert "/v1/embeddings" == "/" + ("v1" + "/" + "embeddings");
  }

  lemma ChatMeaning()
    ensures Meaning("/v1/chat/completions") == FoldAll(["v1", "chat", "completions"])
  {
    hide Meaning, FoldAll;
    ThreeSegments("v1", "chat", "completions");
    assert "/v1/chat/completions" == "/" + ("v1" + "/" + ("chat" + "/" + "completions"));
  }

  /** The three inference paths are neither power control nor below the alias table. */
  lemma InferenceIsNotForbidden(verb: string, p: string)
    requires p == "/v1/chat/completions" || p == "/v1/completions" || p == "/v1/embeddings"
    ensures !RouteOf(verb, p).Forbidden?
  {
    CompletionsMeaning();
    EmbeddingsMeaning();
    ChatMeaning();
    ForbiddenByMeaning(verb, p);
    hide RouteOf, Meaning;
    var m := Meaning(p);
    assert |m| >= 2 && |m[1]| > 0;
    assert m[1][0] == 'c' || m[1][0] == 'e';
    assert "power"[0] == 'p' && "mesh"[0] == 'm' && "aliases"[0] == 'a';
    assert m[1] != "power" && m[1] != "mesh" && m[1] != "aliases";
    assert ["v1", "power"][1] == "power" && ["v1", "mesh", "power"][1] == "mesh" && ["v1", "aliases"][1] == "aliases";
  }

  /** A request is routed by model exactly when it is a POST to one of the three inference paths. */
  lemma ByModelExactlyWhen(verb: string, p: string)
    ensures RouteOf(verb, p).ByModel? <==>
              verb == "POST" && (p == "/v1/chat/completions" || p == "/v1/completions" || p == "/v1/embeddings")
  {
    if p == "/v1/chat/completions" || p == "/v1/completions" || p == "/v1/embeddings" {
      InferenceIsNotForbidden(verb, p);
    }
    hide IsPowerPath, IsAliasWrite;
  }

  lemma OneRelativeSegment(p: string)
    requires '/' !in p
    ensures Resolve(false, [], Split(p)) == if p == "" || p == "." then [] else [p]
  {
    SplitPlain(p);
    assert [p][1..] == [];
    assert Resolve(false, [], [p]) == Resolve(false, Push(false, [], p), []);
  }

  lemma ClimbingOut(p: string)
    requires p != "" && p != "." && '/' !in p
    ensures Resolve(false, [], Split(p + "/" + "..")) == if p == ".." then ["..", ".."] else []
  {
    SplitPlain(p);
    SplitPlain("..");
    SplitAtSlash(p, "..");
    assert Split(p + "/" + "..") == [p] + [".."] && ([p] + [".."])[1..] == [".."] && [".."][1..] == [];
    hide Split;
    assert Push(false, [], p) == [p];
    assert Push(false, [p], "..") == if p == ".." then [".."] + [".."] else [];
    assert Resolve(false, [p], [".."]) == Resolve(false, Push(false, [p], ".."), []);
  }

  /** A path that does not begin with a slash stays relative: "." when nothing is left, and it can climb. */
  lemma RelativeStaysRelative(p: string)
    requires '/' !in p
    ensures Clean(p) == if p == "" then "." else p
    ensures p != "" && p != "." ==> Clean(p + "/" + "..") == if p == ".." then "../.." else "."
  {
    OneRelativeSegment(p);
    if p != "" && p != "." {
      ClimbingOut(p);
      assert !Rooted(p + "/" + "..");
    }
    hide Resolve, Split;
    assert Join(["..", ".."]) == "../.." by {
      assert ["..", ".."][1..] == [".."];
      assert Join([".."]) == "..";
      assert ".." + "/" + ".." == "../..";
    }
  }
}
