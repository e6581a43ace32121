/** Go's lexical path handling (`path.Clean`, `path.Join`, and
    `filepath.Join`, which is the same on Unix), and the key under which the
    operating system finds the file a path string names.

    A path string is split at '/', empty and "." elements are dropped, and
    each ".." removes the element before it; a ".." that has nothing to
    remove stays at the front of a relative path and disappears at the root.
    The resulting (rooted, segments) pair is the path's `PathKey`, and
    `Clean` renders it back to a string. */
module GoPath {
  import opened Text

  /** A cleaned path: absolute or relative to the working directory, and its
      elements. */
  datatype PathKey = PathKey(rooted: bool, segs: seq<string>)

  /** A single path element that names a child: not empty, not "." or "..",
      and without a separator. */
  predicate Plain(name: string)
  {
    name != "" && name != "." && name != ".." && '/' !in name
  }

  /** The element lists `Clean` can produce: plain names, except for a
      leading run of ".." in a relative path. */
  predicate Canonical(segs: seq<string>, rooted: bool)
  {
    forall i :: 0 <= i < |segs| ==> CanonicalAt(segs, i, rooted)
  }

  /** Element `i` is plain, or a ".." that only ".." elements precede. */
  predicate CanonicalAt(segs: seq<string>, i: int, rooted: bool)
    requires 0 <= i < |segs|
  {
    Plain(segs[i]) || (segs[i] == ".." && !rooted && (i == 0 || segs[i - 1] == ".."))
  }

  /** Adding an element on the end that is allowed there keeps a list canonical. */
  lemma CanonicalSnoc(segs: seq<string>, elem: string, rooted: bool)
    requires Canonical(segs, rooted)
    requires Plain(elem) || (elem == ".." && !rooted && (|segs| == 0 || segs[|segs| - 1] == ".."))
    ensures Canonical(segs + [elem], rooted)
  {
    var r := segs + [elem];
    forall i | 0 <= i < |r| ensures CanonicalAt(r, i, rooted) {
      if i < |segs| {
        assert CanonicalAt(segs, i, rooted);
        assert r[i] == segs[i];
        if i > 0 { assert r[i - 1] == segs[i - 1]; }
      }
    }
  }

  /** Dropping the last element keeps a list canonical. */
  lemma CanonicalInit(segs: seq<string>, rooted: bool)
    requires Canonical(segs, rooted)
    requires |segs| > 0
    ensures Canonical(segs[..|segs| - 1], rooted)
  {
    var r := segs[..|segs| - 1];
    forall i | 0 <= i < |r| ensures CanonicalAt(r, i, rooted) {
      assert CanonicalAt(segs, i, rooted);
      assert r[i] == segs[i];
      if i > 0 { assert r[i - 1] == segs[i - 1]; }
    }
  }

  /** Canonical elements are non-empty and separator-free. */
  lemma CanonicalElems(segs: seq<string>, rooted: bool)
    requires Canonical(segs, rooted)
    ensures forall i :: 0 <= i < |segs| ==> segs[i] != "" && '/' !in segs[i]
  {
    forall i | 0 <= i < |segs| ensures segs[i] != "" && '/' !in segs[i] {
      assert CanonicalAt(segs, i, rooted);
    }
  }

  /** The key one level down. */
  function Child(k: PathKey, name: string): PathKey
  {
    PathKey(k.rooted, k.segs + [name])
  }

  /** The key several levels down. */
  function Extend(k: PathKey, names: seq<string>): PathKey
  {
    PathKey(k.rooted, k.segs + names)
  }

  /** `q` is `k` or lies somewhere below it. */
  predicate Below(q: PathKey, k: PathKey)
  {
    q.rooted == k.rooted && |k.segs| <= |q.segs| && q.segs[..|k.segs|] == k.segs
  }

  /** One step of `Clean`: process the next element against what is kept so far. */
  function Push(kept: seq<string>, elem: string, rooted: bool): (r: seq<string>)
    requires Canonical(kept, rooted)
    requires '/' !in elem
    ensures Canonical(r, rooted)
  {
    if elem == "" || elem == "." then kept
    else if elem == ".." then
      if |kept| > 0 && kept[|kept| - 1] != ".." then CanonicalInit(kept, rooted); kept[..|kept| - 1]
      else if rooted then kept
      else CanonicalSnoc(kept, "..", rooted); kept + [".."]
    else CanonicalSnoc(kept, elem, rooted); kept + [elem]
  }

  /** `Push` applied to every element, left to right. */
  function Resolve(elems: seq<string>, rooted: bool): (r: seq<string>)
    requires forall i :: 0 <= i < |elems| ==> '/' !in elems[i]
    ensures Canonical(r, rooted)
  {
    if |elems| == 0 then []
    else Push(Resolve(elems[..|elems| - 1], rooted), elems[|elems| - 1], rooted)
  }

  /** The key the operating system resolves the string `p` to. */
  function Locate(p: string): (k: PathKey)
    ensures Canonical(k.segs, k.rooted)
    ensures k.rooted <==> (|p| > 0 && p[0] == '/')
  {
    var rooted := |p| > 0 && p[0] == '/';
    PathKey(rooted, Resolve(Split(p, '/'), rooted))
  }

  /** The string `Clean` prints for a key. */
  function Render(k: PathKey): string
  {
    var body := Glue(k.segs, '/');
    if k.rooted then "/" + body
    else if body == "" then "."
    else body
  }

  /** Go's `path.Clean`. */
  function Clean(p: string): (r: string)
    ensures r != ""
  {
    Render(Locate(p))
  }

  /** The non-empty elements, in order. */
  function NonEmpty(elems: seq<string>): (r: seq<string>)
    ensures forall i :: 0 <= i < |r| ==> r[i] != ""
  {
    if |elems| == 0 then []
    else if elems[0] == "" then NonEmpty(elems[1..])
    else [elems[0]] + NonEmpty(elems[1..])
  }

  /** Go's `path.Join` / `filepath.Join`: empty elements are ignored, the rest
      are joined with '/' and cleaned; all-empty input gives "". */
  function JoinAll(elems: seq<string>): string
  {
    var parts := NonEmpty(elems);
    if |parts| == 0 then "" else Clean(Glue(parts, '/'))
  }

  /** The two-element `path.Join(dir, name)`. */
  function Join(dir: string, name: string): string
  {
    JoinAll([dir, name])
  }

  // ---------------------------------------------------------------------
  // Lemmas
  // ---------------------------------------------------------------------

  /** Resolving an already canonical list after elements that resolve to
      nothing keeps the list as it is. */
  lemma {:induction false} ResolveCanonical(pre: seq<string>, segs: seq<string>, rooted: bool)
    requires forall i :: 0 <= i < |pre| ==> '/' !in pre[i]
    requires forall i :: 0 <= i < |segs| ==> '/' !in segs[i]
    requires Resolve(pre, rooted) == []
    requires Canonical(segs, rooted)
    ensures Resolve(pre + segs, rooted) == segs
  {
    if |segs| == 0 {
      assert pre + segs == pre;
    } else {
      var init, last := segs[..|segs| - 1], segs[|segs| - 1];
      var whole := pre + segs;
      PushLast(segs, rooted);
      ResolveCanonical(pre, init, rooted);
      assert whole[..|whole| - 1] == pre + init;
      assert whole[|whole| - 1] == last;
    }
  }

  /** Pushing the last element of a canonical list onto the rest gives the
      list back. */
  lemma PushLast(segs: seq<string>, rooted: bool)
    requires Canonical(segs, rooted) && |segs| > 0
    ensures Canonical(segs[..|segs| - 1], rooted)
    ensures '/' !in segs[|segs| - 1]
    ensures Push(segs[..|segs| - 1], segs[|segs| - 1], rooted) == segs
  {
    var init, last := segs[..|segs| - 1], segs[|segs| - 1];
    CanonicalInit(segs, rooted);
    assert CanonicalAt(segs, |segs| - 1, rooted);
    if |segs| > 1 {
      assert init[|init| - 1] == segs[|segs| - 2];
    }
    assert segs == init + [last];
  }

  /** Cleaning is lossless on keys: printing a canonical key and resolving
      the string again gives the same key. */
  lemma LocateRender(k: PathKey)
    requires Canonical(k.segs, k.rooted)
    ensures Locate(Render(k)) == k
  {
    CanonicalElems(k.segs, k.rooted);
    if k.rooted {
      LocateRenderRooted(k);
    } else if |k.segs| == 0 {
      assert Render(k) == ".";
      SplitNoSep(".", '/');
      assert Resolve(["."], false) == [];
    } else {
      LocateRenderRelative(k);
    }
  }

  /** `LocateRender` for an absolute key: "/" followed by the elements. */
  lemma LocateRenderRooted(k: PathKey)
    requires Canonical(k.segs, k.rooted) && k.rooted
    requires forall i :: 0 <= i < |k.segs| ==> k.segs[i] != "" && '/' !in k.segs[i]
    ensures Locate(Render(k)) == k
  {
    var body := Glue(k.segs, '/');
    var p := "/" + body;
    assert Render(k) == p;
    SplitAppend("", body, '/');
    assert p == "" + ['/'] + body;
    assert Split(p, '/') == [""] + Split(body, '/');
    if |k.segs| == 0 {
      assert Split(p, '/') == ["", ""];
      assert Resolve(["", ""], true) == [];
    } else {
      SplitGlue(k.segs, '/');
      assert Split(p, '/') == [""] + k.segs;
      assert Resolve([""], true) == [];
      ResolveCanonical([""], k.segs, true);
    }
  }

  /** `LocateRender` for a relative key with elements: the elements joined. */
  lemma LocateRenderRelative(k: PathKey)
    requires Canonical(k.segs, k.rooted) && !k.rooted && |k.segs| > 0
    requires forall i :: 0 <= i < |k.segs| ==> k.segs[i] != "" && '/' !in k.segs[i]
    ensures Locate(Render(k)) == k
  {
    var body := Glue(k.segs, '/');
    SplitGlue(k.segs, '/');
    GluePrefix(k.segs, '/');
    assert k.segs[0] != "";
    assert body[0] == k.segs[0][0];
    assert Render(k) == body;
    assert [] + k.segs == k.segs;
    ResolveCanonical([], k.segs, false);
  }

  /** A glued list starts with its first element. */
  lemma {:induction false} GluePrefix(parts: seq<string>, sep: char)
    requires |parts| >= 1
    ensures |Glue(parts, sep)| >= |parts[0]|
    ensures Glue(parts, sep)[..|parts[0]|] == parts[0]
  {
  }

  /** A single plain name resolves to itself, relative to the working
      directory, and is already clean. */
  lemma LocatePlainName(name: string)
    requires Plain(name)
    ensures Locate(name) == PathKey(false, [name])
    ensures Clean(name) == name
  {
    SplitNoSep(name, '/');
    assert Resolve([name], false) == Push([], name, false);
  }

  /** Joining two plain names gives "dir/name", the entry `name` of the
      directory `dir` below the working directory. */
  lemma JoinPlainNames(dir: string, name: string)
    requires Plain(dir) && Plain(name)
    ensures Join(dir, name) == dir + "/" + name
    ensures Locate(Join(dir, name)) == PathKey(false, [dir, name])
  {
    LocatePlainName(dir);
    JoinPlain(dir, name);
    assert Clean(dir) != "/" && Clean(dir) != ".";
  }

  /** "." is the working directory. */
  lemma LocateDot()
    ensures Locate(".") == PathKey(false, [])
  {
    SplitNoSep(".", '/');
    assert Resolve(["."], false) == Push([], ".", false);
  }

  /** "./name" names the same file as "name". */
  lemma LocateDotSlash(name: string)
    requires Plain(name)
    ensures Locate("./" + name) == Locate(name) == PathKey(false, [name])
  {
    LocatePlainName(name);
    LocateDot();
    assert "./" + name == "." + "/" + name;
    LocateChild(".", name);
  }

  /** "/name" is the entry of that name in the root directory. */
  lemma LocateRootName(name: string)
    requires Plain(name)
    ensures Locate("/" + name) == PathKey(true, [name])
  {
    var p := "/" + name;
    SplitAppend("", name, '/');
    SplitNoSep("", '/');
    SplitNoSep(name, '/');
    assert p == "" + ['/'] + name;
    assert Split(p, '/') == ["", name];
    var elems := ["", name];
    assert elems[..1] == [""] && [""][..0] == [];
    assert Resolve([""], true) == Push([], "", true) == [];
  }

  /** "/dir/name" is the entry `name` of the directory `dir` in the root. */
  lemma LocateRootChild(dir: string, name: string)
    requires Plain(dir) && Plain(name)
    ensures Locate("/" + dir + "/" + name) == PathKey(true, [dir, name])
  {
    LocateRootName(dir);
    LocateChild("/" + dir, name);
  }

  /** A join whose first element is not empty is rooted exactly when that
      element starts with '/'. */
  lemma JoinAllRooted(first: string, rest: seq<string>)
    requires first != ""
    ensures Locate(JoinAll([first] + rest)).rooted <==> first[0] == '/'
  {
    var elems := [first] + rest;
    assert elems[1..] == rest;
    var parts := NonEmpty(elems);
    assert parts[0] == first;
    var g := Glue(parts, '/');
    GluePrefix(parts, '/');
    assert g[0] == first[0];
    LocateClean(g);
  }

  /** `Clean` does not change which file a path names. */
  lemma LocateClean(p: string)
    ensures Locate(Clean(p)) == Locate(p)
  {
    LocateRender(Locate(p));
  }

  /** `Clean` is idempotent. */
  lemma CleanIdempotent(p: string)
    ensures Clean(Clean(p)) == Clean(p)
  {
    LocateClean(p);
  }

  /** Appending "/name" to a non-empty path names that child. */
  lemma LocateChild(p: string, name: string)
    requires p != ""
    requires Plain(name)
    ensures Locate(p + "/" + name) == Child(Locate(p), name)
  {
    var rooted := |p| > 0 && p[0] == '/';
    var q := p + "/" + name;
    assert q == p + ['/'] + name;
    SplitSnoc(p, name, '/');
    var elems := Split(p, '/') + [name];
    assert elems[..|elems| - 1] == Split(p, '/');
    assert q[0] == p[0];
  }

  /** Joining a non-empty base with plain names names the corresponding
      descendant of the base. */
  lemma {:induction false} LocateJoin(base: string, names: seq<string>)
    requires base != ""
    requires forall i :: 0 <= i < |names| ==> Plain(names[i])
    ensures Locate(JoinAll([base] + names)) == Extend(Locate(base), names)
  {
    NonEmptyPlain(base, names);
    LocateClean(Glue([base] + names, '/'));
    LocateGlue(base, names);
  }

  /** Helper for `LocateJoin`: no element is dropped. */
  lemma {:induction false} NonEmptyPlain(base: string, names: seq<string>)
    requires base != ""
    requires forall i :: 0 <= i < |names| ==> Plain(names[i])
    ensures NonEmpty([base] + names) == [base] + names
    decreases |names|
  {
    if |names| > 0 {
      NonEmptyPlain(names[0], names[1..]);
      assert ([base] + names)[1..] == [names[0]] + names[1..];
      assert names == [names[0]] + names[1..];
    } else {
      assert ([base] + names)[1..] == [];
    }
  }

  /** Helper for `LocateJoin`: resolving the glued string. */
  lemma {:induction false} LocateGlue(base: string, names: seq<string>)
    requires base != ""
    requires forall i :: 0 <= i < |names| ==> Plain(names[i])
    ensures Locate(Glue([base] + names, '/')) == Extend(Locate(base), names)
  {
    if |names| == 0 {
      assert [base] + names == [base];
      assert Locate(base).segs + names == Locate(base).segs;
    } else {
      var init := names[..|names| - 1];
      var last := names[|names| - 1];
      LocateGlue(base, init);
      assert [base] + names == ([base] + init) + [last];
      GlueSnoc([base] + init, last, '/');
      var g := Glue([base] + init, '/');
      GluePrefix([base] + init, '/');
      assert g != "";
      assert g + ['/'] + last == g + "/" + last;
      LocateChild(g, last);
      assert Locate(base).segs + init + [last] == Locate(base).segs + names;
    }
  }

  /** `path.Join(dir, name)` for a plain name: the cleaned directory, a
      slash, and the name (no slash after the root, no "./" prefix). */
  lemma JoinPlain(dir: string, name: string)
    requires dir != ""
    requires Plain(name)
    ensures Locate(Join(dir, name)) == Child(Locate(dir), name)
    ensures Join(dir, name) ==
      if Clean(dir) == "/" then "/" + name
      else if Clean(dir) == "." then name
      else Clean(dir) + "/" + name
  {
    LocateJoin(dir, [name]);
    NonEmptyPlain(dir, [name]);
    assert Join(dir, name) == Clean(Glue([dir, name], '/'));
    LocateChild(dir, name);
    assert Glue([dir, name], '/') == dir + "/" + name;
    RenderChild(Locate(dir), name);
  }

  /** Printing a child key: the parent's printed form, a slash, the name. */
  lemma RenderChild(k: PathKey, name: string)
    requires Canonical(k.segs, k.rooted)
    requires Plain(name)
    ensures Render(Child(k, name)) ==
      if Render(k) == "/" then "/" + name
      else if Render(k) == "." then name
      else Render(k) + "/" + name
  {
    var c := Child(k, name);
    if |k.segs| == 0 {
      assert c.segs == [name];
    } else {
      GlueSnoc(k.segs, name, '/');
      GluePrefix(k.segs, '/');
      CanonicalElems(k.segs, k.rooted);
      if !k.rooted {
        assert CanonicalAt(k.segs, 0, false);
        assert Glue(k.segs, '/') != ".";
      }
    }
  }
}
