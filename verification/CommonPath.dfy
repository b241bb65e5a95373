/** The path common to all files. */
module CommonPath {
  // It is found by shortening the first name at slashes until every name starts with it.

  const NOT_SET: string := "not set"

  predicate Absolute(name: string) {
    |name| > 0 && name[0] == '/'
  }

  /** p is c, or c cut off before one of its slashes. */
  predicate Truncation(p: string, c: string) {
    p <= c && (|p| == |c| || c[|p|] == '/')
  }

  predicate PrefixOfAll(p: string, names: seq<string>) {
    forall n :: n in names ==> p <= n
  }

  /** r is the longest truncation of c that every name starts with. */
  ghost predicate Longest(r: string, c: string, names: seq<string>) {
    && Truncation(r, c) && PrefixOfAll(r, names)
    && forall p :: Truncation(p, c) && PrefixOfAll(p, names) ==> |p| <= |r|
  }

  /** std::string::rfind('/'), -1 for npos. */
  function LastSlash(s: string): (pos: int)
    ensures -1 <= pos < |s|
    ensures pos >= 0 ==> s[pos] == '/'
    ensures forall i :: pos < i < |s| ==> s[i] != '/'
  {
    if s == [] then -1 else if s[|s| - 1] == '/' then |s| - 1 else LastSlash(s[..|s| - 1])
  }

  /** The empty path or one that starts at the root. */
  predicate Rooted(c: string) {
    c == "" || c[0] == '/'
  }

  lemma NextTruncation(p: string, c: string)
    requires Truncation(p, c) && p != c
    ensures LastSlash(c) >= |p|
    ensures Truncation(p, c[..LastSlash(c)])
  {
  }

  lemma TruncationOfTruncation(p: string, q: string, c: string)
    requires Truncation(p, q) && Truncation(q, c)
    ensures Truncation(p, c)
  {
    if p != q {
      assert c[|p|] == q[|p|];
    }
  }

  /** Shortening towards one more name and then others is shortening towards all. */
  lemma LongestChains(r: string, q: string, c: string, a: seq<string>, b: seq<string>)
    requires Longest(q, c, a) && Longest(r, q, b)
    ensures Longest(r, c, a + b)
  {
    TruncationOfTruncation(r, q, c);
    assert forall n :: n in a + b <==> n in a || n in b;
    assert PrefixOfAll(r, a + b) by {
      forall n | n in a ensures r <= n {
        assert q <= n;
      }
    }
    forall p | Truncation(p, c) && PrefixOfAll(p, a + b) ensures |p| <= |r| {
      assert PrefixOfAll(p, a) && PrefixOfAll(p, b);
      Between(p, q, c);
    }
  }

  lemma Between(p: string, q: string, c: string)
    requires Truncation(p, c) && Truncation(q, c) && |p| <= |q|
    ensures Truncation(p, q)
  {
    assert p == c[..|p|] && q == c[..|q|];
    if |p| < |q| {
      assert q[|p|] == c[|p|];
    }
  }

  /** The result depends on which names there are, not on their order or how often they come. */
  lemma LongestIsUnique(r: string, q: string, c: string, a: seq<string>, b: seq<string>)
    requires Longest(r, c, a) && Longest(q, c, b) && forall n :: n in a <==> n in b
    ensures r == q
  {
    assert PrefixOfAll(r, b) && PrefixOfAll(q, a);
    assert r == c[..|r|] && q == c[..|q|];
  }

  lemma LongestStays(r: string, c: string, names: seq<string>)
    requires Longest(r, c, names)
    ensures Longest(r, r, names)
  {
  }

  /** A later call on the same files, in whatever order, leaves the path as it is. */
  lemma RepeatedCallsChangeNothing(r: string, q: string, c: string, names: seq<string>, again: seq<string>)
    requires Longest(r, c, names) && Longest(q, r, again) && forall n :: n in names <==> n in again
    ensures q == r
  {
    LongestStays(r, c, names);
    LongestIsUnique(r, q, r, names, again);
  }

  /** Some truncation of the path is the start of the name. */
  ghost predicate Some(c: string, name: string) {
    exists p :: Truncation(p, c) && p <= name
  }

  /** On absolute names there always is one, be it the empty one. */
  lemma AlwaysSome(c: string, name: string)
    requires Rooted(c)
    ensures Some(c, name)
  {
    assert Truncation("", c);
  }

  lemma OnlyName(p: string, name: string)
    ensures PrefixOfAll(p, [name]) <==> p <= name
  {
    assert name in [name];
  }

  predicate AllAbsolute(names: seq<string>) {
    forall n :: n in names ==> Absolute(n)
  }

  class WriterBase {
    var commonPath: string

    constructor ()
      ensures commonPath == NOT_SET
    {
      commonPath := NOT_SET;
    }

    /** The inner loop, for one file: the longest truncation the name starts with or, if there is none,
        what is left of the path when no slash is. */
    method Shorten(name: string)
      modifies this
      ensures Truncation(commonPath, old(commonPath))
      ensures Some(old(commonPath), name) ==> Longest(commonPath, old(commonPath), [name])
      ensures !Some(old(commonPath), name) ==> LastSlash(commonPath) < 0
    {
      ghost var c := commonPath;
      assert Truncation(c, c);
      forall p ensures PrefixOfAll(p, [name]) <==> p <= name {
        OnlyName(p, name);
      }
      if commonPath <= name {
        return;
      }
      var more := true;
      while more
        invariant Truncation(commonPath, c) && (more <==> !(commonPath <= name))
        invariant forall p :: Truncation(p, c) && p <= name ==> Truncation(p, commonPath)
        decreases |commonPath|, more
      {
        var pos := LastSlash(commonPath);
        if pos < 0 {
          break;
        }
        forall p | Truncation(p, c) && p <= name ensures Truncation(p, commonPath[..pos]) {
          NextTruncation(p, commonPath);
        }
        TruncationOfTruncation(commonPath[..pos], commonPath, c);
        commonPath := commonPath[..pos];
        if commonPath <= name {
          more := false;
        }
      }
      if Some(c, name) {
        var p :| Truncation(p, c) && p <= name;
        if !(commonPath <= name) {
          NextTruncation(p, commonPath);
        }
      }
    }

    /** `names` are the files' names as the map is walked. The first call starts from the first name, later
        ones go on from what was found before. */
    method SetupCommonPaths(names: seq<string>)
      modifies this
      ensures names == [] ==> commonPath == old(commonPath)
      ensures names != [] && AllAbsolute(names) && (old(commonPath) == NOT_SET || Rooted(old(commonPath))) ==>
                && Rooted(commonPath)
                && Longest(commonPath, if old(commonPath) == NOT_SET then names[0] else old(commonPath), names)
    {
      if names == [] {
        return;
      }
      ghost var start := if commonPath == NOT_SET then names[0] else commonPath;
      ghost var absolute := AllAbsolute(names) && (commonPath == NOT_SET || Rooted(commonPath));
      assert names[0] in names;
      for i := 0 to |names|
        invariant i == 0 ==> commonPath == old(commonPath)
        invariant i > 0 && absolute ==> Rooted(commonPath) && Longest(commonPath, start, names[..i])
      {
        assert names[i] in names;
        if commonPath == NOT_SET {
          commonPath := names[i];
        }
        ghost var before := commonPath;
        if absolute {
          AlwaysSome(before, names[i]);
        }
        Shorten(names[i]);
        assert names[..i + 1] == names[..i] + [names[i]];
        if absolute {
          LongestChains(commonPath, before, start, names[..i], [names[i]]);
        }
      }
      assert names[..|names|] == names;
    }
  }

  // ----- when the first file matters -----

  function CommonOf(a: string, b: string): (l: string)
    ensures l <= a && l <= b && (l == a || l == b || a[|l|] != b[|l|])
  {
    if a == "" || b == "" || a[0] != b[0] then "" else [a[0]] + CommonOf(a[1..], b[1..])
  }

  /** The longest common prefix of the names. */
  function Common(names: seq<string>): string
    requires names != []
  {
    var last := |names| - 1;
    if last == 0 then names[0] else CommonOf(Common(names[..last]), names[last])
  }

  lemma {:induction false} CommonIsPrefix(names: seq<string>)
    requires names != []
    ensures PrefixOfAll(Common(names), names)
  {
    var last := |names| - 1;
    if last > 0 {
      CommonIsPrefix(names[..last]);
      assert names == names[..last] + [names[last]];
    }
  }

  lemma {:induction false} CommonIsLongest(names: seq<string>, p: string)
    requires names != [] && PrefixOfAll(p, names)
    ensures p <= Common(names)
  {
    var last := |names| - 1;
    assert names[last] in names;
    if last > 0 {
      forall n | n in names[..last] ensures p <= n {
        assert n in names;
      }
      CommonIsLongest(names[..last], p);
    }
  }

  function Cut(path: string): string {
    if LastSlash(path) < 0 then path else path[..LastSlash(path)]
  }

  function PathFrom(names: seq<string>, f: string): string
    requires names != []
  {
    if Truncation(Common(names), f) then Common(names) else Cut(Common(names))
  }

  /** Starting from name f, the path is the common prefix itself if that ends f or stands before a slash in f,
      and the common prefix cut at its own last slash otherwise. */
  lemma StartingFrom(names: seq<string>, f: string)
    requires AllAbsolute(names) && f in names
    ensures Longest(PathFrom(names, f), f, names) && Cut(Common(names)) != Common(names)
  {
    var l := Common(names);
    CommonIsPrefix(names);
    assert PrefixOfAll("/", names);
    CommonIsLongest(names, "/");
    forall p | PrefixOfAll(p, names) ensures p <= l {
      CommonIsLongest(names, p);
    }
    assert l[0] == '/';
    if !Truncation(l, f) {
      var r := Cut(l);
      assert PrefixOfAll(r, names);
      forall p | Truncation(p, f) && PrefixOfAll(p, names) ensures |p| <= |r| {
        assert p <= l && p != l;
        assert l[|p|] == f[|p|] == '/';
      }
    } else {
      forall p | Truncation(p, f) && PrefixOfAll(p, names) ensures |p| <= |l| {
        assert p <= l;
      }
    }
  }

  /** Whichever name comes first, the result is the same. */
  ghost predicate FirstDoesNotMatter(names: seq<string>) {
    forall f, g, r, q :: f in names && g in names && Longest(r, f, names) && Longest(q, g, names) ==> r == q
  }

  /** The result does not depend on which file comes first if and only if the names' longest common prefix is
      followed by a slash or nothing in all of them, or in none. */
  lemma FirstMattersIff(names: seq<string>)
    requires names != [] && AllAbsolute(names)
    ensures var l := Common(names);
            FirstDoesNotMatter(names)
            <==> (forall n :: n in names ==> Truncation(l, n)) || (forall n :: n in names ==> !Truncation(l, n))
  {
    forall f, r | f in names && Longest(r, f, names) ensures r == PathFrom(names, f) {
      StartingFrom(names, f);
      LongestIsUnique(r, PathFrom(names, f), f, names, names);
    }
    if f, g :| f in names && g in names && Truncation(Common(names), f) && !Truncation(Common(names), g) {
      StartingFrom(names, f);
      StartingFrom(names, g);
      assert Longest(PathFrom(names, f), f, names) && Longest(PathFrom(names, g), g, names);
    }
  }

  /** A file beside a directory that its own name starts with: the common prefix ends one name and is followed by
      a letter in the other. */
  lemma DependsOnTheFirst(dir: string, file: string, more: string)
    requires Absolute(dir) && more != "" && more[0] != '/' && file == dir + more
    ensures Longest(dir, dir, [dir, file]) && !Longest(dir, file, [file, dir])
    ensures !FirstDoesNotMatter([dir, file])
  {
    var names := [dir, file];
    assert dir in names && file in names;
    assert dir <= file && file[|dir|] == more[0];
    assert PrefixOfAll(dir, names);
    assert names[..1] == [dir] && Common(names) == CommonOf(dir, file) == dir;
    assert Truncation(dir, dir) && !Truncation(dir, file);
    FirstMattersIff(names);
  }
}
