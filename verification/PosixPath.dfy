/** Lexical POSIX paths, as `pathlib.Path` and `os.path.normpath` treat them. */
module PosixPath {

  /** The text between slashes; `k` is how much of the current component has been read. */
  function Split(s: string): (parts: seq<string>)
    ensures |parts| >= 1
  {
    if s == "" then [""]
    else
      var rest := Split(s[1..]);
      if s[0] == '/' then [""] + rest else [[s[0]] + rest[0]] + rest[1..]
  }

  /** `Path(s).parts` below the root: empty components and "." disappear, ".." stays. */
  function Parts(components: seq<string>): (parts: seq<string>)
    ensures forall p :: p in parts <==> p in components && p != "" && p != "."
  {
    if components == [] then []
    else if components[0] == "" || components[0] == "." then Parts(components[1..])
    else [components[0]] + Parts(components[1..])
  }

  /** `os.path.normpath` of an absolute path: ".." removes the component before it. */
  function Collapse(parts: seq<string>): (kept: seq<string>)
    ensures ".." !in kept && |kept| <= |parts|
  {
    if parts == [] then []
    else
      var before := Collapse(parts[..|parts| - 1]);
      var last := parts[|parts| - 1];
      if last != ".." then before + [last]
      else if before == [] then []
      else before[..|before| - 1]
  }

  // ----- What these functions mean -----

  /** The components, one after the other, with a slash between two. */
  function Joined(parts: seq<string>): string
    requires parts != []
  {
    if |parts| == 1 then parts[0] else parts[0] + "/" + Joined(parts[1..])
  }

  predicate NoSlashes(parts: seq<string>) {
    forall p :: p in parts ==> '/' !in p
  }

  /** Splitting is the inverse of joining: the components of a text are the only ones that give it. */
  lemma {:induction false} JoinedSplits(s: string)
    ensures NoSlashes(Split(s)) && Joined(Split(s)) == s
  {
    if s != "" {
      JoinedSplits(s[1..]);
      var rest := Split(s[1..]);
      assert s == [s[0]] + s[1..];
      if s[0] == '/' {
        assert Joined([""] + rest) == "/" + Joined(rest);
      } else {
        var first := [s[0]] + rest[0];
        assert ([first] + rest[1..])[1..] == rest[1..];
        assert [s[0]] + (rest[0] + "/") == first + "/";
      }
    }
  }

  lemma {:induction false} SplitsJoined(parts: seq<string>)
    requires parts != [] && NoSlashes(parts)
    ensures Split(Joined(parts)) == parts
  {
    SplitPlain(parts[0]);
    if |parts| > 1 {
      assert NoSlashes(parts[1..]);
      SplitsJoined(parts[1..]);
      SplitConcat(parts[0], Joined(parts[1..]));
      assert parts == [parts[0]] + parts[1..];
    } else {
      assert parts == [parts[0]];
    }
  }

  lemma {:induction false} SplitPlain(s: string)
    requires '/' !in s
    ensures Split(s) == [s]
  {
    if s != "" {
      SplitPlain(s[1..]);
      assert [s[0]] + s[1..] == s;
    }
  }

  /** What is kept stays in order. */
  lemma {:induction false} PartsConcat(a: seq<string>, b: seq<string>)
    ensures Parts(a + b) == Parts(a) + Parts(b)
  {
    if a == [] {
      assert a + b == b;
    } else {
      assert (a + b)[1..] == a[1..] + b;
      PartsConcat(a[1..], b);
    }
  }

  lemma {:induction false} KeepsParts(parts: seq<string>)
    requires "" !in parts && "." !in parts
    ensures Parts(parts) == parts
  {
    if parts != [] {
      KeepsParts(parts[1..]);
    }
  }

  /** A name and the ".." after it cancel out, wherever they stand. */
  lemma {:induction false} CollapseCancels(parts: seq<string>, name: string, more: seq<string>)
    requires name != ".."
    ensures Collapse(parts + [name, ".."] + more) == Collapse(parts + more)
  {
    if more == [] {
      assert parts + [name, ".."] + more == (parts + [name]) + [".."];
      assert parts + more == parts;
      assert ((parts + [name]) + [".."])[..|parts| + 1] == parts + [name];
      assert (parts + [name])[..|parts|] == parts;
    } else {
      var n := |more| - 1;
      CollapseCancels(parts, name, more[..n]);
      CollapseLast(parts + [name, ".."] + more[..n], more[n]);
      CollapseLast(parts + more[..n], more[n]);
      assert parts + [name, ".."] + more == (parts + [name, ".."] + more[..n]) + [more[n]];
      assert parts + more == (parts + more[..n]) + [more[n]];
    }
  }

  lemma CollapseLast(parts: seq<string>, last: string)
    ensures var before := Collapse(parts);
            Collapse(parts + [last])
            == if last != ".." then before + [last] else if before == [] then [] else before[..|before| - 1]
  {
    assert (parts + [last])[..|parts|] == parts;
  }

  /** ".." at the root stays there. */
  lemma {:induction false} CollapseAtRoot(more: seq<string>)
    ensures Collapse([".."] + more) == Collapse(more)
  {
    if more == [] {
      assert [".."] + more == [".."];
    } else {
      var n := |more| - 1;
      CollapseAtRoot(more[..n]);
      CollapseLast([".."] + more[..n], more[n]);
      CollapseLast(more[..n], more[n]);
      assert [".."] + more == ([".."] + more[..n]) + [more[n]];
      assert more == more[..n] + [more[n]];
    }
  }

  // ----- The path check -----

  /** The check made on every path field: absolute, and unchanged by `normpath` as a `Path`. */
  predicate IsAbsoluteNormal(s: string) {
    s != "" && s[0] == '/' && Collapse(Parts(Split(s))) == Parts(Split(s))
  }

  lemma {:induction false} CollapseKeeps(parts: seq<string>)
    ensures Collapse(parts) == parts <==> ".." !in parts
  {
    if parts != [] {
      var init := parts[..|parts| - 1];
      CollapseKeeps(init);
      assert parts == init + [parts[|parts| - 1]];
    }
  }

  /** What the check really demands: an absolute path without a ".." component. */
  lemma AbsoluteNormalMeans(s: string)
    ensures IsAbsoluteNormal(s) <==> s != "" && s[0] == '/' && ".." !in Split(s)
  {
    CollapseKeeps(Parts(Split(s)));
  }

  lemma {:induction false} SplitConcat(a: string, b: string)
    ensures Split(a + "/" + b) == Split(a) + Split(b)
  {
    if a == "" {
      assert a + "/" + b == ['/'] + b;
      assert (['/'] + b)[1..] == b;
    } else {
      assert (a + "/" + b)[1..] == a[1..] + "/" + b;
      SplitConcat(a[1..], b);
    }
  }

  /** Appending a plain name to a path that passes gives a path that passes. */
  lemma AppendKeepsNormal(s: string, name: string)
    requires IsAbsoluteNormal(s) && ".." !in Split(name)
    ensures IsAbsoluteNormal(s + "/" + name)
  {
    AbsoluteNormalMeans(s);
    AbsoluteNormalMeans(s + "/" + name);
    SplitConcat(s, name);
  }

  lemma PlainPrefixAllowed(prefix: string, name: string)
    requires ".." !in Split(prefix) && ".." !in Split(name)
    ensures ".." !in Split(prefix + "/" + name)
  {
    SplitConcat(prefix, name);
  }

  /** So the check passes spellings that `normpath` rewrites: "/a//b" and "/a/./b" both pass. */
  lemma RedundantSpellingPasses(s: string, filler: string, name: string)
    requires IsAbsoluteNormal(s) && ".." !in Split(name)
    requires filler == "" || filler == "."
    ensures IsAbsoluteNormal(s + "/" + (filler + "/" + name))
  {
    assert ".." !in Split(filler);
    PlainPrefixAllowed(filler, name);
    AppendKeepsNormal(s, filler + "/" + name);
  }
}
