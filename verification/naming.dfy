/** How a batch names things: the prefix it trims from discovered paths, the
    glob the copy batch runs over an existing directory, and the destination
    name of each discovered file under the "parents" and the default
    (flatten) policy. */
module Naming {
  import opened Paths

  /** The trim prefix computed once per batch from `p`, which is the literal
      part of the glob (everything before its first glob character) or the
      walked directory itself: the directory part of `p` with a separator
      appended, or empty when that directory part is ".".

      When only separators precede the last element of `p` (a source such as
      "/x?" or "/tmp"), the directory part is "/" and a second separator is
      still appended, giving "//". */
  function TrimPrefixOf(p: string): (r: string)
    ensures r == [] || EndsWithSep(r)
    ensures LastSep(p) < 0 ==> r == []
    ensures r == "//" <==> 0 <= LastSep(p) && AllSeps(p[..LastSep(p) + 1])
    ensures r != "//" ==> HasPrefix(p, r)
    ensures r == [] <==> LastSep(p) < 0 || Dir(p) == "."
    ensures r != [] ==> |r| >= 2
    ensures r != [] && r != "//" ==>
              && |r| <= LastSep(p) + 1
              && r[|r| - 2] != Separator
              && AllSeps(p[|r|..LastSep(p) + 1])
  {
    var d := Dir(p);
    if d == "." then []
    else
      var i := LastSep(p);
      var r := d + [Separator];
      assert r != "//" ==> AllSeps(p[|r|..i + 1]) by {
        if r != "//" {
          var tail, run := p[|r|..i + 1], p[|d|..i + 1];
          assert forall k :: 0 <= k < |tail| ==> tail[k] == run[k + 1];
        }
      }
      assert r == "//" <==> AllSeps(p[..i + 1]) by {
        if AllSeps(p[..i + 1]) {
          assert d == [Separator];
        } else {
          assert r[|r| - 2] == d[|d| - 1] != Separator;
        }
      }
      assert r != "//" ==> HasPrefix(p, r) by {
        if !AllSeps(p[..i + 1]) {
          assert p[|d|] == p[|d|..i + 1][0] == Separator;
          assert p[..|r|] == p[..|d|] + [p[|d|]];
        }
      }
      r
  }

  /** Two non-empty prefixes of `p` that end in a non-separator and are
      followed only by separators up to the last separator of `p` are the
      same: the directory part of `p` is determined. */
  lemma DirectoryPartUnique(p: string, a: string, b: string)
    requires 0 <= LastSep(p)
    requires a != [] && HasPrefix(p, a) && a[|a| - 1] != Separator
    requires |a| <= LastSep(p) && AllSeps(p[|a|..LastSep(p) + 1])
    requires b != [] && HasPrefix(p, b) && b[|b| - 1] != Separator
    requires |b| <= LastSep(p) && AllSeps(p[|b|..LastSep(p) + 1])
    ensures a == b
  {
  }

  /** The trim prefix is the one prefix `q` of `p` that ends with a
      separator not preceded by another and is followed only by separators
      up to the last separator of `p`: the directory part of `p` through
      the first separator after it. The exception is "./", whose directory
      part "." yields no trim prefix at all. */
  lemma TrimPrefixIsDirectoryPart(p: string, q: string)
    requires HasPrefix(p, q) && |q| >= 2 && EndsWithSep(q) && q[|q| - 2] != Separator
    requires |q| <= LastSep(p) + 1 && AllSeps(p[|q|..LastSep(p) + 1])
    requires q != "./"
    ensures TrimPrefixOf(p) == q
  {
    var l := LastSep(p);
    var d := q[..|q| - 1];
    assert p[|q| - 2] == p[..|q|][|q| - 2] == q[|q| - 2];
    assert p[|d|] == p[..|q|][|d|] == Separator;
    assert !AllSeps(p[..l + 1]) by {
      assert p[..l + 1][|q| - 2] == p[|q| - 2];
    }
    assert HasPrefix(p, d) by {
      assert p[..|d|] == p[..|q|][..|d|];
    }
    assert AllSeps(p[|d|..l + 1]) by {
      var run, tail := p[|d|..l + 1], p[|q|..l + 1];
      assert forall k :: 0 < k < |run| ==> run[k] == tail[k - 1];
    }
    DirectoryPartUnique(p, Dir(p), d);
    assert q == d + [Separator];
  }

  /** In walk mode the copy batch globs the directory's immediate entries:
      the source with exactly one separator at its end, then "*". */
  function GlobStart(src: string): (r: string)
    ensures HasPrefix(r, src)
    ensures HasSuffix(r, "/*")
    ensures EndsWithSep(src) ==> |r| == |src| + 1
    ensures !EndsWithSep(src) ==> |r| == |src| + 2
  {
    var dir := if EndsWithSep(src) then src else src + [Separator];
    dir + "*"
  }

  /** Parents naming: the discovered path with the trim prefix removed when
      it starts with it (`strings.Index(p, trim) == 0`), otherwise unchanged. */
  function ParentsName(p: string, trim: string): (r: string)
    ensures HasPrefix(p, trim) ==> trim + r == p
    ensures !HasPrefix(p, trim) ==> r == p
    ensures |r| <= |p|
  {
    IndexZeroIffPrefix(p, trim);
    if Index(p, trim) == 0 then p[|trim|..] else p
  }

  /** Flatten naming: the base name of the discovered path, so the name
      holds no separator and all directory structure is discarded. */
  function FlattenName(p: string): (r: string)
    ensures !AllSeps(p) ==>
              var t := TrimTrailingSeps(p);
              && r != [] && NoSep(r) && HasSuffix(t, r)
              && (|r| == |t| || t[|t| - |r| - 1] == Separator)
    ensures !AllSeps(p) && !EndsWithSep(p) ==> HasSuffix(p, r)
  {
    Base(p)
  }

  /** The destination file name of a discovered path under the batch's
      naming policy. */
  function DestName(p: string, trim: string, parents: bool): (r: string)
    ensures parents && HasPrefix(p, trim) ==> trim + r == p
    ensures parents && !HasPrefix(p, trim) ==> r == p
    ensures !parents && !AllSeps(p) ==>
              var t := TrimTrailingSeps(p);
              && r != [] && NoSep(r) && HasSuffix(t, r)
              && (|r| == |t| || t[|t| - |r| - 1] == Separator)
  {
    if parents then ParentsName(p, trim) else FlattenName(p)
  }

  /** With nothing to trim, parents naming keeps the discovered path. */
  lemma ParentsWithEmptyPrefix(p: string)
    ensures DestName(p, [], true) == p
  {
  }

  /** Flatten naming depends on the discovered path alone: neither the trim
      prefix nor anything else about the batch changes it, so re-running a
      batch over an unchanged tree yields the same names. */
  lemma FlattenIgnoresTrimPrefix(p: string, t1: string, t2: string)
    ensures DestName(p, t1, false) == DestName(p, t2, false)
    ensures !AllSeps(p) ==> NoSep(DestName(p, t1, false))
  {
  }

  /** A glob match begins with the pattern's literal part; parents naming
      then strips exactly the trim prefix from it, so prefix and name
      concatenate back to the match. The root case, whose trim prefix is
      "//", is excluded. */
  lemma ParentsNameOfGlobMatch(literal: string, m: string)
    requires HasPrefix(m, literal)
    requires TrimPrefixOf(literal) != "//"
    ensures TrimPrefixOf(literal) + DestName(m, TrimPrefixOf(literal), true) == m
  {
    var t := TrimPrefixOf(literal);
    assert m[..|t|] == literal[..|t|];
  }

  /** The root case: for the glob "/x?" the trim prefix is "//", which no match such
      as "/etc" starts with, so parents naming keeps the whole absolute
      path, whereas one level down ("/a/x?") the directory is stripped. */
  lemma RootGlobKeepsAbsolutePath()
    ensures TrimPrefixOf("/") == "//"
    ensures DestName("/etc", TrimPrefixOf("/"), true) == "/etc"
    ensures TrimPrefixOf("/a/") == "/a/"
    ensures DestName("/a/etc", TrimPrefixOf("/a/"), true) == "etc"
  {
    assert LastSep("/") == 0;
    assert AllSeps("/"[..1]);
    assert !HasPrefix("/etc", "//") by { assert "/etc"[1] == 'e'; }
    var t := TrimPrefixOf("/a/");
    assert LastSep("/a/") == 2;
    assert !AllSeps("/a/"[..3]) by { assert "/a/"[1] == 'a'; }
    assert Dir("/a/") == "/a";
    assert HasPrefix("/a/etc", "/a/");
  }

  // The example lemmas below take their literal inputs as parameters fixed
  // by `requires`: stated on the literals themselves, the recursive string
  // functions are unfolded at every literal they meet, which is far more
  // work for the solver than unfolding them once at a parameter.

  lemma ExampleTrim(p: string)
    requires p == "/a/b/"
    ensures TrimPrefixOf(p) == p
  {
    assert LastSep(p) == 4;
    assert p[3] == 'b';
    TrimPrefixIsDirectoryPart(p, p);
  }

  lemma ExampleBase(f: string)
    requires f == "/a/b/c/d.txt"
    ensures Base(f) == "d.txt"
  {
    assert f[6] == Separator && forall i :: 6 < i < |f| ==> f[i] != Separator;
    assert LastSep(f) == 6;
    assert TrimTrailingSeps(f) == f;
  }

  /** Parents and flatten naming of the same file in a tree rooted at
      "/a/b/": the file "/a/b/c/d.txt" is named "c/d.txt" and "d.txt". */
  lemma NamingExample(root: string, f: string)
    requires root == "/a/b/" && f == "/a/b/c/d.txt"
    ensures TrimPrefixOf(root) == root
    ensures DestName(f, TrimPrefixOf(root), true) == "c/d.txt"
    ensures DestName(f, TrimPrefixOf(root), false) == "d.txt"
  {
    ExampleTrim(root);
    ExampleBase(f);
    assert f[..5] == root;
    var name := ParentsName(f, root);
    assert root + name == f;
    assert name == f[5..] == "c/d.txt";
    assert DestName(f, root, false) == FlattenName(f) == Base(f);
  }
}
