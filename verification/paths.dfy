/** String and path primitives the batch operations rely on: Go's
    `strings.IndexAny`, `strings.Index`, `path.Dir` and `filepath.Base` on a
    host whose path separator is '/'.

    `Dir` keeps only the part of Go's cleaning that removes trailing
    separators; `.`/`..` elements and repeated inner separators are left as
    they are. */
module Paths {

  /** `filepath.Separator` on the hosts the model describes. */
  const Separator: char := '/'

  /** The characters that turn an argument into a glob (`GlobCharacters`). */
  const GlobCharacters: string := "?*["

  predicate NoSep(s: string) {
    forall i :: 0 <= i < |s| ==> s[i] != Separator
  }

  predicate AllSeps(s: string) {
    forall i :: 0 <= i < |s| ==> s[i] == Separator
  }

  predicate EndsWithSep(s: string) {
    |s| > 0 && s[|s| - 1] == Separator
  }

  predicate HasPrefix<T(==)>(s: seq<T>, p: seq<T>) {
    |p| <= |s| && s[..|p|] == p
  }

  predicate HasSuffix(s: string, p: string) {
    |p| <= |s| && s[|s| - |p|..] == p
  }

  /** `strings.IndexAny`: the first position of `s` holding one of `chars`,
      or -1 when there is none. */
  function IndexAny(s: string, chars: string): (r: int)
    ensures -1 <= r < |s|
    ensures r == -1 <==> forall i :: 0 <= i < |s| ==> s[i] !in chars
    ensures 0 <= r ==> s[r] in chars && forall i :: 0 <= i < r ==> s[i] !in chars
  {
    if |s| == 0 then -1
    else if s[0] in chars then 0
    else
      var k := IndexAny(s[1..], chars);
      if k < 0 then -1 else k + 1
  }

  /** `sub` occurs in `s` starting at position `i`. */
  predicate OccursAt(s: string, sub: string, i: int) {
    0 <= i && i + |sub| <= |s| && s[i..i + |sub|] == sub
  }

  /** `strings.Index`: the first position at which `sub` occurs in `s`, or
      -1 when it does not occur. */
  function Index(s: string, sub: string): (r: int)
    ensures -1 <= r <= |s|
    ensures 0 <= r ==> OccursAt(s, sub, r)
    ensures 0 <= r ==> forall i :: 0 <= i < r ==> !OccursAt(s, sub, i)
    ensures r == -1 <==> forall i :: !OccursAt(s, sub, i)
    decreases |s|
  {
    if |s| < |sub| then -1
    else if s[..|sub|] == sub then
      assert OccursAt(s, sub, 0);
      0
    else
      var k := Index(s[1..], sub);
      assert forall j :: 1 <= j ==> (OccursAt(s, sub, j) <==> OccursAt(s[1..], sub, j - 1)) by {
        forall j | 1 <= j ensures OccursAt(s, sub, j) <==> OccursAt(s[1..], sub, j - 1) {
          if j + |sub| <= |s| {
            assert s[1..][j - 1..j - 1 + |sub|] == s[j..j + |sub|];
          }
        }
      }
      assert !OccursAt(s, sub, 0);
      if k < 0 then -1 else k + 1
  }

  /** `strings.Index(s, p) == 0` is exactly the prefix test. */
  lemma IndexZeroIffPrefix(s: string, p: string)
    ensures Index(s, p) == 0 <==> HasPrefix(s, p)
  {
  }

  /** The position of the last separator in `s`, or -1. */
  function LastSep(s: string): (r: int)
    ensures -1 <= r < |s|
    ensures 0 <= r ==> s[r] == Separator
    ensures forall i :: r < i < |s| ==> s[i] != Separator
  {
    if |s| == 0 then -1
    else if s[|s| - 1] == Separator then |s| - 1
    else LastSep(s[..|s| - 1])
  }

  /** `s` without its trailing run of separators. */
  function TrimTrailingSeps(s: string): (r: string)
    ensures HasPrefix(s, r)
    ensures r == [] || r[|r| - 1] != Separator
    ensures AllSeps(s[|r|..])
  {
    if |s| > 0 && s[|s| - 1] == Separator then TrimTrailingSeps(s[..|s| - 1]) else s
  }

  /** `path.Dir`: everything before the final element, without trailing
      separators; "." when there is no separator and "/" when only
      separators precede the final element. */
  function Dir(p: string): (r: string)
    ensures LastSep(p) < 0 ==> r == "."
    ensures 0 <= LastSep(p) && AllSeps(p[..LastSep(p) + 1]) ==> r == [Separator]
    ensures 0 <= LastSep(p) && !AllSeps(p[..LastSep(p) + 1]) ==>
              && r != []
              && HasPrefix(p, r)
              && r[|r| - 1] != Separator
              && |r| <= LastSep(p)
              && AllSeps(p[|r|..LastSep(p) + 1])
  {
    var i := LastSep(p);
    if i < 0 then "."
    else
      var d := TrimTrailingSeps(p[..i + 1]);
      assert p[..i + 1][|d|..] == p[|d|..i + 1];
      if d == [] then [Separator] else d
  }

  /** `filepath.Base`: the last element of `p` once trailing separators are
      dropped; "." for the empty path and "/" for a path of separators. */
  function Base(p: string): (r: string)
    ensures p == [] ==> r == "."
    ensures p != [] && AllSeps(p) ==> r == [Separator]
    ensures !AllSeps(p) ==>
              var t := TrimTrailingSeps(p);
              && r != []
              && NoSep(r)
              && HasSuffix(t, r)
              && (|r| == |t| || t[|t| - |r| - 1] == Separator)
  {
    if p == [] then "."
    else
      var t := TrimTrailingSeps(p);
      if t == [] then [Separator] else t[LastSep(t) + 1..]
  }

  /** `filepath.Join` of a directory and one entry name, without cleaning. */
  function Join(dir: string, name: string): (r: string)
    ensures HasSuffix(r, name)
    ensures dir == [] ==> r == name
    ensures dir != [] ==> HasPrefix(r, dir) && EndsWithSep(r[..|r| - |name|])
    ensures dir != [] ==> |r| - |name| == |dir| || |r| - |name| == |dir| + 1
  {
    if dir == [] then name
    else if EndsWithSep(dir) then dir + name
    else dir + [Separator] + name
  }
}
