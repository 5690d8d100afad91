/**
 * The two path helpers the repository takes from Go's path/filepath, on a
 * Unix-style file system whose separator is '/'.
 */
module Paths {

  const Separator: char := '/'

  /**
   * filepath.Join of two elements: the non-empty ones joined by one separator.
   * (filepath.Join also cleans the result lexically; that step is not modelled.)
   */
  function Join(dir: string, name: string): (p: string)
    ensures |p| <= |dir| + |name| + 1
    ensures |dir| <= |p| && p[..|dir|] == dir
    ensures |name| <= |p| && p[|p| - |name|..] == name
  {
    if dir == "" then name
    else if name == "" then dir
    else dir + [Separator] + name
  }

  /** `s` without its trailing separators. */
  function StripTrailing(s: string): (r: string)
    ensures |r| <= |s| && r == s[..|r|]
    ensures r == [] || r[|r| - 1] != Separator
    ensures forall i :: |r| <= i < |s| ==> s[i] == Separator
  {
    if s != [] && s[|s| - 1] == Separator then StripTrailing(s[..|s| - 1]) else s
  }

  /** The part of `s` after its last separator (all of `s` when it has none). */
  function LastElement(s: string): (r: string)
    ensures |r| <= |s| && r == s[|s| - |r|..]
    ensures Separator !in r
    ensures |r| < |s| ==> s[|s| - |r| - 1] == Separator
  {
    if s == [] || s[|s| - 1] == Separator then []
    else LastElement(s[..|s| - 1]) + [s[|s| - 1]]
  }

  /**
   * filepath.Base: the last element of the path after trailing separators are
   * dropped; "." for the empty path and "/" for a path of separators only.
   */
  function Base(path: string): (b: string)
    ensures b != []
    ensures b == [Separator] || Separator !in b
    ensures path == [] ==> b == "."
  {
    if path == [] then "."
    else
      var e := LastElement(StripTrailing(path));
      if e == [] then [Separator] else e
  }

  /** A name without separators is its own base name. */
  lemma BaseOfName(name: string)
    requires name != [] && Separator !in name
    ensures Base(name) == name
  {
    assert StripTrailing(name) == name;
    LastElementOfName(name);
  }

  lemma LastElementOfName(name: string)
    requires Separator !in name
    ensures LastElement(name) == name
  {
    var r := LastElement(name);
    assert forall i :: 0 <= i < |name| ==> name[i] != Separator;
    assert |r| == |name|;
    assert r == name[0..];
  }

  /** The base name of `dir` joined with a plain name is that name. */
  lemma BaseOfJoin(dir: string, name: string)
    requires name != [] && Separator !in name
    ensures Base(Join(dir, name)) == name
  {
    if dir == "" {
      BaseOfName(name);
    } else {
      var p := dir + [Separator] + name;
      assert StripTrailing(p) == p;
      LastElementAfter(dir + [Separator], name);
      assert p == (dir + [Separator]) + name;
    }
  }

  lemma {:induction false} LastElementAfter(pre: string, name: string)
    requires pre != [] && pre[|pre| - 1] == Separator
    requires Separator !in name
    ensures LastElement(pre + name) == name
    decreases |name|
  {
    if name == [] {
      assert pre + name == pre;
    } else {
      var init := name[..|name| - 1];
      NoSeparatorInPrefix(name, |name| - 1);
      LastElementAfter(pre, init);
      DropLastOfConcat(pre, name);
      InitAndLast(name);
      LastElementStep(pre + name, init, name[|name| - 1], name);
    }
  }

  lemma NoSeparatorInPrefix(name: string, k: nat)
    requires Separator !in name && k <= |name|
    ensures Separator !in name[..k]
  {
    forall i | 0 <= i < k ensures name[..k][i] != Separator {
      assert name[..k][i] == name[i];
    }
  }

  lemma DropLastOfConcat(a: string, b: string)
    requires b != []
    ensures (a + b)[..|a + b| - 1] == a + b[..|b| - 1]
  {
  }

  lemma InitAndLast(s: string)
    requires s != []
    ensures s == s[..|s| - 1] + [s[|s| - 1]]
  {
  }

  lemma LastElementStep(s: string, init: string, c: char, name: string)
    requires s != [] && s[|s| - 1] == c && c != Separator
    requires LastElement(s[..|s| - 1]) == init && name == init + [c]
    ensures LastElement(s) == name
  {
  }
}
