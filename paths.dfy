/**
 * Path and string utilities the scanner relies on: Unix-style `OS.Path.join` and
 * `OS.Path.basename`, the scanner's own `extension`, ASCII lower-casing and `endsWith`.
 */
module Paths {
  import opened Wrappers

  /** Index of the last occurrence of `c` in `s`, or -1 when there is none. */
  function LastIndexOf(s: string, c: char): (r: int)
    ensures -1 <= r < |s|
  {
    if |s| == 0 then -1
    else if s[|s| - 1] == c then |s| - 1
    else LastIndexOf(s[..|s| - 1], c)
  }

  /** `LastIndexOf` finds the last occurrence, or -1 when there is none. */
  lemma {:induction false} LastIndexOfSpec(s: string, c: char)
    ensures var r := LastIndexOf(s, c);
      && (r >= 0 ==> s[r] == c)
      && forall k :: r < k < |s| ==> s[k] != c
  {
    if |s| > 0 && s[|s| - 1] != c {
      LastIndexOfSpec(s[..|s| - 1], c);
    }
  }

  /** `OS.Path.join(base, name)`: the two parts separated by one '/'. */
  function Join(base: string, name: string): string
  {
    base + "/" + name
  }

  /** `OS.Path.basename(p)`: everything after the last '/'. */
  function Basename(p: string): string
  {
    p[LastIndexOf(p, '/') + 1..]
  }

  /** The base name is the longest slash-free suffix of the path. */
  lemma BasenameSpec(p: string)
    ensures var r := Basename(p);
      && '/' !in r
      && |r| <= |p| && r == p[|p| - |r|..]
      && (|r| < |p| ==> p[|p| - |r| - 1] == '/')
  {
    LastIndexOfSpec(p, '/');
  }

  /** The base name of a joined path is the base name of its last part. */
  lemma BasenameOfJoin(base: string, name: string)
    ensures Basename(Join(base, name)) == Basename(name)
  {
    var j := Join(base, name);
    var b := Basename(name);
    var r := Basename(j);
    BasenameSpec(j);
    BasenameSpec(name);
    assert j == base + "/" + name;
    // Both are slash-free suffixes of `j` preceded by a '/' (or the start of `name`).
    if |b| < |name| {
      assert j[|j| - |b| - 1] == name[|name| - |b| - 1] == '/';
    } else {
      assert j[|j| - |b| - 1] == '/';
    }
    assert j[|j| - |b|..] == b;
  }

  /**
   * `FolderScanner.extension(path)`: nothing when the base name starts with '.'
   * or holds no '.', otherwise the text after its last '.', case preserved
   * (empty for a name that ends in '.').
   */
  function Extension(path: string): Option<string>
  {
    var name := Basename(path);
    if |name| > 0 && name[0] == '.' then None
    else
      var dot := LastIndexOf(name, '.');
      if dot < 0 then None else Some(name[dot + 1..])
  }

  /**
   * What `extension` returns: nothing exactly when the base name starts with '.'
   * or holds no '.'; otherwise the slash- and dot-free text after its last '.'.
   */
  lemma ExtensionSpec(path: string)
    ensures var name := Basename(path); var r := Extension(path);
      && (r.None? <==> ((|name| > 0 && name[0] == '.') || '.' !in name))
      && (r.Some? ==>
            && '.' !in r.value && '/' !in r.value
            && |r.value| < |name|
            && name[|name| - |r.value| - 1] == '.'
            && name[|name| - |r.value|..] == r.value)
  {
    BasenameSpec(path);
    LastIndexOfSpec(Basename(path), '.');
  }

  /** The extension of a joined path is that of its last part. */
  lemma ExtensionOfJoin(base: string, name: string)
    ensures Extension(Join(base, name)) == Extension(name)
  {
    BasenameOfJoin(base, name);
  }

  function LowerChar(c: char): char
  {
    if 'A' <= c <= 'Z' then (c as int + 32) as char else c
  }

  /** `toLowerCase()` restricted to ASCII letters. */
  function Lower(s: string): (r: string)
    ensures |r| == |s|
    ensures forall k :: 0 <= k < |s| ==> r[k] == LowerChar(s[k])
  {
    seq(|s|, k requires 0 <= k < |s| => LowerChar(s[k]))
  }

  /** A string already in lower case. */
  predicate IsLower(s: string)
  {
    forall k :: 0 <= k < |s| ==> !('A' <= s[k] <= 'Z')
  }

  /** Lower-casing yields a lower-case string and leaves one unchanged. */
  lemma LowerIsLower(s: string)
    ensures IsLower(Lower(s))
    ensures IsLower(s) ==> Lower(s) == s
  {
  }

  /** `s.endsWith(suffix)`. */
  predicate EndsWith(s: string, suffix: string)
  {
    |suffix| <= |s| && s[|s| - |suffix|..] == suffix
  }
}
