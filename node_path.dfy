/**
 * The results of Node's POSIX `path.dirname`, `path.extname` and `path.basename`
 * that the server relies on (`path.sep` is '/').
 */
module NodePath {

  const SEP: char := '/'

  /**
   * The backward scan of `path.dirname`: from index `i` down to 1, the first slash
   * met after at least one non-slash character, or -1.
   */
  function DirnameEnd(p: string, i: int, matchedSlash: bool): (r: int)
    requires i < |p|
    ensures r == -1 || (1 <= r <= i && p[r] == SEP)
    decreases i
  {
    if i < 1 then -1
    else if p[i] == SEP then (if !matchedSlash then i else DirnameEnd(p, i - 1, true))
    else DirnameEnd(p, i - 1, false)
  }

  /** `path.dirname(p)`. */
  function Dirname(p: string): string {
    if |p| == 0 then "."
    else
      var end := DirnameEnd(p, |p| - 1, true);
      if end == -1 then (if p[0] == SEP then "/" else ".")
      else if p[0] == SEP && end == 1 then "//"
      else p[..end]
  }

  lemma {:induction false} DirnameEndFindsSlash(p: string, j: int, i: int, matchedSlash: bool)
    requires 1 <= j <= i < |p| && p[j] == SEP
    requires forall k :: j < k <= i ==> p[k] != SEP
    requires !matchedSlash || j < i
    ensures DirnameEnd(p, i, matchedSlash) == j
    decreases i
  {
    if i > j {
      DirnameEndFindsSlash(p, j, i - 1, false);
    }
  }

  lemma {:induction false} DirnameEndNoSlash(p: string, i: int, matchedSlash: bool)
    requires i < |p|
    requires forall k :: 1 <= k <= i ==> p[k] != SEP
    ensures DirnameEnd(p, i, matchedSlash) == -1
    decreases i
  {
    if i >= 1 {
      DirnameEndNoSlash(p, i - 1, false);
    }
  }

  /** The directory of `dir/name` is `dir`, when `dir` does not end in a slash. */
  lemma DirnameOfChild(dir: string, name: string)
    requires dir != "" && dir[|dir| - 1] != SEP
    requires name != "" && SEP !in name
    ensures Dirname(dir + [SEP] + name) == dir
  {
    var p := dir + [SEP] + name;
    forall k | |dir| < k <= |p| - 1
      ensures p[k] != SEP
    {
      assert p[k] == name[k - |dir| - 1];
    }
    if |dir| >= 1 {
      DirnameEndFindsSlash(p, |dir|, |p| - 1, true);
    }
    assert p[..|dir|] == dir;
  }

  /** A name without a slash lies in the current directory ".". */
  lemma DirnameOfPlainName(name: string)
    requires SEP !in name
    ensures Dirname(name) == "."
  {
    if |name| > 0 {
      DirnameEndNoSlash(name, |name| - 1, true);
    }
  }

  /** The index of the last occurrence of `c` in `s`, or -1. */
  function LastIndexOf(s: string, c: char): (r: int)
    ensures -1 <= r < |s|
    ensures r >= 0 ==> s[r] == c
    ensures forall k :: r < k < |s| ==> s[k] != c
  {
    if |s| == 0 then -1
    else if s[|s| - 1] == c then |s| - 1
    else LastIndexOf(s[..|s| - 1], c)
  }

  /**
   * `path.extname(n)` for a name without a slash: from the last dot on, unless there is
   * no dot, the dot is the first character (".wav"), or the name is "..".
   */
  function Extname(n: string): (ext: string)
    requires SEP !in n
    ensures ext == "" || (ext[0] == '.' && '.' !in ext[1..])
  {
    var d := LastIndexOf(n, '.');
    if d <= 0 || n == ".." then ""
    else
      assert forall k :: 1 <= k < |n[d..]| ==> n[d..][k] == n[d + k];
      n[d..]
  }

  /**
   * `path.basename(n, Extname(n))` for a name without a slash: the name with its
   * extension cut off.
   */
  function BasenameWithoutExt(n: string): (base: string)
    requires SEP !in n
    ensures base + Extname(n) == n
  {
    var ext := Extname(n);
    assert n[..|n| - |ext|] + n[|n| - |ext|..] == n;
    n[..|n| - |ext|]
  }
}
