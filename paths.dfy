/**
  The object-key arithmetic both handlers share: Python's `str.rfind`,
  `os.path.basename`, `os.path.splitext` (POSIX flavour), and the name of the
  error record an invocation writes when it fails.
 */
module Paths {

  /** Python's `p.rfind(c)` for one character: its last index in `p`, or -1. */
  function LastIndexOf(p: string, c: char): (i: int)
    ensures -1 <= i < |p|
    ensures i >= 0 ==> p[i] == c
    ensures forall k | i < k < |p| :: p[k] != c
  {
    if |p| == 0 then -1
    else if p[|p| - 1] == c then |p| - 1
    else LastIndexOf(p[..|p| - 1], c)
  }

  /** `os.path.basename(p)`: what follows the last '/' of `p`. */
  function Basename(p: string): (r: string)
    ensures '/' !in r
    ensures |r| <= |p| && p == p[..|p| - |r|] + r
    ensures |r| < |p| ==> p[|p| - |r| - 1] == '/'
  {
    p[LastIndexOf(p, '/') + 1..]
  }

  /** Some character of `p[lo..hi]` is not a dot. */
  predicate HasNonDot(p: string, lo: int, hi: int)
    requires 0 <= lo <= hi <= |p|
  {
    exists k | lo <= k < hi :: p[k] != '.'
  }

  /**
    `os.path.splitext(p)`: the extension is the part from the last dot on,
    provided that dot comes after the last '/' and is not one of the dots the
    final path component starts with; otherwise the extension is empty.
    The two parts put back together give `p`.
   */
  function SplitExt(p: string): (r: (string, string))
    ensures r.0 + r.1 == p
    ensures r.1 != [] ==> r.1[0] == '.' && '.' !in r.1[1..] && '/' !in r.1
  {
    var sepIndex := LastIndexOf(p, '/');
    var dotIndex := LastIndexOf(p, '.');
    if dotIndex > sepIndex && HasNonDot(p, sepIndex + 1, dotIndex)
    then (p[..dotIndex], p[dotIndex..])
    else (p, [])
  }

  /** `os.path.splitext(p)[0]`. */
  function Stem(p: string): string {
    SplitExt(p).0
  }

  /**
    The usual case of `splitext`: a name `b` with no '/' and some character
    other than a dot, followed by an extension made of one dot and no other
    dot or '/', splits back into `b` and that extension.
   */
  lemma SplitExtOf(b: string, ext: string)
    requires '/' !in b && HasNonDot(b, 0, |b|)
    requires |ext| > 0 && ext[0] == '.' && '.' !in ext[1..] && '/' !in ext
    ensures SplitExt(b + ext) == (b, ext)
  {
    var p := b + ext;
    var dotIndex := LastIndexOf(p, '.');
    assert p[|b|] == '.';
    assert dotIndex == |b|;
    var sepIndex := LastIndexOf(p, '/');
    assert sepIndex == -1;
    var k :| 0 <= k < |b| && b[k] != '.';
    assert p[k] == b[k];
    assert p[..dotIndex] == b;
    assert p[dotIndex..] == ext;
  }

  /** A name without a dot has no extension. */
  lemma SplitExtNoDot(b: string)
    requires '.' !in b
    ensures SplitExt(b) == (b, [])
  {
    assert LastIndexOf(b, '.') == -1;
  }

  /** The base name of a key is what follows its last '/'. */
  lemma BasenameOf(dir: string, name: string)
    requires '/' !in name
    ensures Basename(dir + "/" + name) == name
  {
    var p := dir + "/" + name;
    assert p[|dir|] == '/';
    assert LastIndexOf(p, '/') == |dir|;
    assert p[|dir| + 1..] == name;
  }

  /**
    The key `dir/b.ext` of an object with base name `b` and a one-dot
    extension `ext`: its base name is `b.ext` and its stem is `b`.
   */
  lemma BaseStem(dir: string, b: string, ext: string)
    requires '/' !in b && HasNonDot(b, 0, |b|)
    requires |ext| > 0 && ext[0] == '.' && '.' !in ext[1..] && '/' !in ext
    ensures Basename(dir + "/" + b + ext) == b + ext
    ensures Stem(Basename(dir + "/" + b + ext)) == b
  {
    assert dir + "/" + b + ext == dir + "/" + (b + ext);
    BasenameOf(dir, b + ext);
    SplitExtOf(b, ext);
  }

  /**
    The key of the error record either handler writes when an invocation
    fails: the error folder, then the object's base name without its
    extension, then ".txt".
   */
  function ErrorKey(errorFolder: string, objectKey: string): string {
    errorFolder + "/" + Stem(Basename(objectKey)) + ".txt"
  }
}
