/** The three POSIX path helpers the bot uses: `os.path.join` with two
    arguments, `os.path.splitext` and `os.path.basename`. */
module Paths {

  /** `s.rfind(c)`: the index of the last `c` in `s`, or -1. */
  function RFind(s: string, c: char): (i: int)
    ensures -1 <= i < |s|
    ensures i >= 0 ==> s[i] == c
    ensures forall j :: i < j < |s| ==> s[j] != c
  {
    if |s| == 0 then -1
    else if s[|s| - 1] == c then |s| - 1
    else RFind(s[..|s| - 1], c)
  }

  /** `os.path.join(a, b)`: an absolute `b` replaces `a`; otherwise `b` is
      appended, with a `/` in between unless `a` is empty or already ends
      in one. */
  function PathJoin(a: string, b: string): (p: string)
    ensures |b| <= |p| && p[|p| - |b|..] == b
    ensures !(|b| > 0 && b[0] == '/') ==> a <= p
  {
    if |b| > 0 && b[0] == '/' then b
    else if a == [] || a[|a| - 1] == '/' then a + b
    else a + "/" + b
  }

  /** Joining a relative name onto a directory without a trailing slash
      puts exactly one `/` between them. */
  lemma JoinRelative(a: string, b: string)
    requires a != [] && a[|a| - 1] != '/'
    requires b == [] || b[0] != '/'
    ensures PathJoin(a, b) == a + "/" + b
  {
  }

  /** `os.path.basename(p)`: what follows the last `/`. */
  function Basename(p: string): (b: string)
    ensures |b| <= |p| && b == p[|p| - |b|..]
    ensures '/' !in b
    ensures |b| < |p| ==> p[|p| - |b| - 1] == '/'
  {
    p[RFind(p, '/') + 1..]
  }

  /** Some character of `s[lo..hi]` is not a dot. */
  predicate HasNonDot(s: string, lo: int, hi: int)
    requires 0 <= lo && hi <= |s|
  {
    exists k | lo <= k < hi :: s[k] != '.'
  }

  /** `os.path.splitext(p)`: the extension is the text from the last dot of
      the last path component, provided that dot is not part of the
      component's leading run of dots; otherwise it is empty. */
  function SplitExt(p: string): (r: (string, string))
    ensures r.0 + r.1 == p
    ensures r.1 == [] || (r.1[0] == '.' && '.' !in r.1[1..] && '/' !in r.1)
  {
    var sepIndex := RFind(p, '/');
    var dotIndex := RFind(p, '.');
    if dotIndex > sepIndex && HasNonDot(p, sepIndex + 1, dotIndex) then
      assert p[dotIndex..][1..] == p[dotIndex + 1..];
      (p[..dotIndex], p[dotIndex..])
    else
      (p, "")
  }

  /** A name with a non-dot character before its last dot has the text from
      that dot on as its extension. */
  lemma SplitExtAtLastDot(p: string, i: nat)
    requires i < |p| && p[i] == '.'
    requires '.' !in p[i + 1..] && '/' !in p
    requires exists k | 0 <= k < i :: p[k] != '.'
    ensures SplitExt(p) == (p[..i], p[i..])
  {
    assert RFind(p, '/') == -1;
    assert forall j | i < j < |p| :: p[j] == p[i + 1..][j - i - 1];
    assert RFind(p, '.') == i;
  }

  /** A name made of dots only before its last dot (a "hidden" file such as
      `.mp3`) has no extension. */
  lemma SplitExtHidden(p: string)
    requires |p| > 0 && p[0] == '.' && '.' !in p[1..] && '/' !in p
    ensures SplitExt(p) == (p, "")
  {
    assert RFind(p, '/') == -1;
    assert forall j | 0 < j < |p| :: p[j] == p[1..][j - 1];
    assert RFind(p, '.') == 0;
  }

  /** A path without a slash is its own basename. */
  lemma BasenameNoSlash(p: string)
    requires '/' !in p
    ensures Basename(p) == p
  {
    assert RFind(p, '/') == -1;
  }

  /** The basename of `dir/name` is `name` when `name` has no slash. */
  lemma BasenameOfJoined(dir: string, name: string)
    requires '/' !in name
    ensures Basename(dir + "/" + name) == name
  {
    var p := dir + "/" + name;
    var i := RFind(p, '/');
    assert p[|dir|] == '/';
    assert i == |dir|;
    assert p[i + 1..] == name;
  }
}
