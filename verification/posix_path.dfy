/**
  The two pieces of `os.path` (POSIX flavour) that the preparer applies to
  path strings: `basename` and the extension half of `splitext`.
*/
module PosixPath {
  import opened Wrappers

  /** Position of the last occurrence of `c` in `s` (`str.rfind`). */
  function LastIndexOf(s: string, c: char): (r: Option<nat>)
    ensures r.None? <==> c !in s
    ensures r.Some? ==> r.value < |s| && s[r.value] == c && c !in s[r.value + 1..]
  {
    if s == [] then None
    else if s[|s| - 1] == c then Some(|s| - 1)
    else LastIndexOf(s[..|s| - 1], c)
  }

  /** `os.path.basename`: everything after the last '/'. */
  function Basename(p: string): (b: string)
    ensures '/' !in b
  {
    match LastIndexOf(p, '/')
    case None => p
    case Some(k) => p[k + 1..]
  }

  predicate AllDots(s: string) {
    forall i :: 0 <= i < |s| ==> s[i] == '.'
  }

  /**
    The extension that `os.path.splitext` splits off a base name: from its
    last '.' on, or "" when there is no '.' or only dots come before the last
    one (so ".png" alone has no extension).
  */
  function NameExt(b: string): (e: string)
    ensures e != [] ==> e[0] == '.' && '.' !in e[1..]
  {
    match LastIndexOf(b, '.')
    case None => ""
    case Some(d) =>
      if AllDots(b[..d]) then ""
      else
        assert b[d..][1..] == b[d + 1..];
        b[d..]
  }

  /** `os.path.splitext(p)[1]`: the extension of the base name of `p`. */
  function Ext(p: string): (e: string)
    ensures e != [] ==> e[0] == '.' && '/' !in e && '.' !in e[1..]
  {
    var b := Basename(p);
    var e := NameExt(b);
    assert '/' !in e by {
      if e != [] {
        var d := LastIndexOf(b, '.').value;
        forall i | 0 <= i < |e| ensures e[i] != '/' {
          assert e[i] == b[d + i];
        }
      }
    }
    e
  }

  /** The base name is the part of the path after its last '/', or the whole path. */
  lemma BasenameSuffix(p: string)
    ensures |Basename(p)| <= |p| && p[|p| - |Basename(p)|..] == Basename(p)
    ensures |Basename(p)| < |p| ==> p[|p| - |Basename(p)| - 1] == '/'
  {
  }

  /**
    The extension is a suffix of the base name, and some character other
    than '.' comes before it in the base name.
  */
  lemma ExtSuffix(p: string)
    ensures var b, e := Basename(p), Ext(p);
      |e| <= |b| && b[|b| - |e|..] == e && (e != [] ==> !AllDots(b[..|b| - |e|]))
  {
    var b := Basename(p);
    match LastIndexOf(b, '.')
    case None =>
    case Some(d) =>
      assert b[..|b| - |b[d..]|] == b[..d];
  }

  /**
    A base name whose last '.' comes after something other than leading dots
    has the extension that starts at that '.'.
  */
  lemma NameExtFromLastDot(b: string, d: nat)
    requires d < |b| && b[d] == '.' && '.' !in b[d + 1..] && !AllDots(b[..d])
    ensures NameExt(b) == b[d..]
  {
    LastIndexOfFrom(b, d, '.');
  }

  /**
    A path whose base name holds a '.' after something other than leading
    dots has the extension that starts at the last such '.': here `k` is the
    position of a character other than '.', and no '/' comes after it.
  */
  lemma ExtFromLastDot(p: string, k: nat, d: nat)
    requires k < d < |p| && p[k] != '.' && '/' !in p[k..]
    requires p[d] == '.' && '.' !in p[d + 1..]
    ensures Ext(p) == p[d..]
  {
    LastIndexOfAfter(p, k, '/');
    var b := Basename(p);
    var s := |p| - |b|;
    assert s <= k by {
      match LastIndexOf(p, '/')
      case None =>
      case Some(x) =>
    }
    assert b == p[s..];
    assert b[d - s] == '.' && b[d - s + 1..] == p[d + 1..];
    assert b[k - s] == p[k];
    assert !AllDots(b[..d - s]) by { assert b[..d - s][k - s] == p[k]; }
    NameExtFromLastDot(b, d - s);
    assert b[d - s..] == p[d..];
  }

  /** The last `c` is at `d` when `c` is at `d` and not after it. */
  lemma LastIndexOfFrom(s: string, d: nat, c: char)
    requires d < |s| && s[d] == c && c !in s[d + 1..]
    ensures LastIndexOf(s, c) == Some(d)
  {
    assert s == s[..d + 1] + s[d + 1..];
    LastIndexOfAppend(s[..d + 1], s[d + 1..], c);
  }

  /** When `c` does not occur from `k` on, the last `c` (if any) comes before `k`. */
  lemma LastIndexOfAfter(s: string, k: nat, c: char)
    requires k <= |s| && c !in s[k..]
    ensures LastIndexOf(s, c).Some? ==> LastIndexOf(s, c).value < k
  {
    forall j | k <= j < |s| ensures s[j] != c {
      assert s[j] == s[k..][j - k];
    }
  }

  /** Text without `c` appended at the end does not move the last `c`. */
  lemma {:induction false} LastIndexOfAppend(a: string, b: string, c: char)
    requires c !in b
    ensures LastIndexOf(a + b, c) == LastIndexOf(a, c)
    decreases |b|
  {
    if b != [] {
      assert (a + b)[..|a + b| - 1] == a + b[..|b| - 1];
      LastIndexOfAppend(a, b[..|b| - 1], c);
    } else {
      assert a + b == a;
    }
  }

  /** Appending text that holds no '/' to a directory and a '/' gives that text back as the base name. */
  lemma BasenameOfChild(dir: string, name: string)
    requires '/' !in name
    ensures Basename(dir + "/" + name) == name
  {
    var p := dir + "/" + name;
    LastIndexOfAppend(dir + "/", name, '/');
    assert LastIndexOf(dir + "/", '/') == Some(|dir|);
    assert p[|dir| + 1..] == name;
  }

  /** A name `stem + ext`, where the stem is not all dots and holds no '.', has extension `ext`. */
  lemma NameExtOfStem(stem: string, ext: string)
    requires !AllDots(stem) && '.' !in stem
    requires |ext| >= 1 && ext[0] == '.' && '.' !in ext[1..]
    ensures NameExt(stem + ext) == ext
  {
    var b := stem + ext;
    assert b == (stem + ".") + ext[1..];
    LastIndexOfAppend(stem + ".", ext[1..], '.');
    assert LastIndexOf(stem + ".", '.') == Some(|stem|);
    assert b[..|stem|] == stem;
    assert b[|stem|..] == ext;
  }

  /**
    A child named `stem + ext` of any directory, where the stem is not all
    dots and holds neither '/' nor '.', and `ext` is '.' followed by text free
    of both, has that name as its base name and exactly `ext` as extension.
  */
  lemma ExtOfChild(dir: string, stem: string, ext: string)
    requires !AllDots(stem) && '/' !in stem && '.' !in stem
    requires |ext| >= 1 && ext[0] == '.' && '/' !in ext && '.' !in ext[1..]
    ensures Basename(dir + "/" + stem + ext) == stem + ext
    ensures Ext(dir + "/" + stem + ext) == ext
  {
    assert dir + "/" + stem + ext == dir + "/" + (stem + ext);
    assert '/' !in stem + ext;
    BasenameOfChild(dir, stem + ext);
    NameExtOfStem(stem, ext);
  }
}
