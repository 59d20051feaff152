/**
 * The System.IO.Path helpers the Sass engine calls (GetFileName,
 * GetDirectoryName, Combine), for '/'-separated paths.
 */
module Paths {

  const Separator: char := '/'

  /** Path.GetFileName: the part of `p` after its last separator. */
  function FileName(p: string): (r: string)
    ensures Separator !in r
    ensures |r| <= |p| && r == p[|p| - |r|..]
    ensures |r| == |p| || p[|p| - |r| - 1] == Separator
  {
    if p == [] || p[|p| - 1] == Separator then []
    else FileName(p[..|p| - 1]) + [p[|p| - 1]]
  }

  /** Drops separators at the end of a directory name, except a lone root separator. */
  function StripTrailingSeparators(d: string): (r: string)
    ensures |r| <= |d| && r == d[..|r|]
    ensures forall k :: |r| <= k < |d| ==> d[k] == Separator
    ensures |r| <= 1 || r[|r| - 1] != Separator
    ensures |d| > 0 ==> |r| > 0
  {
    if |d| > 1 && d[|d| - 1] == Separator then StripTrailingSeparators(d[..|d| - 1]) else d
  }

  /**
   * Path.GetDirectoryName: everything before the file name, without the
   * separators that end it; the root "/" stays "/", and a bare file name
   * has the empty directory.
   */
  function DirName(p: string): (r: string)
    ensures |r| <= |p| && r == p[..|r|]
    ensures r == [] <==> Separator !in p
    ensures |r| <= 1 || r[|r| - 1] != Separator
  {
    var f := FileName(p);
    var d := p[..|p| - |f|];
    assert Separator !in p ==> |f| == |p|;
    StripTrailingSeparators(d)
  }

  /** Path.Combine(a, b): `b` alone when it is rooted, else `b` appended to `a` with one separator between. */
  function Combine(a: string, b: string): (r: string)
    ensures b == [] ==> r == a
    ensures a == [] ==> r == b
    ensures a != [] && b != [] && b[0] != Separator && a[|a| - 1] != Separator ==> r == a + [Separator] + b
  {
    if b == [] then a
    else if a == [] then b
    else if b[0] == Separator then b
    else if a[|a| - 1] == Separator then a + b
    else a + [Separator] + b
  }

  /** A name with no separator in it is the file name of any path that ends with it after a separator. */
  lemma FileNameAfterSeparator(d: string, n: string)
    requires Separator !in n
    requires d == [] || d[|d| - 1] == Separator
    ensures FileName(d + n) == n
  {
    var p := d + n;
    var r := FileName(p);
    assert r == p[|p| - |n|..];
  }

  /** Combining a directory with a plain name gives a path whose file name is that name. */
  lemma CombineFileName(d: string, n: string)
    requires n != [] && Separator !in n
    ensures FileName(Combine(d, n)) == n
  {
    if d == [] {
      FileNameAfterSeparator([], n);
    } else if d[|d| - 1] == Separator {
      FileNameAfterSeparator(d, n);
    } else {
      assert Combine(d, n) == (d + [Separator]) + n;
      FileNameAfterSeparator(d + [Separator], n);
    }
  }

  /** Combining a path's directory with a plain name gives a path in the same directory. */
  lemma CombineDirName(p: string, n: string)
    requires n != [] && Separator !in n
    ensures DirName(Combine(DirName(p), n)) == DirName(p)
  {
    var d := DirName(p);
    var q := Combine(d, n);
    CombineFileName(d, n);
    if d == [] {
      assert q == n;
    } else if d[|d| - 1] == Separator {
      assert |d| == 1;
      assert q == d + n;
      assert q[..|q| - |n|] == d;
    } else {
      assert q == d + [Separator] + n;
      assert q[..|q| - |n|] == d + [Separator];
      assert (d + [Separator])[..|d|] == d;
    }
  }

  /** The file name is the one separator-free suffix that is the whole path or follows a separator. */
  lemma FileNameIs(p: string, r: string)
    requires Separator !in r && |r| <= |p| && r == p[|p| - |r|..]
    requires |r| == |p| || p[|p| - |r| - 1] == Separator
    ensures FileName(p) == r
  {
    var f := FileName(p);
    assert |f| <= |r| by {
      if |r| < |p| {
        assert forall k :: |p| - |f| <= k < |p| ==> p[k] == f[k - (|p| - |f|)];
      }
    }
    assert |r| <= |f| by {
      if |f| < |p| {
        assert forall k :: |p| - |r| <= k < |p| ==> p[k] == r[k - (|p| - |r|)];
      }
    }
  }

  /** Text that ends with a separator does not change the file name of what follows it. */
  lemma FileNameOfAppend(a: string, b: string)
    requires a == [] || a[|a| - 1] == Separator
    ensures FileName(a + b) == FileName(b)
  {
    var p := a + b;
    var r := FileName(b);
    assert p[|p| - |r|..] == b[|b| - |r|..];
    if |r| < |b| {
      assert p[|p| - |r| - 1] == b[|b| - |r| - 1];
    } else if a != [] {
      assert p[|p| - |r| - 1] == a[|a| - 1];
    }
    FileNameIs(p, r);
  }

  /** Combining keeps the file name of a non-empty second part. */
  lemma CombineKeepsFileName(a: string, b: string)
    requires b != []
    ensures FileName(Combine(a, b)) == FileName(b)
  {
    if a != [] && b[0] != Separator {
      if a[|a| - 1] == Separator {
        FileNameOfAppend(a, b);
      } else {
        assert Combine(a, b) == (a + [Separator]) + b;
        FileNameOfAppend(a + [Separator], b);
      }
    }
  }

  /** The directory of `d/n` is `d`, for a directory that does not end with a separator. */
  lemma DirNameOfJoin(d: string, n: string)
    requires d != [] && d[|d| - 1] != Separator
    requires n != [] && Separator !in n
    ensures DirName(d + [Separator] + n) == d
  {
    var p := d + [Separator] + n;
    FileNameAfterSeparator(d + [Separator], n);
    assert p[..|p| - |n|] == d + [Separator];
    assert (d + [Separator])[..|d|] == d;
  }
}
