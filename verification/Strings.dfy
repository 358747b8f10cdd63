/** C strings: a pointer is the sequence of bytes from it on, which holds a NUL somewhere. */
module Strings {
  import opened Memory

  ghost predicate Terminated(s: seq<byte>) {
    exists i :: 0 <= i < |s| && s[i] == 0
  }

  /** The characters before the first NUL. */
  function CStr(s: seq<byte>): (r: seq<byte>)
    ensures |r| <= |s| && r == s[..|r|] && 0 !in r
    ensures forall i :: 0 <= i < |r| ==> r[i] == s[i] && s[i] != 0
    ensures |r| < |s| ==> s[|r|] == 0
  {
    if s == [] || s[0] == 0 then [] else [s[0]] + CStr(s[1..])
  }

  lemma CStrEnds(s: seq<byte>)
    requires Terminated(s)
    ensures |CStr(s)| < |s| && s[|CStr(s)|] == 0
  {
    var i :| 0 <= i < |s| && s[i] == 0;
  }

  /** The string is the only NUL-free prefix that a NUL follows. */
  lemma CStrIs(s: seq<byte>, n: nat)
    requires n < |s| && s[n] == 0 && forall i :: 0 <= i < n ==> s[i] != 0
    ensures CStr(s) == s[..n]
  {
    var _ := CStr(s);
  }

  method Strlen(s: seq<byte>) returns (len: nat)
    requires Terminated(s)
    ensures len == |CStr(s)|
  {
    ghost var end :| 0 <= end < |s| && s[end] == 0;
    len := 0;
    while s[len] != 0
      invariant len <= end && forall i :: 0 <= i < len ==> s[i] != 0
      decreases end - len
    {
      len := len + 1;
    }
    CStrIs(s, len);
  }

  /** Lexicographic order of byte strings. */
  ghost predicate Before(a: seq<byte>, b: seq<byte>) {
    exists i :: 0 <= i <= |a| && i < |b| && a[..i] == b[..i] && (i == |a| || a[i] < b[i])
  }

  /** The sign of the result is the lexicographic order of the two strings. */
  method Strcmp(a: seq<byte>, b: seq<byte>) returns (r: int)
    requires Terminated(a) && Terminated(b)
    ensures r == 0 <==> CStr(a) == CStr(b)
    ensures r < 0 <==> Before(CStr(a), CStr(b))
  {
    ghost var end :| 0 <= end < |a| && a[end] == 0;
    ghost var end' :| 0 <= end' < |b| && b[end'] == 0;
    var i := 0;
    while a[i] != 0 && a[i] == b[i]
      invariant i <= end && i <= end' && a[..i] == b[..i] && forall j :: 0 <= j < i ==> a[j] != 0
      decreases end - i
    {
      assert a[..i + 1] == a[..i] + [a[i]] && b[..i + 1] == b[..i] + [b[i]];
      i := i + 1;
    }
    CStrEnds(a);
    CStrEnds(b);
    DecidedAt(CStr(a), CStr(b), a, b, i);
    r := a[i] as int - b[i] as int;
  }

  /** The comparison is decided at the first place where the strings differ or end. */
  lemma DecidedAt(x: seq<byte>, y: seq<byte>, a: seq<byte>, b: seq<byte>, i: nat)
    requires x == CStr(a) && y == CStr(b) && |x| < |a| && |y| < |b|
    requires i < |a| && i < |b| && a[..i] == b[..i] && forall j :: 0 <= j < i ==> a[j] != 0
    requires a[i] == 0 || a[i] != b[i]
    ensures a[i] == b[i] <==> x == y
    ensures a[i] < b[i] <==> Before(x, y)
  {
    hide CStr, Before;
    PrefixLength(a, i);
    PrefixLength(b, i);
    assert x[..i] == a[..i] && y[..i] == b[..i];
    if a[i] == b[i] {
      CStrIs(a, i);
      CStrIs(b, i);
      NotBeforeItself(x);
    } else if a[i] < b[i] {
      IsBefore(x, y, i);
    } else {
      NotBefore(x, y, i);
    }
  }

  lemma IsBefore(x: seq<byte>, y: seq<byte>, i: nat)
    requires i <= |x| && i < |y| && x[..i] == y[..i] && (i == |x| || x[i] < y[i])
    ensures Before(x, y) && x != y
  {
  }

  lemma NotBeforeItself(x: seq<byte>)
    ensures !Before(x, x)
  {
  }

  lemma PrefixLength(a: seq<byte>, i: nat)
    requires i < |a| && forall j :: 0 <= j < i ==> a[j] != 0
    ensures |CStr(a)| >= i && (|CStr(a)| == i <==> a[i] == 0)
    ensures |CStr(a)| > i ==> CStr(a)[i] == a[i]
  {
    var _ := CStr(a);
  }

  lemma NotBefore(x: seq<byte>, y: seq<byte>, i: nat)
    requires i <= |y| && i < |x| && x[..i] == y[..i] && (i == |y| || y[i] < x[i])
    ensures !Before(x, y) && x != y
  {
    if Before(x, y) {
      var j :| 0 <= j <= |x| && j < |y| && x[..j] == y[..j] && (j == |x| || x[j] < y[j]);
      if j < i {
        SameAt(x, y, i, j);
      } else if j > i {
        SameAt(x, y, j, i);
      }
    }
  }

  lemma SameAt(x: seq<byte>, y: seq<byte>, i: nat, k: nat)
    requires k < i <= |x| && i <= |y| && x[..i] == y[..i]
    ensures x[k] == y[k]
  {
    assert x[k] == x[..i][k] && y[k] == y[..i][k];
  }
}
