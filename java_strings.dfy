/**
  * The few java.lang.String operations the modelled code is built from, over
  * Dafny strings (`seq<char>`). Each predicate or function says which Java call
  * it stands for.
  */
module JavaStrings {

  /** `s.startsWith(p)` */
  predicate StartsWith(s: string, p: string) {
    |p| <= |s| && s[..|p|] == p
  }

  /** `s.endsWith(p)` */
  predicate EndsWith(s: string, p: string) {
    |p| <= |s| && s[|s| - |p|..] == p
  }

  /** `t` occurs in `s` starting at position `i`. */
  predicate OccursAt(s: string, t: string, i: int) {
    0 <= i && i + |t| <= |s| && s[i..i + |t|] == t
  }

  /** `s.contains(t)`: `t` occurs at some position of `s`. */
  predicate Contains(s: string, t: string) {
    exists i | 0 <= i <= |s| - |t| :: OccursAt(s, t, i)
  }

  /** `s.indexOf(c)`: the first position of `c` in `s`, or -1. */
  function IndexOf(s: string, c: char): (r: int)
    ensures -1 <= r < |s|
    ensures r == -1 <==> c !in s
    ensures r >= 0 ==> s[r] == c && c !in s[..r]
  {
    if |s| == 0 then -1
    else if s[0] == c then 0
    else
      var k := IndexOf(s[1..], c);
      assert s[1..][..if k < 0 then 0 else k] == s[1..1 + if k < 0 then 0 else k];
      if k == -1 then -1 else k + 1
  }

  /** `s.replace(String.valueOf(c), "")`: every `c` removed, the other characters kept in order. */
  function RemoveAll(s: string, c: char): (r: string)
    ensures |r| <= |s|
    ensures c !in r
    ensures forall x :: x in r <==> x in s && x != c
    ensures c !in s ==> r == s
  {
    if |s| == 0 then ""
    else if s[0] == c then RemoveAll(s[1..], c)
    else [s[0]] + RemoveAll(s[1..], c)
  }

  /**
    * `RemoveAll` works character by character: it distributes over
    * concatenation, and drops a single character exactly when it is `c`.
    * Together these fix the result as the input with every `c` left out and
    * the order kept.
    */
  lemma {:induction false} RemoveAllAppend(a: string, b: string, c: char)
    ensures RemoveAll(a + b, c) == RemoveAll(a, c) + RemoveAll(b, c)
    ensures forall x :: RemoveAll([x], c) == if x == c then "" else [x]
    decreases |a|
  {
    if a == [] {
      assert a + b == b;
    } else {
      assert (a + b)[0] == a[0] && (a + b)[1..] == a[1..] + b;
      RemoveAllAppend(a[1..], b, c);
    }
    forall x ensures RemoveAll([x], c) == if x == c then "" else [x] {
      assert [x][1..] == "";
    }
  }

  /** Removing the separator `c` between two parts, the second of which holds no `c`. */
  lemma RemoveAllSeparator(a: string, b: string, c: char)
    requires c !in b
    ensures RemoveAll(a + [c] + b, c) == RemoveAll(a, c) + b
  {
    RemoveAllAppend(a + [c], b, c);
    RemoveAllAppend(a, [c], c);
    assert RemoveAll(a, c) + "" == RemoveAll(a, c);
  }

  /** A path made of a directory, a name and an extension starts with the directory, ends with the extension and gives the name back between them. */
  lemma Framed(dir: string, name: string, ext: string)
    ensures var p := dir + name + ext;
      StartsWith(p, dir) && EndsWith(p, ext) && p[|dir|..|p| - |ext|] == name
  {
    var p := dir + name + ext;
    assert p[..|dir|] == dir && p[|p| - |ext|..] == ext && p[|dir|..|p| - |ext|] == name;
  }

  /** ASCII lower-casing of one character; other characters are left alone. */
  function LowerAscii(c: char): char {
    if 'A' <= c <= 'Z' then (c as int + 32) as char else c
  }

  /**
    * `a.equalsIgnoreCase(b)` with ASCII case folding: equal lengths and equal
    * characters after lower-casing.
    */
  predicate EqualsIgnoreCase(a: string, b: string): (r: bool)
    ensures a == b ==> r
    ensures r ==> |a| == |b|
  {
    |a| == |b| && forall i | 0 <= i < |a| :: LowerAscii(a[i]) == LowerAscii(b[i])
  }

  /** "pdf" ignoring case is exactly one of its eight spellings. */
  lemma PdfInAnyCase(f: string)
    ensures EqualsIgnoreCase("pdf", f) <==> f in {"pdf", "pdF", "pDf", "pDF", "Pdf", "PdF", "PDf", "PDF"}
  {
    if |f| == 3 {
      assert f == [f[0], f[1], f[2]];
      assert EqualsIgnoreCase("pdf", f) <==> f[0] in "pP" && f[1] in "dD" && f[2] in "fF";
    }
  }

  /** The last segment of a '/'-separated path, as `File.getName()` gives it. */
  function LastSegment(path: string): (r: string)
    ensures |r| <= |path|
    ensures '/' !in r
    ensures r == path[|path| - |r|..]
    ensures |r| < |path| ==> path[|path| - |r| - 1] == '/'
  {
    if |path| == 0 then ""
    else if path[|path| - 1] == '/' then ""
    else LastSegment(path[..|path| - 1]) + [path[|path| - 1]]
  }

  /** The last segment of a path that ends in a directory followed by a plain name is that name. */
  lemma LastSegmentAfterSlash(dir: string, name: string)
    requires |dir| > 0 && dir[|dir| - 1] == '/' && '/' !in name
    ensures LastSegment(dir + name) == name
  {
    var path := dir + name;
    assert path[|path| - |name|..] == name;
  }
}
