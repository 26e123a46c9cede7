/** The parts of Go's `strings`/`bytes` packages that the client relies on:
    `Index`, `Contains`, `Replace` with n = -1, `Split`, and a `Join` that
    inverts `Split`. Text is `seq<char>`; Go works on bytes, which changes
    nothing for the ASCII patterns used here. */
module Strings {

  /** `p` occurs in `s` starting at position `i`. */
  predicate OccursAt(s: string, p: string, i: int) {
    0 <= i && i + |p| <= |s| && s[i..i + |p|] == p
  }

  /** An occurrence in `s[1..]` is an occurrence in `s`, one position later. */
  lemma OccursAtTail(s: string, p: string, j: int)
    requires |s| > 0 && j >= 0
    ensures OccursAt(s[1..], p, j) <==> OccursAt(s, p, j + 1)
  {
    if 0 <= j && j + |p| <= |s| - 1 {
      assert s[1..][j..j + |p|] == s[j + 1..j + 1 + |p|];
    }
  }

  /** An occurrence in `a` or in `b` is an occurrence in `a + b`. */
  lemma OccursInConcat(a: string, b: string, p: string, i: int)
    ensures OccursAt(a, p, i) ==> OccursAt(a + b, p, i)
    ensures OccursAt(b, p, i) ==> OccursAt(a + b, p, |a| + i)
  {
    if OccursAt(a, p, i) {
      assert (a + b)[i..i + |p|] == a[i..i + |p|];
    }
    if OccursAt(b, p, i) {
      assert (a + b)[|a| + i..|a| + i + |p|] == b[i..i + |p|];
    }
  }

  /** Go's `strings.Index`: the first position of `p` in `s`, or -1. */
  function Index(s: string, p: string): (i: int)
    ensures -1 <= i && (i >= 0 ==> i + |p| <= |s|)
    decreases |s|
  {
    if |s| < |p| then
      -1
    else if s[..|p|] == p then
      0
    else
      var k := Index(s[1..], p);
      if k < 0 then -1 else k + 1
  }

  /** `Index` finds the first occurrence, and gives -1 exactly when there
      is none. */
  lemma {:induction false} IndexSpec(s: string, p: string)
    ensures Index(s, p) >= 0 ==> OccursAt(s, p, Index(s, p))
    ensures Index(s, p) >= 0 ==> forall j :: 0 <= j < Index(s, p) ==> !OccursAt(s, p, j)
    ensures Index(s, p) < 0 ==> forall j :: !OccursAt(s, p, j)
    decreases |s|
  {
    if |s| >= |p| && s[..|p|] != p {
      IndexSpec(s[1..], p);
      forall j | 1 <= j ensures OccursAt(s, p, j) <==> OccursAt(s[1..], p, j - 1) {
        OccursAtTail(s, p, j - 1);
      }
      assert !OccursAt(s, p, 0);
    }
  }

  /** Go's `strings.Contains` / `bytes.Contains`. */
  predicate Contains(s: string, p: string) {
    Index(s, p) >= 0
  }

  /** `Contains` holds exactly when some occurrence exists. */
  lemma ContainsIff(s: string, p: string, i: int)
    ensures OccursAt(s, p, i) ==> Contains(s, p)
    ensures Contains(s, p) ==> OccursAt(s, p, Index(s, p))
  {
    IndexSpec(s, p);
  }

  /** A text that holds `p` keeps holding it when extended on either side. */
  lemma {:induction false} ContainsExtend(a: string, b: string, p: string)
    ensures Contains(a, p) ==> Contains(a + b, p)
    ensures Contains(b, p) ==> Contains(a + b, p)
  {
    IndexSpec(a, p);
    IndexSpec(b, p);
    if Contains(a, p) {
      OccursInConcat(a, b, p, Index(a, p));
      ContainsIff(a + b, p, Index(a, p));
    }
    if Contains(b, p) {
      OccursInConcat(a, b, p, Index(b, p));
      ContainsIff(a + b, p, |a| + Index(b, p));
    }
  }

  /** An occurrence that starts in `a` and ends in `b` covers the last
      character of `a`. */
  lemma StraddleChar(a: string, b: string, p: string, i: int)
    ensures OccursAt(a + b, p, i) && i < |a| < i + |p| ==> p[|a| - 1 - i] == (a + b)[|a| - 1]
  {
  }

  /** When `a` is empty or ends with `sep`, and `sep` is not part of `p`, an
      occurrence of `p` in `a + b` cannot straddle the seam, so `a + b`
      contains `p` exactly when `a` or `b` does. */
  lemma ContainsAcrossSeam(a: string, b: string, p: string, sep: char)
    requires a == [] || a[|a| - 1] == sep
    requires sep !in p
    ensures Contains(a + b, p) <==> Contains(a, p) || Contains(b, p)
  {
    ContainsExtend(a, b, p);
    if Contains(a + b, p) {
      var i := Index(a + b, p);
      IndexSpec(a + b, p);
      StraddleChar(a, b, p, i);
      OccursOnOneSide(a, b, p, i);
      if i + |p| <= |a| {
        ContainsIff(a, p, i);
      } else if i >= |a| {
        ContainsIff(b, p, i - |a|);
      } else {
        assert false;
      }
    }
  }

  /** An occurrence in `a + b` that lies wholly on one side of the seam is
      an occurrence in that side. */
  lemma OccursOnOneSide(a: string, b: string, p: string, i: int)
    ensures OccursAt(a + b, p, i) && i + |p| <= |a| ==> OccursAt(a, p, i)
    ensures OccursAt(a + b, p, i) && i >= |a| ==> OccursAt(b, p, i - |a|)
  {
    if OccursAt(a + b, p, i) && i + |p| <= |a| {
      assert (a + b)[i..i + |p|] == a[i..i + |p|];
    }
    if OccursAt(a + b, p, i) && i >= |a| {
      assert (a + b)[i..i + |p|] == b[i - |a|..i - |a| + |p|];
    }
  }

  /** The text before the first occurrence of `p` holds no occurrence of `p`. */
  lemma BeforeFirstIsFree(s: string, p: string)
    requires |p| > 0 && Contains(s, p)
    ensures !Contains(s[..Index(s, p)], p)
  {
    var i := Index(s, p);
    var j := Index(s[..i], p);
    IndexSpec(s, p);
    IndexSpec(s[..i], p);
    OccursInPrefix(s, p, i, j);
  }

  /** An occurrence in a prefix of `s` is an occurrence in `s`. */
  lemma OccursInPrefix(s: string, p: string, n: nat, j: int)
    requires n <= |s|
    ensures OccursAt(s[..n], p, j) ==> OccursAt(s, p, j)
  {
    if OccursAt(s[..n], p, j) {
      assert s[..n][j..j + |p|] == s[j..j + |p|];
    }
  }

  /** Go's `strings.Replace(s, pat, by, -1)`: every non-overlapping
      occurrence of `pat`, scanning left to right, is replaced by `with`. */
  function Replace(s: string, pat: string, with: string): (r: string)
    requires |pat| > 0
    ensures !Contains(s, pat) ==> r == s
    decreases |s|
  {
    var i := Index(s, pat);
    if i < 0 then s else s[..i] + with + Replace(s[i + |pat|..], pat, with)
  }

  /** Go's `strings.Split(s, sep)` for a non-empty separator: the pieces of
      `s` between successive non-overlapping occurrences of `sep`. */
  function Split(s: string, sep: string): (parts: seq<string>)
    requires |sep| > 0
    ensures |parts| >= 1
    decreases |s|
  {
    var i := Index(s, sep);
    if i < 0 then [s] else [s[..i]] + Split(s[i + |sep|..], sep)
  }

  /** No piece of a split holds the separator. */
  lemma {:induction false} SplitPiecesAreFree(s: string, sep: string)
    requires |sep| > 0
    ensures forall k :: 0 <= k < |Split(s, sep)| ==> !Contains(Split(s, sep)[k], sep)
    decreases |s|
  {
    var i := Index(s, sep);
    if i < 0 {
      assert Split(s, sep) == [s];
    } else {
      var rest := s[i + |sep|..];
      BeforeFirstIsFree(s, sep);
      SplitPiecesAreFree(rest, sep);
      assert Split(s, sep) == [s[..i]] + Split(rest, sep);
    }
  }

  /** The pieces glued back together with `sep` between them. */
  function Join(parts: seq<string>, sep: string): string
    requires |parts| >= 1
  {
    if |parts| == 1 then parts[0] else parts[0] + sep + Join(parts[1..], sep)
  }

  /** Joining the pieces of a split whose text holds `sep`: the first piece,
      the glue, then the join of the pieces after the first occurrence. */
  lemma JoinSplitFirst(s: string, sep: string, glue: string)
    requires |sep| > 0 && Index(s, sep) >= 0
    ensures Join(Split(s, sep), glue) ==
            s[..Index(s, sep)] + glue + Join(Split(s[Index(s, sep) + |sep|..], sep), glue)
  {
    var i := Index(s, sep);
    var parts := Split(s[i + |sep|..], sep);
    assert Split(s, sep) == [s[..i]] + parts;
    assert ([s[..i]] + parts)[1..] == parts;
  }

  /** A text is its three slices written one after the other. */
  lemma Reassemble(s: string, i: nat, j: nat)
    requires i <= j <= |s|
    ensures s[..i] + s[i..j] + s[j..] == s
  {
  }

  /** Splitting on `sep` and joining with `sep` gives the text back: the
      pieces are all of `s` apart from the occurrences of `sep`. */
  lemma {:induction false} SplitJoin(s: string, sep: string)
    requires |sep| > 0
    ensures Join(Split(s, sep), sep) == s
    decreases |s|
  {
    var i := Index(s, sep);
    if i >= 0 {
      var rest := s[i + |sep|..];
      IndexSpec(s, sep);
      SplitJoin(rest, sep);
      JoinSplitFirst(s, sep, sep);
      Reassemble(s, i, i + |sep|);
    } else {
      assert Split(s, sep) == [s];
    }
  }

  /** Replacing is splitting at the occurrences and joining with the
      replacement: every occurrence of `pat` becomes `with`, and the text
      between occurrences is kept as it is. */
  lemma {:induction false} ReplaceIsSplitJoin(s: string, pat: string, with: string)
    requires |pat| > 0
    ensures Replace(s, pat, with) == Join(Split(s, pat), with)
    decreases |s|
  {
    var i := Index(s, pat);
    if i >= 0 {
      ReplaceIsSplitJoin(s[i + |pat|..], pat, with);
      ReplaceFirst(s, pat, with);
    } else {
      assert Split(s, pat) == [s];
    }
  }

  /** The step of `ReplaceIsSplitJoin`: once the rest agrees, so does the
      whole text. */
  lemma ReplaceFirst(s: string, pat: string, with: string)
    requires |pat| > 0 && Index(s, pat) >= 0
    requires var rest := s[Index(s, pat) + |pat|..];
      Replace(rest, pat, with) == Join(Split(rest, pat), with)
    ensures Replace(s, pat, with) == Join(Split(s, pat), with)
  {
    JoinSplitFirst(s, pat, with);
  }
}
