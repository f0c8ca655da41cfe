/** The `java.lang.String` operations the merger relies on, with their Java
    semantics: `replace` (every non-overlapping occurrence, scanned left to
    right), `lastIndexOf`, `split` on a character class, the whitespace
    tokenisation `Runtime.exec(String)` applies to a command line, and the
    code-unit order of `compareTo`. */
module JavaString {

  /** `t` occurs in `s` starting at index `k`. */
  predicate OccursAt(s: string, t: string, k: int) {
    0 <= k && k + |t| <= |s| && s[k..k + |t|] == t
  }

  /** No occurrence of `t` starts anywhere in `s`. */
  predicate Absent(s: string, t: string) {
    forall k :: 0 <= k <= |s| - |t| ==> !OccursAt(s, t, k)
  }

  /** `s.replace(target, replacement)`: each occurrence of a non-empty target
      found scanning left to right, resuming after the previous match, is
      replaced; an empty target inserts the replacement around every char. */
  function Replace(s: string, target: string, replacement: string): string
    decreases |s|
  {
    if |target| == 0 then Interleave(s, replacement)
    else if |s| < |target| then s
    else if s[..|target|] == target then
      replacement + Replace(s[|target|..], target, replacement)
    else
      [s[0]] + Replace(s[1..], target, replacement)
  }

  /** A target that does not occur leaves the string unchanged. */
  lemma {:induction false} ReplaceAbsent(s: string, t: string, rep: string)
    requires |t| > 0 && Absent(s, t)
    ensures Replace(s, t, rep) == s
    decreases |s|
  {
    if |s| >= |t| {
      assert !OccursAt(s, t, 0);
      forall k | 0 <= k <= |s[1..]| - |t|
        ensures !OccursAt(s[1..], t, k)
      {
        assert !OccursAt(s, t, k + 1);
        assert s[1..][k..k + |t|] == s[k + 1..k + 1 + |t|];
      }
      ReplaceAbsent(s[1..], t, rep);
      assert [s[0]] + s[1..] == s;
    }
  }

  /** `s.replace("", replacement)`. */
  function Interleave(s: string, replacement: string): (r: string)
    ensures |r| == |s| + (|s| + 1) * |replacement|
  {
    if |s| == 0 then replacement
    else replacement + [s[0]] + Interleave(s[1..], replacement)
  }

  /** No occurrence of `t` starts before index `k`. */
  predicate NoneBefore(s: string, t: string, k: int) {
    forall j :: 0 <= j < k ==> !OccursAt(s, t, j)
  }

  /** The scan passes over everything before the first occurrence unchanged,
      substitutes that occurrence, and carries on after it. */
  lemma {:induction false} ReplaceAtFirst(s: string, t: string, rep: string, k: nat)
    requires |t| > 0
    requires OccursAt(s, t, k) && NoneBefore(s, t, k)
    ensures Replace(s, t, rep) == s[..k] + rep + Replace(s[k + |t|..], t, rep)
    decreases k
  {
    if k == 0 {
      ReplaceAtStart(s, t, rep);
    } else {
      ShiftPastFirstChar(s, t, k);
      ReplaceAtFirst(s[1..], t, rep, k - 1);
      ReplacePastFirstChar(s, t, rep, k, Replace(s[k + |t|..], t, rep));
    }
  }

  lemma ReplaceAtStart(s: string, t: string, rep: string)
    requires |t| > 0 && OccursAt(s, t, 0)
    ensures Replace(s, t, rep) == s[..0] + rep + Replace(s[|t|..], t, rep)
  {
    assert s[..|t|] == s[0..|t|];
  }

  lemma ShiftPastFirstChar(s: string, t: string, k: nat)
    requires 0 < k && OccursAt(s, t, k) && NoneBefore(s, t, k)
    ensures OccursAt(s[1..], t, k - 1) && NoneBefore(s[1..], t, k - 1)
    ensures s[1..][..k - 1] == s[1..k] && s[1..][k - 1 + |t|..] == s[k + |t|..]
    ensures s[..|t|] != t
  {
    assert s[1..][k - 1..k - 1 + |t|] == s[k..k + |t|];
    assert !OccursAt(s, t, 0) && s[0..|t|] == s[..|t|];
    forall j | 0 <= j < k - 1
      ensures !OccursAt(s[1..], t, j)
    {
      assert !OccursAt(s, t, j + 1);
      if j + |t| <= |s| - 1 {
        assert s[1..][j..j + |t|] == s[j + 1..j + 1 + |t|];
      }
    }
  }

  lemma ReplacePastFirstChar(s: string, t: string, rep: string, k: nat, x: string)
    requires |t| > 0 && 0 < k && k + |t| <= |s| && s[..|t|] != t
    requires Replace(s[1..], t, rep) == s[1..k] + rep + x
    ensures Replace(s, t, rep) == s[..k] + rep + x
  {
    ReplaceSkipsChar(s, t, rep);
    assert s[..k] == [s[0]] + s[1..k];
  }

  lemma ReplaceSkipsChar(s: string, t: string, rep: string)
    requires |t| > 0 && |t| <= |s| && s[..|t|] != t
    ensures Replace(s, t, rep) == [s[0]] + Replace(s[1..], t, rep)
  {
  }

  /** When the target occurs exactly once, exactly that occurrence is replaced. */
  lemma ReplaceOnlyOccurrence(s: string, t: string, rep: string, k: nat)
    requires |t| > 0
    requires OccursAt(s, t, k)
    requires forall j :: 0 <= j <= |s| - |t| && j != k ==> !OccursAt(s, t, j)
    ensures Replace(s, t, rep) == s[..k] + rep + s[k + |t|..]
  {
    ReplaceAtFirst(s, t, rep, k);
    var rest := s[k + |t|..];
    forall j | 0 <= j <= |rest| - |t|
      ensures !OccursAt(rest, t, j)
    {
      assert !OccursAt(s, t, k + |t| + j);
      assert rest[j..j + |t|] == s[k + |t| + j..k + |t| + j + |t|];
    }
    ReplaceAbsent(rest, t, rep);
  }

  /** A target that first occurs after `pre` and never again is replaced
      exactly there. */
  lemma ReplaceSingle(pre: string, t: string, post: string, rep: string)
    requires |t| > 0
    requires NoneBefore(pre + t + post, t, |pre|) && Absent(post, t)
    ensures Replace(pre + t + post, t, rep) == pre + rep + post
  {
    var s := pre + t + post;
    assert s[|pre|..|pre| + |t|] == t;
    ReplaceAtFirst(s, t, rep, |pre|);
    assert s[..|pre|] == pre && s[|pre| + |t|..] == post;
    ReplaceAbsent(post, t, rep);
  }

  /** `s.lastIndexOf(c)`: the last index holding `c`, or -1. */
  function LastIndexOf(s: string, c: char): (k: int)
    ensures -1 <= k < |s|
    ensures k >= 0 ==> s[k] == c
    ensures forall j :: k < j < |s| ==> s[j] != c
  {
    if |s| == 0 then -1
    else if s[|s| - 1] == c then |s| - 1
    else LastIndexOf(s[..|s| - 1], c)
  }

  /** The maximal runs of `s` between separator chars, empty runs included;
      there is always one more run than there are separators. */
  function Fields(s: string, isSep: char -> bool): (r: seq<string>)
    ensures |r| >= 1
    decreases |s|
  {
    if |s| == 0 then [""]
    else if isSep(s[0]) then [""] + Fields(s[1..], isSep)
    else
      var rest := Fields(s[1..], isSep);
      [[s[0]] + rest[0]] + rest[1..]
  }

  predicate NoSep(s: string, isSep: char -> bool) {
    forall i :: 0 <= i < |s| ==> !isSep(s[i])
  }

  /** A string with no separator is a single run. */
  lemma {:induction false} FieldsOfRun(w: string, isSep: char -> bool)
    requires NoSep(w, isSep)
    ensures Fields(w, isSep) == [w]
  {
    if |w| > 0 {
      FieldsOfRun(w[1..], isSep);
      assert [w[0]] + w[1..] == w;
    }
  }

  /** A separator char splits the runs of its two sides apart. */
  lemma {:induction false} FieldsAtSep(a: string, c: char, b: string, isSep: char -> bool)
    requires isSep(c)
    ensures Fields(a + [c] + b, isSep) == Fields(a, isSep) + Fields(b, isSep)
  {
    if |a| == 0 {
      assert a + [c] + b == [c] + b;
      assert ([c] + b)[1..] == b;
    } else {
      assert (a + [c] + b)[0] == a[0];
      assert (a + [c] + b)[1..] == a[1..] + [c] + b;
      FieldsAtSep(a[1..], c, b, isSep);
    }
  }

  /** The character class `[/\.]` used to split a tile path. */
  predicate IsPathSep(c: char) {
    c == '/' || c == '.'
  }

  /** Drops the trailing empty strings, as `split` with limit 0 does. */
  function DropTrailingEmpty(parts: seq<string>): (r: seq<string>)
    ensures |r| <= |parts| && r == parts[..|r|]
    ensures |r| > 0 ==> r[|r| - 1] != ""
  {
    if |parts| == 0 then []
    else if parts[|parts| - 1] == "" then DropTrailingEmpty(parts[..|parts| - 1])
    else parts
  }

  /** No field holds a separator. */
  lemma {:induction false} FieldsNoSep(s: string, isSep: char -> bool)
    ensures forall i :: 0 <= i < |Fields(s, isSep)| ==> NoSep(Fields(s, isSep)[i], isSep)
    decreases |s|
  {
    if |s| > 0 {
      FieldsNoSep(s[1..], isSep);
      var rest := Fields(s[1..], isSep);
      if !isSep(s[0]) {
        var head := [s[0]] + rest[0];
        assert NoSep(rest[0], isSep);
        assert forall j :: 1 <= j < |head| ==> head[j] == rest[0][j - 1];
      }
    }
  }

  /** `s.split("[/\\.]")`: a string without a match is returned whole,
      otherwise its fields minus the trailing empty ones. No piece holds a
      separator, and a split that found a separator never ends in an empty
      piece. */
  function SplitPath(s: string): (r: seq<string>)
    ensures forall i :: 0 <= i < |r| ==> NoSep(r[i], IsPathSep)
    ensures NoSep(s, IsPathSep) ==> r == [s]
    ensures !NoSep(s, IsPathSep) && |r| > 0 ==> r[|r| - 1] != ""
  {
    if NoSep(s, IsPathSep) then [s]
    else
      FieldsNoSep(s, IsPathSep);
      DropTrailingEmpty(Fields(s, IsPathSep))
  }

  /** Dropping trailing empty strings stops at a non-empty head. */
  lemma {:induction false} DropTrailingCons(a: string, parts: seq<string>)
    requires a != ""
    ensures DropTrailingEmpty([a] + parts) == [a] + DropTrailingEmpty(parts)
    decreases |parts|
  {
    var all := [a] + parts;
    if |parts| == 0 {
      assert all == [a];
    } else if parts[|parts| - 1] == "" {
      assert all[|all| - 1] == "";
      assert all[..|all| - 1] == [a] + parts[..|parts| - 1];
      DropTrailingCons(a, parts[..|parts| - 1]);
    } else {
      assert all[|all| - 1] != "";
    }
  }

  /** Splitting at the first separator: a non-empty leading piece followed
      by a separator is the first element of the split, and the rest of the
      string splits on its own, unless nothing follows the separator. */
  lemma SplitPathAtSep(a: string, c: char, b: string)
    requires IsPathSep(c) && NoSep(a, IsPathSep) && a != "" && b != ""
    ensures SplitPath(a + [c] + b) == [a] + SplitPath(b)
  {
    var s := a + [c] + b;
    assert s[|a|] == c;
    FieldsAtSep(a, c, b, IsPathSep);
    FieldsOfRun(a, IsPathSep);
    if NoSep(b, IsPathSep) {
      FieldsOfRun(b, IsPathSep);
      DropTrailingCons(a, [b]);
      assert DropTrailingEmpty([b]) == [b];
    } else {
      DropTrailingCons(a, Fields(b, IsPathSep));
    }
  }

  /** The default delimiters of `java.util.StringTokenizer`, which
      `Runtime.exec(String)` uses to cut a command line into arguments. */
  predicate IsBlank(c: char) {
    c == ' ' || c == '\t' || c == '\n' || c == '\r' || c == '\U{000C}'
  }

  function NonEmpty(parts: seq<string>): (r: seq<string>)
    ensures forall i :: 0 <= i < |r| ==> r[i] != ""
  {
    if |parts| == 0 then []
    else if parts[0] == "" then NonEmpty(parts[1..])
    else [parts[0]] + NonEmpty(parts[1..])
  }

  lemma {:induction false} NonEmptyAppend(a: seq<string>, b: seq<string>)
    ensures NonEmpty(a + b) == NonEmpty(a) + NonEmpty(b)
  {
    if |a| > 0 {
      assert (a + b)[1..] == a[1..] + b;
      NonEmptyAppend(a[1..], b);
    } else {
      assert a + b == b;
    }
  }

  /** The argument vector `Runtime.exec(command)` runs. */
  function Tokenize(command: string): seq<string> {
    NonEmpty(Fields(command, IsBlank))
  }

  /** A blank splits a command line into the arguments of its two sides. */
  lemma TokenizeAtBlank(a: string, c: char, b: string)
    requires IsBlank(c)
    ensures Tokenize(a + [c] + b) == Tokenize(a) + Tokenize(b)
  {
    FieldsAtSep(a, c, b, IsBlank);
    NonEmptyAppend(Fields(a, IsBlank), Fields(b, IsBlank));
  }

  lemma TokenizeEmpty()
    ensures Tokenize("") == []
  {
    assert Fields("", IsBlank) == [""];
    assert NonEmpty([""]) == NonEmpty([]);
  }

  /** Two pieces of a command line joined where one of them has a blank at
      the seam tokenise independently. */
  lemma TokenizeJoin(a: string, b: string)
    requires (|a| > 0 && IsBlank(a[|a| - 1])) || (|b| > 0 && IsBlank(b[0]))
    ensures Tokenize(a + b) == Tokenize(a) + Tokenize(b)
  {
    if |a| > 0 && IsBlank(a[|a| - 1]) {
      var a' := a[..|a| - 1];
      assert a == a' + [a[|a| - 1]] + [];
      assert a + b == a' + [a[|a| - 1]] + b;
      TokenizeAtBlank(a', a[|a| - 1], b);
      TokenizeAtBlank(a', a[|a| - 1], "");
      TokenizeEmpty();
    } else {
      var b' := b[1..];
      assert b == "" + [b[0]] + b';
      assert a + b == a + [b[0]] + b';
      TokenizeAtBlank(a, b[0], b');
      TokenizeAtBlank("", b[0], b');
      TokenizeEmpty();
    }
  }

  /** A single word tokenises to itself. */
  lemma TokenizeWord(w: string)
    requires |w| > 0 && NoSep(w, IsBlank)
    ensures Tokenize(w) == [w]
  {
    FieldsOfRun(w, IsBlank);
    assert NonEmpty([w]) == [w] + NonEmpty([]);
  }

  /** `a.compareTo(b) < 0` (and `Path.compareTo` on Unix paths, which
      compares the same characters): the first differing char decides,
      otherwise the shorter string comes first. */
  predicate LexLess(a: string, b: string)
    decreases |a|
  {
    if |a| == 0 then |b| > 0
    else if |b| == 0 then false
    else if a[0] != b[0] then a[0] < b[0]
    else LexLess(a[1..], b[1..])
  }

  lemma {:induction false} LexIrreflexive(a: string)
    ensures !LexLess(a, a)
  {
    if |a| > 0 {
      LexIrreflexive(a[1..]);
    }
  }

  lemma {:induction false} LexTransitive(a: string, b: string, c: string)
    requires LexLess(a, b) && LexLess(b, c)
    ensures LexLess(a, c)
  {
    if |a| > 0 && a[0] == b[0] && b[0] == c[0] {
      LexTransitive(a[1..], b[1..], c[1..]);
    }
  }

  lemma {:induction false} LexTotal(a: string, b: string)
    requires a != b
    ensures LexLess(a, b) || LexLess(b, a)
  {
    if |a| > 0 && |b| > 0 && a[0] == b[0] {
      assert a == [a[0]] + a[1..] && b == [b[0]] + b[1..];
      LexTotal(a[1..], b[1..]);
    }
  }

  /** A common prefix does not change the comparison. */
  lemma {:induction false} LexCommonPrefix(p: string, a: string, b: string)
    ensures LexLess(p + a, p + b) == LexLess(a, b)
  {
    if |p| > 0 {
      assert (p + a)[1..] == p[1..] + a;
      assert (p + b)[1..] == p[1..] + b;
      LexCommonPrefix(p[1..], a, b);
    } else {
      assert p + a == a && p + b == b;
    }
  }
}
