/** The handful of Python `str` operations the application relies on:
    `startswith`, `in`, `replace`, `'|'.join` and `strip`, each with the
    semantics CPython gives it, plus `find` and `split`, which serve as the
    independent reference that `replace` is checked against. */
module Text {
  import opened Wrappers

  /** `s.startswith(p)` */
  predicate StartsWith(s: string, p: string) {
    |p| <= |s| && s[..|p|] == p
  }

  /** `s` starts with `p` exactly when it is `p` followed by the rest of `s`. */
  lemma StartsWithConcat(s: string, p: string)
    ensures StartsWith(s, p) <==> |p| <= |s| && s == p + s[|p|..]
  {
    if |p| <= |s| && s == p + s[|p|..] {
      assert s[..|p|] == (p + s[|p|..])[..|p|];
    }
  }

  /** `p` occurs in `s` starting at index `i`. */
  predicate OccursAt(s: string, p: string, i: nat) {
    i + |p| <= |s| && s[i..i + |p|] == p
  }

  /** `p in s`: the empty string is in every string, and nothing longer
      than `s` is in it. */
  predicate Contains(s: string, p: string)
    ensures p == [] ==> Contains(s, p)
    ensures |s| < |p| ==> !Contains(s, p)
  {
    assert p == [] ==> OccursAt(s, p, 0);
    exists i: nat :: i <= |s| && OccursAt(s, p, i)
  }

  /** `s.replace(p, n)` for a non-empty `p`: one left-to-right scan that
      replaces every non-overlapping occurrence of `p`. */
  function Replace(s: string, p: string, n: string): (r: string)
    requires p != []
    ensures |n| <= |p| ==> |r| <= |s|
    decreases |s|
  {
    if s == [] then []
    else if StartsWith(s, p) then n + Replace(s[|p|..], p, n)
    else [s[0]] + Replace(s[1..], p, n)
  }

  /** `s.find(p)`, with `None` for Python's `-1`: the leftmost occurrence. */
  function Find(s: string, p: string): (r: Option<nat>)
    requires p != []
    ensures r.Some? ==> OccursAt(s, p, r.value)
    ensures r.Some? ==> forall j: nat :: j < r.value ==> !OccursAt(s, p, j)
    decreases |s|
  {
    if |s| < |p| then None
    else if StartsWith(s, p) then Some(0)
    else
      match Find(s[1..], p)
      case None => None
      case Some(k) =>
        assert OccursAt(s, p, k + 1) by { assert s[k + 1..k + 1 + |p|] == s[1..][k..k + |p|]; }
        assert forall j: nat :: 0 < j <= k ==> (OccursAt(s, p, j) ==> OccursAt(s[1..], p, j - 1));
        Some(k + 1)
  }

  /** `find` gives up exactly when `p` is not `in` `s`. */
  lemma {:induction false} FindNone(s: string, p: string)
    requires p != []
    ensures Find(s, p).None? <==> !Contains(s, p)
    decreases |s|
  {
    if |s| < |p| {
    } else if StartsWith(s, p) {
      assert OccursAt(s, p, 0);
    } else {
      FindNone(s[1..], p);
      if Find(s[1..], p).None? {
        assert s[..|p|] == s[0..|p|];
        forall j: nat | 0 < j ensures !OccursAt(s, p, j) {
          if j + |p| <= |s| {
            assert s[1..][j - 1..j - 1 + |p|] == s[j..j + |p|];
            assert !OccursAt(s[1..], p, j - 1);
          }
        }
      }
    }
  }

  /** `s.split(p)` for a non-empty `p`: the pieces between the
      non-overlapping occurrences of `p`, found left to right. */
  function Split(s: string, p: string): (r: seq<string>)
    requires p != []
    ensures |r| >= 1
    decreases |s|
  {
    match Find(s, p)
    case None => [s]
    case Some(i) => [s[..i]] + Split(s[i + |p|..], p)
  }

  /** `sep.join(xs)` */
  function Join(sep: string, xs: seq<string>): (r: string)
    ensures xs == [] ==> r == []
    ensures |xs| == 1 ==> r == xs[0]
    ensures xs != [] ==> StartsWith(r, xs[0])
  {
    if xs == [] then []
    else if |xs| == 1 then xs[0]
    else xs[0] + sep + Join(sep, xs[1..])
  }

  /** Whitespace as `str.strip()` sees it: the characters `str.isspace()`
      accepts. In ASCII these are `\t` to `\r`, the information separators
      `\x1c` to `\x1f` and the space; beyond ASCII, the Unicode spaces and
      the line and paragraph separators. */
  predicate IsSpace(c: char) {
    if c <= ' ' then '\t' <= c <= '\r' || '\U{001C}' <= c
    else '\U{0085}' <= c && IsWideSpace(c)
  }

  /** The whitespace characters beyond ASCII. */
  predicate IsWideSpace(c: char) {
    || c == '\U{0085}' || c == '\U{00A0}' || c == '\U{1680}'
    || ('\U{2000}' <= c <= '\U{200A}') || c == '\U{2028}' || c == '\U{2029}'
    || c == '\U{202F}' || c == '\U{205F}' || c == '\U{3000}'
  }

  function TrimStart(s: string): (r: string)
    ensures |r| <= |s| && r == s[|s| - |r|..]
    ensures r == [] || !IsSpace(r[0])
    ensures forall i :: 0 <= i < |s| - |r| ==> IsSpace(s[i])
  {
    if s != [] && IsSpace(s[0]) then TrimStart(s[1..]) else s
  }

  function TrimEnd(s: string): (r: string)
    ensures |r| <= |s| && r == s[..|r|]
    ensures r == [] || !IsSpace(r[|r| - 1])
    ensures forall i :: |r| <= i < |s| ==> IsSpace(s[i])
  {
    if s != [] && IsSpace(s[|s| - 1]) then TrimEnd(s[..|s| - 1]) else s
  }

  /** `r` is the slice of `s` at `i`, and everything of `s` around it is whitespace. */
  predicate TrimmedAt(s: string, r: string, i: nat) {
    && i + |r| <= |s| && r == s[i..i + |r|]
    && (forall j :: 0 <= j < i ==> IsSpace(s[j]))
    && (forall j :: i + |r| <= j < |s| ==> IsSpace(s[j]))
  }

  /** `s.strip()`: `s` without its leading and trailing whitespace. */
  function Strip(s: string): (r: string)
    ensures |r| <= |s|
    ensures r == [] || (!IsSpace(r[0]) && !IsSpace(r[|r| - 1]))
    ensures s != [] && !IsSpace(s[0]) && !IsSpace(s[|s| - 1]) ==> r == s
  {
    TrimEnd(TrimStart(s))
  }

  /** What `strip` removes: its result is a slice of `s` and only
      whitespace of `s` lies outside that slice. */
  lemma StripSlice(s: string)
    ensures exists i: nat :: TrimmedAt(s, Strip(s), i)
  {
    var t := TrimStart(s);
    var r := TrimEnd(t);
    var i: nat := |s| - |t|;
    assert Strip(s) == r;
    assert t == s[i..] && r == t[..|r|];
    assert r == s[i..i + |r|];
    forall j | 0 <= j < i ensures IsSpace(s[j]) {
    }
    forall j | i + |r| <= j < |s| ensures IsSpace(s[j]) {
      assert s[j] == t[j - i];
    }
    assert TrimmedAt(s, r, i);
  }

  /** CPython's `strip` also removes the ASCII information separators. */
  lemma StripSeparators()
    ensures Strip("\U{001C}#StopRansomware: X") == "#StopRansomware: X"
  {
    var s := "\U{001C}#StopRansomware: X";
    var t := "#StopRansomware: X";
    assert IsSpace(s[0]) && s[1..] == t;
    assert !IsSpace(t[0]) && !IsSpace(t[|t| - 1]);
    assert TrimStart(s) == t;
  }

  lemma JoinCons(sep: string, x: string, xs: seq<string>)
    requires xs != []
    ensures Join(sep, [x] + xs) == x + sep + Join(sep, xs)
  {
    assert ([x] + xs)[1..] == xs;
  }

  /** Splitting a string that does not start with `p` glues its first
      character onto the first piece of the rest. */
  lemma SplitSkip(s: string, p: string, n: string)
    requires p != [] && s != [] && !StartsWith(s, p)
    ensures Join(n, Split(s, p)) == [s[0]] + Join(n, Split(s[1..], p))
  {
    if |s| < |p| {
      assert Find(s[1..], p).None?;
    } else {
      match Find(s[1..], p)
      case None =>
      case Some(k) => SplitSkipFound(s, p, n, k);
    }
  }

  /** `SplitSkip` when `p` occurs in the rest of `s`, first at index `k`. */
  lemma SplitSkipFound(s: string, p: string, n: string, k: nat)
    requires p != [] && |p| <= |s| && !StartsWith(s, p) && Find(s[1..], p) == Some(k)
    ensures Join(n, Split(s, p)) == [s[0]] + Join(n, Split(s[1..], p))
  {
    FindSkip(s, p, k);
    var t := s[k + 1 + |p|..];
    DropTwice(s, k + |p|);
    JoinSplitFound(s, p, n, k + 1, t);
    JoinSplitFound(s[1..], p, n, k, t);
    ConsSplice(s, k, n, Join(n, Split(t, p)));
  }

  /** A miss at index 0 moves the first occurrence one place right. */
  lemma FindSkip(s: string, p: string, k: nat)
    requires p != [] && |p| <= |s| && !StartsWith(s, p) && Find(s[1..], p) == Some(k)
    ensures Find(s, p) == Some(k + 1)
  {
  }

  /** Dropping one character and then `m` drops `m + 1`. */
  lemma DropTwice(s: string, m: nat)
    requires m < |s|
    ensures s[1..][m..] == s[m + 1..]
  {
  }

  /** The first piece of `s` is its first character followed by the first
      piece of `s[1..]`. */
  lemma ConsSplice(s: string, k: nat, n: string, tail: string)
    requires k < |s|
    ensures s[..k + 1] + n + tail == [s[0]] + (s[1..][..k] + n + tail)
  {
    assert s[..k + 1] == [s[0]] + s[1..][..k];
  }

  /** Joining the pieces of a string cut first at index `i`, before the
      rest `t`. */
  lemma JoinSplitFound(s: string, p: string, n: string, i: nat, t: string)
    requires p != [] && Find(s, p) == Some(i)
    requires i + |p| <= |s| && t == s[i + |p|..]
    ensures Join(n, Split(s, p)) == s[..i] + n + Join(n, Split(t, p))
  {
    SplitFound(s, p, i);
    JoinCons(n, s[..i], Split(t, p));
  }

  /** Splitting at the first occurrence, at index `i`. */
  lemma SplitFound(s: string, p: string, i: nat)
    requires p != [] && Find(s, p) == Some(i)
    ensures i + |p| <= |s| && Split(s, p) == [s[..i]] + Split(s[i + |p|..], p)
  {
  }

  /** Reference property of `replace`: `s.replace(p, n) == n.join(s.split(p))`.
      Every occurrence found by `split` is the one `replace` substitutes. */
  lemma {:induction false} ReplaceIsJoinSplit(s: string, p: string, n: string)
    requires p != []
    ensures Replace(s, p, n) == Join(n, Split(s, p))
    decreases |s|
  {
    if s == [] {
    } else if StartsWith(s, p) {
      ReplaceIsJoinSplit(s[|p|..], p, n);
      assert Split(s, p) == [[]] + Split(s[|p|..], p);
      JoinCons(n, [], Split(s[|p|..], p));
    } else {
      ReplaceIsJoinSplit(s[1..], p, n);
      SplitSkip(s, p, n);
    }
  }

  /** A string in which `p` does not occur comes back from `replace` unchanged. */
  lemma ReplaceAbsent(s: string, p: string, n: string)
    requires p != [] && !Contains(s, p)
    ensures Replace(s, p, n) == s
  {
    FindNone(s, p);
    ReplaceIsJoinSplit(s, p, n);
  }

  /** If the first character of `p` never appears in `s`, neither does `p`. */
  lemma AbsentLead(s: string, p: string)
    requires p != []
    requires forall i :: 0 <= i < |s| ==> s[i] != p[0]
    ensures !Contains(s, p)
  {
    forall i: nat | i <= |s| ensures !OccursAt(s, p, i) {
      if i + |p| <= |s| {
        assert s[i..i + |p|][0] == s[i];
      }
    }
  }

  /** A string whose first character differs from that of `p` does not
      start with `p`. */
  lemma NotStartsWith(s: string, p: string)
    requires p != [] && s != [] && s[0] != p[0]
    ensures !StartsWith(s, p)
  {
    if |p| <= |s| {
      assert s[..|p|][0] == s[0];
    }
  }

  /** `replace` is called without a count argument, so every occurrence is
      replaced, not only the first. */
  lemma ReplaceEveryOccurrence()
    ensures Replace("$1 or $1", "$1", "x") == "x or x"
  {
    assert StartsWith("$1 or $1", "$1");
    assert "$1 or $1"[2..] == " or $1";
    NotStartsWith(" or $1", "$1");
    assert " or $1"[1..] == "or $1";
    NotStartsWith("or $1", "$1");
    assert "or $1"[1..] == "r $1";
    NotStartsWith("r $1", "$1");
    assert "r $1"[1..] == " $1";
    NotStartsWith(" $1", "$1");
    assert " $1"[1..] == "$1";
    assert StartsWith("$1", "$1");
    assert "$1"[2..] == "";
  }
}
