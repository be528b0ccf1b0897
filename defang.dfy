/** `defang`: undoes the bracket obfuscation advisories put into
    indicators ("1.2.3[.]4") so that a value can be pasted into a query. */
module Defanging {
  import opened Text

  /** Three chained `str.replace` passes: `[.]` becomes `.`, then `[:]`
      becomes `:`, then every `[]` is deleted. */
  function Defang(s: string): (r: string)
    ensures |r| <= |s|
  {
    Replace(Replace(Replace(s, "[.]", "."), "[:]", ":"), "[]", "")
  }

  /** A string without `[` is returned unchanged. */
  lemma DefangNoBracket(s: string)
    requires forall i :: 0 <= i < |s| ==> s[i] != '['
    ensures Defang(s) == s
  {
    AbsentLead(s, "[.]");
    ReplaceAbsent(s, "[.]", ".");
    AbsentLead(s, "[:]");
    ReplaceAbsent(s, "[:]", ":");
    AbsentLead(s, "[]");
    ReplaceAbsent(s, "[]", "");
  }

  /** The textbook example: a bracketed dot becomes a plain dot. */
  lemma DefangExample()
    ensures Defang("1.2.3[.]4") == "1.2.3.4"
  {
    DotPass();
    DefangNoBracketTail("1.2.3.4");
  }

  /** The first pass over the textbook example. */
  lemma DotPass()
    ensures Replace("1.2.3[.]4", "[.]", ".") == "1.2.3.4"
  {
    BracketedDot("4");
    assert Replace("1.2.3", "[.]", ".") == "1.2.3" by {
      AbsentLead("1.2.3", "[.]");
      ReplaceAbsent("1.2.3", "[.]", ".");
    }
    ReplaceConcatPlain("1.2.3", "[.]4", "[.]", ".");
    assert "1.2.3" + "[.]4" == "1.2.3[.]4";
    assert "1.2.3" + ".4" == "1.2.3.4";
  }

  /** `[.]` followed by bracket-free text becomes `.` followed by that text. */
  lemma BracketedDot(s: string)
    requires forall i :: 0 <= i < |s| ==> s[i] != '['
    ensures Replace("[.]" + s, "[.]", ".") == "." + s
  {
    var t := "[.]" + s;
    assert StartsWith(t, "[.]") by { assert t[..3] == "[.]"; }
    assert t[3..] == s;
    AbsentLead(s, "[.]");
    ReplaceAbsent(s, "[.]", ".");
  }

  /** The last two passes leave a string without `[` unchanged. */
  lemma DefangNoBracketTail(s: string)
    requires forall i :: 0 <= i < |s| ==> s[i] != '['
    ensures Replace(Replace(s, "[:]", ":"), "[]", "") == s
  {
    AbsentLead(s, "[:]");
    ReplaceAbsent(s, "[:]", ":");
    AbsentLead(s, "[]");
    ReplaceAbsent(s, "[]", "");
  }

  /** A prefix in which the first character of `p` never appears is copied
      through by `replace`. */
  lemma {:induction false} ReplaceConcatPlain(a: string, b: string, p: string, n: string)
    requires p != []
    requires forall i :: 0 <= i < |a| ==> a[i] != p[0]
    ensures Replace(a + b, p, n) == a + Replace(b, p, n)
    decreases |a|
  {
    if a != [] {
      NotStartsWith(a + b, p);
      assert (a + b)[1..] == a[1..] + b;
      ReplaceConcatPlain(a[1..], b, p, n);
    } else {
      assert a + b == b;
    }
  }

  /** Defanging is not idempotent: one pass turns `[[.]]` into `[.]`, and
      a second pass turns that into `.`. */
  lemma DefangNotIdempotent()
    ensures Defang("[[.]]") == "[.]"
    ensures Defang("[.]") == "."
    ensures Defang(Defang("[[.]]")) != Defang("[[.]]")
  {
    // first pass over "[[.]]"
    assert !StartsWith("[[.]]", "[.]") by { assert "[[.]]"[..3][1] != "[.]"[1]; }
    assert "[[.]]"[1..] == "[.]]";
    assert StartsWith("[.]]", "[.]");
    assert "[.]]"[3..] == "]";
    assert Replace("]", "[.]", ".") == "]";
    assert Replace("[[.]]", "[.]", ".") == "[.]";
    // "[.]" survives the other two passes
    assert !StartsWith("[.]", "[:]") by { assert "[.]"[..3][1] != "[:]"[1]; }
    assert Replace("[.]", "[:]", ":") == "[.]" by {
      assert "[.]"[1..] == ".]";
      NotStartsWith(".]", "[:]");
      assert ".]"[1..] == "]";
      NotStartsWith("]", "[:]");
      assert "]"[1..] == "";
    }
    assert Replace("[.]", "[]", "") == "[.]" by {
      assert !StartsWith("[.]", "[]") by { assert "[.]"[..2][1] != "[]"[1]; }
      assert "[.]"[1..] == ".]";
      NotStartsWith(".]", "[]");
      assert ".]"[1..] == "]";
      NotStartsWith("]", "[]");
      assert "]"[1..] == "";
    }
    // second pass over "[.]"
    assert StartsWith("[.]", "[.]");
    assert "[.]"[3..] == "";
    assert Replace("[.]", "[.]", ".") == ".";
    DefangNoBracketTail(".");
  }
}
