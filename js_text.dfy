/**
 * The few pieces of JavaScript string semantics the site relies on: the
 * whitespace class shared by the regular-expression escape `\s` and by
 * `String.prototype.trim`, `trim` itself, `startsWith`/`endsWith`, the
 * relational operators on strings, and last-index search.
 */
module JsText {

  /** ECMAScript WhiteSpace or LineTerminator: what `\s` matches and what `trim` removes. */
  predicate IsWhiteSpace(c: char)
  {
    || c == '\t' || c == '\n' || c == '\U{000B}' || c == '\U{000C}' || c == '\r'
    || c == ' ' || c == '\U{00A0}' || c == '\U{1680}'
    || ('\U{2000}' <= c <= '\U{200A}')
    || c == '\U{2028}' || c == '\U{2029}' || c == '\U{202F}' || c == '\U{205F}'
    || c == '\U{3000}' || c == '\U{FEFF}'
  }

  /** ECMAScript LineTerminator: the characters the regular-expression `.` does not match. */
  predicate IsLineTerminator(c: char)
  {
    c == '\n' || c == '\r' || c == '\U{2028}' || c == '\U{2029}'
  }

  /** Every character is whitespace (true of the empty string). */
  predicate Blank(s: string)
  {
    forall i :: 0 <= i < |s| ==> IsWhiteSpace(s[i])
  }

  /** No character is whitespace. */
  predicate NoWhiteSpace(s: string)
  {
    forall i :: 0 <= i < |s| ==> !IsWhiteSpace(s[i])
  }

  /** `s.trimStart()`: the suffix left after dropping the leading whitespace. */
  function TrimStart(s: string): (r: string)
    ensures |r| <= |s| && r == s[|s| - |r|..]
    ensures Blank(s[..|s| - |r|])
    ensures r == [] || !IsWhiteSpace(r[0])
  {
    if s == [] || !IsWhiteSpace(s[0]) then s
    else
      var r := TrimStart(s[1..]);
      assert s[..|s| - |r|] == [s[0]] + s[1..][..|s[1..]| - |r|];
      r
  }

  /** `s.trimEnd()`: the prefix left after dropping the trailing whitespace. */
  function TrimEnd(s: string): (r: string)
    ensures |r| <= |s| && r == s[..|r|]
    ensures Blank(s[|r|..])
    ensures r == [] || !IsWhiteSpace(r[|r| - 1])
  {
    if s == [] || !IsWhiteSpace(s[|s| - 1]) then s
    else
      var r := TrimEnd(s[..|s| - 1]);
      assert s[|r|..] == s[..|s| - 1][|r|..] + [s[|s| - 1]];
      r
  }

  /** `s.trim()`: both ends stripped; empty exactly when every character is whitespace. */
  function Trim(s: string): (r: string)
    ensures |r| <= |s|
    ensures r == [] <==> Blank(s)
    ensures r == [] || (!IsWhiteSpace(r[0]) && !IsWhiteSpace(r[|r| - 1]))
  {
    TrimBothEnds(s);
    TrimEnd(TrimStart(s))
  }

  lemma TrimBothEnds(s: string)
    ensures var r := TrimEnd(TrimStart(s));
      && |r| <= |s|
      && (r == [] <==> Blank(s))
      && (r == [] || (!IsWhiteSpace(r[0]) && !IsWhiteSpace(r[|r| - 1])))
  {
    TrimEmptyWhenBlank(s);
    TrimKeepsFirstSolid(s);
  }

  lemma TrimEmptyWhenBlank(s: string)
    ensures TrimEnd(TrimStart(s)) == [] ==> Blank(s)
  {
    var t := TrimStart(s);
    var cut := |s| - |t|;
    if TrimEnd(t) == [] {
      assert Blank(t[0..]);
      assert t == s[cut..] && t[0..] == t;
      BlankSplit(s, cut);
    }
  }

  lemma TrimKeepsFirstSolid(s: string)
    ensures var r := TrimEnd(TrimStart(s));
      r != [] ==> r[0] == s[|s| - |TrimStart(s)|] && !IsWhiteSpace(r[0])
  {
    var t := TrimStart(s);
    var r := TrimEnd(t);
    if r != [] {
      assert r[0] == t[0];
    }
  }

  lemma BlankSplit(s: string, cut: nat)
    requires cut <= |s| && Blank(s[..cut]) && Blank(s[cut..])
    ensures Blank(s)
  {
    forall i | 0 <= i < |s|
      ensures IsWhiteSpace(s[i])
    {
      if i < cut {
        assert s[..cut][i] == s[i];
      } else {
        assert s[cut..][i - cut] == s[i];
      }
    }
  }

  /** `s.startsWith(p)`. */
  predicate StartsWith(s: string, p: string)
  {
    |p| <= |s| && s[..|p|] == p
  }

  /** `s.endsWith(p)`. */
  predicate EndsWith(s: string, p: string)
  {
    |p| <= |s| && s[|s| - |p|..] == p
  }

  /** `s.lastIndexOf(c)` on one character: -1 when absent. */
  function LastIndexOf(s: string, c: char): (i: int)
    ensures -1 <= i < |s|
    ensures i >= 0 ==> s[i] == c && c !in s[i + 1..]
    ensures i == -1 <==> c !in s
  {
    if s == [] then -1
    else if s[|s| - 1] == c then |s| - 1
    else
      var i := LastIndexOf(s[..|s| - 1], c);
      assert s == s[..|s| - 1] + [s[|s| - 1]];
      i
  }

  /** Nothing after the last occurrence is `c`. */
  lemma LastIndexOfIsLast(s: string, c: char)
    ensures forall j :: LastIndexOf(s, c) < j < |s| ==> s[j] != c
  {
    var i := LastIndexOf(s, c);
    forall j | i < j < |s|
      ensures s[j] != c
    {
      assert s[j] == s[i + 1..][j - i - 1];
    }
  }

  /** The index of the last line terminator, -1 when there is none. */
  function LastLineTerminator(s: string): (i: int)
    ensures -1 <= i < |s|
    ensures i >= 0 ==> IsLineTerminator(s[i])
    ensures forall j :: i < j < |s| ==> !IsLineTerminator(s[j])
  {
    if s == [] then -1
    else if IsLineTerminator(s[|s| - 1]) then |s| - 1
    else LastLineTerminator(s[..|s| - 1])
  }

  /**
   * The relational operator `a < b` on strings: lexicographic comparison,
   * a proper prefix ordering before its extensions.
   */
  predicate Less(a: string, b: string)
  {
    if b == [] then false
    else if a == [] then true
    else if a[0] != b[0] then a[0] < b[0]
    else Less(a[1..], b[1..])
  }

  lemma {:induction false} LessIrreflexive(a: string)
    ensures !Less(a, a)
  {
    if a != [] {
      LessIrreflexive(a[1..]);
    }
  }

  lemma {:induction false} LessTransitive(a: string, b: string, c: string)
    requires Less(a, b) && Less(b, c)
    ensures Less(a, c)
  {
    if a != [] && b != [] && c != [] && a[0] == b[0] == c[0] {
      LessTransitive(a[1..], b[1..], c[1..]);
    }
  }

  lemma {:induction false} LessTotal(a: string, b: string)
    ensures a == b || Less(a, b) || Less(b, a)
  {
    if a != [] && b != [] && a[0] == b[0] {
      LessTotal(a[1..], b[1..]);
      if a[1..] == b[1..] {
        assert a == [a[0]] + a[1..] && b == [b[0]] + b[1..];
      }
    }
  }

  lemma {:induction false} LessAsymmetric(a: string, b: string)
    requires Less(a, b)
    ensures !Less(b, a)
  {
    if a != [] && b != [] && a[0] == b[0] {
      LessAsymmetric(a[1..], b[1..]);
    }
  }

  /** A common prefix does not change the comparison. */
  lemma {:induction false} LessCommonPrefix(p: string, a: string, b: string)
    requires Less(a, b)
    ensures Less(p + a, p + b)
  {
    if p != [] {
      LessCommonPrefix(p[1..], a, b);
      assert (p + a)[0] == p[0] == (p + b)[0];
      assert (p + a)[1..] == p[1..] + a && (p + b)[1..] == p[1..] + b;
    } else {
      assert p + a == a && p + b == b;
    }
  }

  /**
   * String `<` as ECMA-262 defines it (IsLessThan, section 7.2.13 of the 2023
   * edition): a proper prefix is smaller; otherwise the first position where
   * the two differ decides.
   */
  ghost predicate Lexicographic(a: string, b: string)
  {
    (|a| < |b| && a == b[..|a|])
    || exists k :: 0 <= k < |a| && k < |b| && a[..k] == b[..k] && a[k] < b[k]
  }

  lemma {:induction false} LessIsLexicographic(a: string, b: string)
    ensures Less(a, b) <==> Lexicographic(a, b)
  {
    if b == [] {
    } else if a == [] {
      assert a == b[..0];
    } else if a[0] != b[0] {
      FirstDifferenceDecides(a, b);
    } else {
      LessIsLexicographic(a[1..], b[1..]);
      DropSharedHead(a, b);
    }
  }

  lemma FirstDifferenceDecides(a: string, b: string)
    requires a != [] && b != [] && a[0] != b[0]
    ensures Lexicographic(a, b) <==> a[0] < b[0]
  {
    if a[0] < b[0] {
      assert a[..0] == b[..0];
    }
    forall k | 0 < k < |a| && k < |b|
      ensures a[..k] != b[..k]
    {
      assert a[..k][0] == a[0] && b[..k][0] == b[0];
    }
    if |a| < |b| {
      assert b[..|a|][0] == b[0];
    }
  }

  lemma DropSharedHead(a: string, b: string)
    requires a != [] && b != [] && a[0] == b[0]
    ensures Lexicographic(a, b) <==> Lexicographic(a[1..], b[1..])
  {
    var a', b' := a[1..], b[1..];
    if |a| < |b| {
      assert b[..|a|] == [b[0]] + b'[..|a'|];
      assert a == [a[0]] + a';
    }
    forall k | 0 < k < |a| && k < |b|
      ensures (a[..k] == b[..k] && a[k] < b[k]) <==> (a'[..k - 1] == b'[..k - 1] && a'[k - 1] < b'[k - 1])
    {
      assert a[..k] == [a[0]] + a'[..k - 1];
      assert b[..k] == [b[0]] + b'[..k - 1];
      assert a[k] == a'[k - 1] && b[k] == b'[k - 1];
      if a[..k] == b[..k] {
        assert a'[..k - 1] == a[..k][1..] == b[..k][1..] == b'[..k - 1];
      }
    }
    if Lexicographic(a', b') && !(|a'| < |b'| && a' == b'[..|a'|]) {
      var k :| 0 <= k < |a'| && k < |b'| && a'[..k] == b'[..k] && a'[k] < b'[k];
      assert a[..k + 1] == b[..k + 1] && a[k + 1] < b[k + 1];
    }
  }

  /** `s.startsWith(p)` holds of exactly the strings that are `p` followed by something. */
  lemma StartsWithConcat(s: string, p: string)
    ensures StartsWith(s, p) <==> exists rest :: s == p + rest
  {
    if StartsWith(s, p) {
      assert s == p + s[|p|..];
    }
    forall rest | s == p + rest
      ensures StartsWith(s, p)
    {
      assert s[..|p|] == p;
    }
  }

  /** `s.endsWith(p)` holds of exactly the strings that are something followed by `p`. */
  lemma EndsWithConcat(s: string, p: string)
    ensures EndsWith(s, p) <==> exists front :: s == front + p
  {
    if EndsWith(s, p) {
      assert s == s[..|s| - |p|] + p;
    }
    forall front | s == front + p
      ensures EndsWith(s, p)
    {
      assert s[|s| - |p|..] == p;
    }
  }
}
