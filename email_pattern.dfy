/**
 * The email `match` validator of the user schema, the regular expression
 *
 *     ^\w+([\.-]?\w+)*@\w+([\.-]?\w+)*(\.\w{2,3})+$
 *
 * (JavaScript, no flags: `\w` is [A-Za-z0-9_], `$` is the end of the input)
 * written as a grammar predicate that follows the expression piece by piece,
 * together with a characterization by the shape of the accepted strings and
 * the properties of accepted addresses that follow from it.
 */
module EmailPattern {

  /** `\w` */
  predicate IsWordChar(c: char)
  {
    ('a' <= c <= 'z') || ('A' <= c <= 'Z') || ('0' <= c <= '9') || c == '_'
  }

  /** `[\.-]` */
  predicate IsSeparator(c: char)
  {
    c == '.' || c == '-'
  }

  /** `\w+` */
  predicate WordRun(s: string)
  {
    |s| > 0 && forall i :: 0 <= i < |s| ==> IsWordChar(s[i])
  }

  /** `\w+([\.-]?\w+)*`, unrolled from the right: X ::= \w+ | X [\.-]? \w+ */
  predicate Dotted(s: string)
    decreases |s|
  {
    || WordRun(s)
    || exists k :: 0 < k < |s| && Dotted(s[..k]) &&
                   (WordRun(s[k..]) || (IsSeparator(s[k]) && WordRun(s[k + 1..])))
  }

  /** `\.\w{n}` at the start of `t` */
  predicate SuffixBlock(t: string, n: nat)
  {
    n < |t| && t[0] == '.' && WordRun(t[1..n + 1])
  }

  /** `(\.\w{2,3})+` */
  predicate TopLevelSuffix(t: string)
    decreases |t|
  {
    || (SuffixBlock(t, 2) && (|t| == 3 || TopLevelSuffix(t[3..])))
    || (SuffixBlock(t, 3) && (|t| == 4 || TopLevelSuffix(t[4..])))
  }

  /** `\w+([\.-]?\w+)*(\.\w{2,3})+`, the part after the '@' */
  predicate Domain(d: string)
  {
    exists j :: 0 < j < |d| && Dotted(d[..j]) && TopLevelSuffix(d[j..])
  }

  /** The whole expression, anchored at both ends. */
  predicate MatchesEmailPattern(s: string): (r: bool)
    ensures r ==> '@' in s
  {
    exists i :: 0 <= i < |s| && s[i] == '@' && Dotted(s[..i]) && Domain(s[i + 1..])
  }

  // ---------------------------------------------------------------------
  // Shape characterization

  /**
   * The strings `\w+([\.-]?\w+)*` describes: nonempty, made of word
   * characters and separators, beginning and ending with a word character,
   * and never holding two separators in a row.
   */
  predicate Shaped(s: string)
  {
    && |s| > 0 && IsWordChar(s[0]) && IsWordChar(s[|s| - 1])
    && (forall i :: 0 <= i < |s| ==> IsWordChar(s[i]) || IsSeparator(s[i]))
    && (forall i :: 0 < i < |s| ==> IsWordChar(s[i - 1]) || IsWordChar(s[i]))
  }

  /** A domain: shaped, and its last two or three characters follow a '.'. */
  predicate DomainShaped(d: string)
  {
    && Shaped(d)
    && (|| (|d| > 3 && d[|d| - 3] == '.' && WordRun(d[|d| - 2..]))
        || (|d| > 4 && d[|d| - 4] == '.' && WordRun(d[|d| - 3..])))
  }

  predicate EmailShaped(s: string)
  {
    exists i :: 0 <= i < |s| && s[i] == '@' && Shaped(s[..i]) && DomainShaped(s[i + 1..])
  }

  /** Appending a word run, or a separator and a word run, to a shaped string keeps it shaped. */
  lemma ShapedAppend(a: string, b: string)
    requires Shaped(a)
    requires WordRun(b) || (|b| > 0 && IsSeparator(b[0]) && WordRun(b[1..]))
    ensures Shaped(a + b)
  {
    var s := a + b;
    forall i | 0 <= i < |s|
      ensures IsWordChar(s[i]) || IsSeparator(s[i])
    {
      if i >= |a| && !WordRun(b) && i > |a| {
        assert s[i] == b[1..][i - |a| - 1];
      }
    }
    forall i | 0 < i < |s|
      ensures IsWordChar(s[i - 1]) || IsWordChar(s[i])
    {
      if i > |a| + 1 && !WordRun(b) {
        assert s[i] == b[1..][i - |a| - 1];
      }
    }
    if !WordRun(b) {
      assert s[|s| - 1] == b[1..][|b| - 2];
    }
  }

  /** A prefix of a shaped string that ends with a word character is shaped. */
  lemma ShapedPrefix(s: string, m: nat)
    requires Shaped(s) && 0 < m <= |s| && IsWordChar(s[m - 1])
    ensures Shaped(s[..m])
  {
  }

  lemma {:induction false} DottedIsShaped(s: string)
    requires Dotted(s)
    ensures Shaped(s)
    decreases |s|
  {
    if !WordRun(s) {
      var k :| 0 < k < |s| && Dotted(s[..k]) &&
                (WordRun(s[k..]) || (IsSeparator(s[k]) && WordRun(s[k + 1..])));
      DottedIsShaped(s[..k]);
      assert s[k..][1..] == s[k + 1..];
      ShapedAppend(s[..k], s[k..]);
      assert s[..k] + s[k..] == s;
    }
  }

  lemma {:induction false} ShapedIsDotted(s: string)
    requires Shaped(s)
    ensures Dotted(s)
    decreases |s|
  {
    var n := |s|;
    if n == 1 {
      assert WordRun(s);
    } else if IsWordChar(s[n - 2]) {
      ShapedPrefix(s, n - 1);
      ShapedIsDotted(s[..n - 1]);
      assert WordRun(s[n - 1..]);
      var k := n - 1;
      assert 0 < k < |s| && Dotted(s[..k]) && WordRun(s[k..]);
    } else {
      assert IsWordChar(s[n - 3]);
      ShapedPrefix(s, n - 2);
      ShapedIsDotted(s[..n - 2]);
      assert WordRun(s[n - 1..]);
      var k := n - 2;
      assert 0 < k < |s| && Dotted(s[..k]) && IsSeparator(s[k]) && WordRun(s[k + 1..]);
    }
  }

  /** `\w+([\.-]?\w+)*` describes exactly the shaped strings. */
  lemma DottedIffShaped(s: string)
    ensures Dotted(s) <==> Shaped(s)
  {
    if Dotted(s) { DottedIsShaped(s); }
    if Shaped(s) { ShapedIsDotted(s); }
  }

  lemma {:induction false} SuffixExtends(a: string, t: string)
    requires Shaped(a) && TopLevelSuffix(t)
    ensures DomainShaped(a + t)
    decreases |t|
  {
    var n := if SuffixBlock(t, 2) && (|t| == 3 || TopLevelSuffix(t[3..])) then 2 else 3;
    var b := t[..n + 1];
    assert b[1..] == t[1..n + 1];
    ShapedAppend(a, b);
    if |t| == n + 1 {
      assert b == t;
      assert (a + t)[|a + t| - n..] == t[1..];
      assert (a + t)[|a + t| - n - 1] == t[0];
    } else {
      SuffixExtends(a + b, t[n + 1..]);
      assert (a + b) + t[n + 1..] == a + t;
    }
  }

  lemma DomainIsShaped(d: string)
    requires Domain(d)
    ensures DomainShaped(d)
  {
    var j :| 0 < j < |d| && Dotted(d[..j]) && TopLevelSuffix(d[j..]);
    DottedIsShaped(d[..j]);
    SuffixExtends(d[..j], d[j..]);
    assert d[..j] + d[j..] == d;
  }

  lemma ShapedIsDomain(d: string)
    requires DomainShaped(d)
    ensures Domain(d)
  {
    var n := if |d| > 3 && d[|d| - 3] == '.' && WordRun(d[|d| - 2..]) then 2 else 3;
    var j := |d| - n - 1;
    assert IsWordChar(d[j - 1]);
    ShapedPrefix(d, j);
    ShapedIsDotted(d[..j]);
    assert d[j..][1..n + 1] == d[|d| - n..];
    assert SuffixBlock(d[j..], n);
    assert TopLevelSuffix(d[j..]);
  }

  /** The pattern accepts exactly the strings of the shape local@domain described above. */
  lemma PatternIffShaped(s: string)
    ensures MatchesEmailPattern(s) <==> EmailShaped(s)
  {
    if MatchesEmailPattern(s) {
      var i :| 0 <= i < |s| && s[i] == '@' && Dotted(s[..i]) && Domain(s[i + 1..]);
      DottedIsShaped(s[..i]);
      DomainIsShaped(s[i + 1..]);
    }
    if EmailShaped(s) {
      var i :| 0 <= i < |s| && s[i] == '@' && Shaped(s[..i]) && DomainShaped(s[i + 1..]);
      ShapedIsDotted(s[..i]);
      ShapedIsDomain(s[i + 1..]);
    }
  }

  lemma ShapedHasNoAt(s: string)
    requires Shaped(s)
    ensures multiset(s)['@'] == 0
  {
    assert '@' !in s;
  }

  // ---------------------------------------------------------------------
  // Properties of accepted addresses

  /** Cutting a string around one position splits its multiset accordingly. */
  lemma MultisetAround(s: string, at: nat)
    requires at < |s|
    ensures multiset(s) == multiset(s[..at]) + multiset{s[at]} + multiset(s[at + 1..])
  {
    assert s == s[..at] + [s[at]] + s[at + 1..];
  }

  /**
   * An accepted address holds exactly one '@'; the local part before it
   * begins and ends with a word character, and so does the domain after it.
   */
  lemma PatternAtSign(s: string) returns (at: nat)
    requires MatchesEmailPattern(s)
    ensures 0 < at < |s| - 1 && s[at] == '@'
    ensures multiset(s)['@'] == 1
    ensures IsWordChar(s[0]) && IsWordChar(s[at - 1])
    ensures IsWordChar(s[at + 1]) && IsWordChar(s[|s| - 1])
  {
    at :| 0 <= at < |s| && s[at] == '@' && Dotted(s[..at]) && Domain(s[at + 1..]);
    var local, d := s[..at], s[at + 1..];
    DottedIsShaped(local);
    DomainIsShaped(d);
    ShapedHasNoAt(local);
    ShapedHasNoAt(d);
    MultisetAround(s, at);
    assert s[0] == local[0] && s[at - 1] == local[at - 1];
    assert s[at + 1] == d[0] && s[|s| - 1] == d[|d| - 1];
  }

  /**
   * An accepted address is at least six characters long and ends with a '.'
   * followed by two or three word characters.
   */
  lemma PatternTopLevelDomain(s: string)
    requires MatchesEmailPattern(s)
    ensures |s| >= 6
    ensures || (s[|s| - 3] == '.' && WordRun(s[|s| - 2..]))
            || (s[|s| - 4] == '.' && WordRun(s[|s| - 3..]))
  {
    PatternIffShaped(s);
    var at :| 0 <= at < |s| && s[at] == '@' && Shaped(s[..at]) && DomainShaped(s[at + 1..]);
    var d := s[at + 1..];
    assert s[|s| - 2..] == d[|d| - 2..];
    assert s[|s| - 3..] == d[|d| - 3..];
  }

  /** A typical address, `ann@x.com`, is accepted. */
  lemma SampleAddressAccepted()
    ensures MatchesEmailPattern("ann@x.com")
  {
    var s := "ann@x.com";
    assert Shaped(s[..3]);
    assert DomainShaped(s[4..]);
    assert EmailShaped(s) by {
      assert 0 <= 3 < |s| && s[3] == '@' && Shaped(s[..3]) && DomainShaped(s[4..]);
    }
    PatternIffShaped(s);
  }
}
