/**
 * The email pattern of the user schema, `^\w+([.-]?\w+)*@\w+([.-]?\w+)*(\.\w{2,3})+$`
 * (an ad hoc shape, not the address grammar of RFC 5322).
 *
 * `MatchesPattern` transcribes the pattern clause by clause; `IsEmailShaped` is a
 * direct, quantifier-bounded check; `MatchesPatternIff` proves the two agree on
 * every string.
 */
module EmailShape {

  /** `\w` of a JavaScript regular expression without the `u` flag. */
  predicate IsWordChar(c: char) {
    ('a' <= c <= 'z') || ('A' <= c <= 'Z') || ('0' <= c <= '9') || c == '_'
  }

  /** `[.-]` */
  predicate IsSep(c: char) {
    c == '.' || c == '-'
  }

  predicate AllWord(s: string) {
    forall i | 0 <= i < |s| :: IsWordChar(s[i])
  }

  // ---------------------------------------------------------------------------
  // The pattern, clause by clause.
  // ---------------------------------------------------------------------------

  /** `\w+` */
  ghost predicate WordRun(s: string) {
    |s| > 0 && AllWord(s)
  }

  /** `[.-]?\w+` */
  ghost predicate Segment(s: string) {
    WordRun(s) || (|s| > 1 && IsSep(s[0]) && WordRun(s[1..]))
  }

  /** `([.-]?\w+)*` */
  ghost predicate Segments(s: string)
    decreases |s|
  {
    s == [] || exists k | 1 <= k <= |s| :: Segment(s[..k]) && Segments(s[k..])
  }

  /** `\w+([.-]?\w+)*` */
  ghost predicate Dotted(s: string) {
    exists k | 1 <= k <= |s| :: WordRun(s[..k]) && Segments(s[k..])
  }

  /** `\.\w{2,3}` */
  ghost predicate TopLevel(s: string) {
    (|s| == 3 || |s| == 4) && s[0] == '.' && AllWord(s[1..])
  }

  /** `(\.\w{2,3})+` */
  ghost predicate TopLevels(s: string)
    decreases |s|
  {
    exists k | 3 <= k <= |s| :: TopLevel(s[..k]) && (k == |s| || TopLevels(s[k..]))
  }

  /** The whole pattern, anchored at both ends. */
  ghost predicate MatchesPattern(s: string) {
    exists i, j | 0 <= i < j <= |s| :: s[i] == '@' && Dotted(s[..i]) && Dotted(s[i + 1..j]) && TopLevels(s[j..])
  }

  // ---------------------------------------------------------------------------
  // The direct check.
  // ---------------------------------------------------------------------------

  /** Only word characters and separators, and every separator is followed by a word character. */
  predicate Separated(s: string) {
    forall i | 0 <= i < |s| :: IsWordChar(s[i]) || (IsSep(s[i]) && i + 1 < |s| && IsWordChar(s[i + 1]))
  }

  /** Word characters, optionally split by single separators: starts and ends with a word character. */
  predicate WordSeparated(s: string) {
    |s| > 0 && IsWordChar(s[0]) && Separated(s)
  }

  /** A word-separated name followed by a final `.` and two or three word characters. */
  predicate DomainShaped(r: string) {
    || (|r| >= 4 && r[|r| - 3] == '.' && AllWord(r[|r| - 2..]) && WordSeparated(r[..|r| - 3]))
    || (|r| >= 5 && r[|r| - 4] == '.' && AllWord(r[|r| - 3..]) && WordSeparated(r[..|r| - 4]))
  }

  predicate IsEmailShaped(s: string) {
    exists i | 0 <= i < |s| :: s[i] == '@' && WordSeparated(s[..i]) && DomainShaped(s[i + 1..])
  }

  // ---------------------------------------------------------------------------
  // The two agree.
  // ---------------------------------------------------------------------------

  lemma SeparatedConcat(a: string, b: string)
    requires Separated(a) && Separated(b)
    ensures Separated(a + b)
  {
    var s := a + b;
    forall i | 0 <= i < |s|
      ensures IsWordChar(s[i]) || (IsSep(s[i]) && i + 1 < |s| && IsWordChar(s[i + 1]))
    {
      if i < |a| {
        assert s[i] == a[i];
        if !IsWordChar(a[i]) { assert s[i + 1] == a[i + 1]; }
      } else {
        assert s[i] == b[i - |a|];
        if !IsWordChar(b[i - |a|]) { assert s[i + 1] == b[i - |a| + 1]; }
      }
    }
  }

  lemma SeparatedSuffix(s: string, k: nat)
    requires Separated(s) && k <= |s|
    ensures Separated(s[k..])
  {
    var t := s[k..];
    forall i | 0 <= i < |t|
      ensures IsWordChar(t[i]) || (IsSep(t[i]) && i + 1 < |t| && IsWordChar(t[i + 1]))
    {
      assert t[i] == s[k + i];
      if !IsWordChar(s[k + i]) { assert t[i + 1] == s[k + i + 1]; }
    }
  }

  lemma SegmentSeparated(s: string)
    requires Segment(s)
    ensures Separated(s) && |s| > 0 && IsWordChar(s[|s| - 1])
  {
    if !WordRun(s) {
      assert s[1..][0] == s[1];
      assert s[1..][|s| - 2] == s[|s| - 1];
      forall i | 1 <= i < |s| ensures IsWordChar(s[i]) {
        assert s[1..][i - 1] == s[i];
      }
    }
  }

  /** `([.-]?\w+)*` matches exactly the separated strings. */
  lemma {:induction false} SegmentsIff(s: string)
    ensures Segments(s) <==> Separated(s)
    decreases |s|
  {
    if s != [] {
      if Segments(s) {
        var k :| 1 <= k <= |s| && Segment(s[..k]) && Segments(s[k..]);
        SegmentSeparated(s[..k]);
        SegmentsIff(s[k..]);
        SeparatedConcat(s[..k], s[k..]);
        assert s[..k] + s[k..] == s;
      }
      if Separated(s) {
        var k := if IsWordChar(s[0]) then 1 else 2;
        assert k <= |s|;
        if k == 2 {
          assert s[..k][1..] == [s[1]];
        }
        assert Segment(s[..k]);
        SeparatedSuffix(s, k);
        SegmentsIff(s[k..]);
      }
    }
  }

  /** `\w+([.-]?\w+)*` matches exactly the word-separated strings. */
  lemma DottedIff(s: string)
    ensures Dotted(s) <==> WordSeparated(s)
  {
    if Dotted(s) {
      var k :| 1 <= k <= |s| && WordRun(s[..k]) && Segments(s[k..]);
      SegmentsIff(s[k..]);
      assert Separated(s[..k]);
      SeparatedConcat(s[..k], s[k..]);
      assert s[..k] + s[k..] == s;
      assert s[0] == s[..k][0];
    }
    if WordSeparated(s) {
      SeparatedSuffix(s, 1);
      SegmentsIff(s[1..]);
      assert WordRun(s[..1]);
    }
  }

  /** A `\.\w{2,3}` group is itself separated: its dot is followed by a word character. */
  lemma TopLevelSeparated(head: string)
    requires TopLevel(head)
    ensures Separated(head)
  {
    forall i | 0 <= i < |head|
      ensures IsWordChar(head[i]) || (IsSep(head[i]) && i + 1 < |head| && IsWordChar(head[i + 1]))
    {
      if i > 0 { assert head[i] == head[1..][i - 1]; }
      else { assert head[1] == head[1..][0]; }
    }
  }

  /** A word-separated name followed by one last `\.\w{2,3}` group has the domain shape. */
  lemma DomainFromLast(d: string, head: string)
    requires WordSeparated(d) && TopLevel(head)
    ensures DomainShaped(d + head)
  {
    var r := d + head;
    var n := |d|;
    assert r[..n] == d;
    assert r[n] == '.';
    assert r[n + 1..] == head[1..];
  }

  /** `(\.\w{2,3})+` is a separated run of groups followed by one last group. */
  lemma {:induction false} TopLevelsSplit(t: string) returns (m: nat)
    requires TopLevels(t)
    ensures m < |t| && Separated(t[..m]) && TopLevel(t[m..])
    decreases |t|
  {
    var k :| 3 <= k <= |t| && TopLevel(t[..k]) && (k == |t| || TopLevels(t[k..]));
    if k == |t| {
      m := 0;
      assert t[m..] == t[..k];
    } else {
      var rest := t[k..];
      var n := TopLevelsSplit(rest);
      m := k + n;
      TopLevelSeparated(t[..k]);
      SeparatedConcat(t[..k], rest[..n]);
      assert t[..m] == t[..k] + rest[..n];
      assert t[m..] == rest[n..];
    }
  }

  /** A word-separated name followed by `(\.\w{2,3})+` has the domain shape. */
  lemma DomainFromParts(d: string, t: string)
    requires WordSeparated(d) && TopLevels(t)
    ensures DomainShaped(d + t)
  {
    var m := TopLevelsSplit(t);
    SeparatedConcat(d, t[..m]);
    assert (d + t[..m])[0] == d[0];
    DomainFromLast(d + t[..m], t[m..]);
    assert (d + t[..m]) + t[m..] == d + t;
  }

  /** A string with the domain shape splits into `\w+([.-]?\w+)*` and `(\.\w{2,3})+`. */
  lemma DomainToParts(r: string) returns (m: nat)
    requires DomainShaped(r)
    ensures m <= |r| && Dotted(r[..m]) && TopLevels(r[m..])
  {
    if |r| >= 4 && r[|r| - 3] == '.' && AllWord(r[|r| - 2..]) && WordSeparated(r[..|r| - 3]) {
      m := |r| - 3;
    } else {
      m := |r| - 4;
    }
    DottedIff(r[..m]);
    var t := r[m..];
    assert t[..|t|] == t;
    assert t[1..] == r[m + 1..];
    assert TopLevel(t[..|t|]);
  }

  lemma PatternToShape(s: string, i: nat, j: nat)
    requires 0 <= i < j <= |s| && s[i] == '@' && Dotted(s[..i]) && Dotted(s[i + 1..j]) && TopLevels(s[j..])
    ensures IsEmailShaped(s)
  {
    DottedIff(s[..i]);
    DottedIff(s[i + 1..j]);
    DomainFromParts(s[i + 1..j], s[j..]);
    assert s[i + 1..j] + s[j..] == s[i + 1..];
  }

  lemma ShapeToPattern(s: string, i: nat)
    requires 0 <= i < |s| && s[i] == '@' && WordSeparated(s[..i]) && DomainShaped(s[i + 1..])
    ensures MatchesPattern(s)
  {
    DottedIff(s[..i]);
    var r := s[i + 1..];
    var m := DomainToParts(r);
    var j := i + 1 + m;
    assert r[..m] == s[i + 1..j];
    assert r[m..] == s[j..];
    assert j > i;
    assert s[i] == '@' && Dotted(s[..i]) && Dotted(s[i + 1..j]) && TopLevels(s[j..]);
  }

  /** The pattern and the direct check accept the same strings. */
  lemma MatchesPatternIff(s: string)
    ensures MatchesPattern(s) <==> IsEmailShaped(s)
  {
    if MatchesPattern(s) {
      var i, j :| 0 <= i < j <= |s| && s[i] == '@' && Dotted(s[..i]) && Dotted(s[i + 1..j]) && TopLevels(s[j..]);
      PatternToShape(s, i, j);
    }
    if IsEmailShaped(s) {
      var i :| 0 <= i < |s| && s[i] == '@' && WordSeparated(s[..i]) && DomainShaped(s[i + 1..]);
      ShapeToPattern(s, i);
    }
  }

  /** Every character of a domain-shaped string is a word character or a separator. */
  lemma DomainChars(r: string)
    requires DomainShaped(r)
    ensures forall q | 0 <= q < |r| :: IsWordChar(r[q]) || IsSep(r[q])
  {
    var n := if |r| >= 4 && r[|r| - 3] == '.' && AllWord(r[|r| - 2..]) && WordSeparated(r[..|r| - 3]) then |r| - 3 else |r| - 4;
    assert r[n] == '.' && AllWord(r[n + 1..]) && WordSeparated(r[..n]);
    forall q | 0 <= q < |r| ensures IsWordChar(r[q]) || IsSep(r[q]) {
      if q < n { assert r[..n][q] == r[q]; }
      else if q > n { assert r[n + 1..][q - n - 1] == r[q]; }
    }
  }

  /** A string with the email shape holds only word characters, separators and `@`, and has at least six characters. */
  lemma EmailShapedChars(s: string)
    requires IsEmailShaped(s)
    ensures forall p | 0 <= p < |s| :: IsWordChar(s[p]) || IsSep(s[p]) || s[p] == '@'
    ensures |s| >= 6
  {
    var i :| 0 <= i < |s| && s[i] == '@' && WordSeparated(s[..i]) && DomainShaped(s[i + 1..]);
    var r := s[i + 1..];
    DomainChars(r);
    forall p | 0 <= p < |s| ensures IsWordChar(s[p]) || IsSep(s[p]) || s[p] == '@' {
      if p < i { assert s[..i][p] == s[p]; }
      else if p > i { assert r[p - i - 1] == s[p]; }
    }
  }
}
