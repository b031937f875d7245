/** The email-shape test of the user-creation route: the anchored pattern
    `^[^\s@]+@[^\s@]+\.[^\s@]+$`, and its equivalent structural description. */
module EmailCheck {
  import opened JsSemantics

  /** The character class `[^\s@]`. */
  predicate InClass(c: char) {
    !IsWhitespace(c) && c != '@'
  }

  /** A run `[^\s@]*`: every character of `s` is in the class. */
  predicate AllInClass(s: string) {
    forall k | 0 <= k < |s| :: InClass(s[k])
  }

  /** `/^[^\s@]+@[^\s@]+\.[^\s@]+$/.test(s)`: the pattern matches the whole of `s`
      exactly when `s` splits at an '@' at index `i` and a '.' at index `j` into
      three non-empty runs of the class `[^\s@]`. Backtracking explores every such
      split, so one is enough. */
  predicate MatchesEmailPattern(s: string)
    ensures MatchesEmailPattern(s) ==> 5 <= |s| && InClass(s[0]) && InClass(s[|s| - 1])
  {
    exists i, j | 0 < i < |s| && 0 < j < |s| && i + 1 < j && j + 1 < |s| ::
      s[i] == '@' && s[j] == '.' && AllInClass(s[..i]) && AllInClass(s[i + 1..j]) && AllInClass(s[j + 1..])
  }

  /** Number of occurrences of `c` in `s`. */
  function Count(s: string, c: char): nat {
    if s == [] then 0 else (if s[0] == c then 1 else 0) + Count(s[1..], c)
  }

  predicate NoWhitespace(s: string) {
    forall k | 0 <= k < |s| :: !IsWhitespace(s[k])
  }

  /** The domain `d` has a '.' that is neither its first nor its last character. */
  predicate HasInnerDot(d: string) {
    exists j | 0 < j < |d| - 1 :: d[j] == '.'
  }

  /** The structural reading of the pattern: exactly one '@', no whitespace, a
      non-empty local part before the '@', and a domain after it that contains a
      '.' other than at either end. */
  predicate IsEmailShaped(s: string) {
    && Count(s, '@') == 1
    && NoWhitespace(s)
    && exists i | 0 <= i < |s| :: s[i] == '@' && i > 0 && HasInnerDot(s[i + 1..])
  }

  lemma {:induction false} CountAppend(a: string, b: string, c: char)
    ensures Count(a + b, c) == Count(a, c) + Count(b, c)
  {
    if a == [] {
      assert a + b == b;
    } else {
      assert (a + b)[1..] == a[1..] + b;
      CountAppend(a[1..], b, c);
    }
  }

  lemma {:induction false} CountZero(s: string, c: char)
    ensures Count(s, c) == 0 <==> forall k | 0 <= k < |s| :: s[k] != c
  {
    if s != [] {
      CountZero(s[1..], c);
      assert forall k | 1 <= k < |s| :: s[k] == s[1..][k - 1];
    }
  }

  /** Splitting `s` around index `k`. */
  lemma CountAround(s: string, k: nat, c: char)
    requires k < |s|
    ensures Count(s, c) == Count(s[..k], c) + (if s[k] == c then 1 else 0) + Count(s[k + 1..], c)
  {
    assert s == s[..k] + [s[k]] + s[k + 1..];
    CountAppend(s[..k] + [s[k]], s[k + 1..], c);
    CountAppend(s[..k], [s[k]], c);
  }

  /** Two occurrences of `c` count at least twice. */
  lemma CountTwoOccurrences(s: string, c: char, i: nat, k: nat)
    requires i < k < |s| && s[i] == c && s[k] == c
    ensures Count(s, c) >= 2
  {
    CountAround(s, k, c);
    CountZero(s[..k], c);
    assert s[..k][i] == c;
  }

  /** Every split the pattern accepts gives the structural shape. */
  lemma PatternGivesShape(s: string, i: nat, j: nat)
    requires 0 < i && i + 1 < j && j + 1 < |s| && s[i] == '@' && s[j] == '.'
    requires AllInClass(s[..i]) && AllInClass(s[i + 1..j]) && AllInClass(s[j + 1..])
    ensures IsEmailShaped(s)
  {
    var a, b, c := s[..i], s[i + 1..j], s[j + 1..];
    assert s == a + ['@'] + b + ['.'] + c;
    CountZero(a, '@');
    CountZero(b, '@');
    CountZero(c, '@');
    CountAppend(a + ['@'] + b + ['.'], c, '@');
    CountAppend(a + ['@'] + b, ['.'], '@');
    CountAppend(a + ['@'], b, '@');
    CountAppend(a, ['@'], '@');
    forall k | 0 <= k < |s| ensures !IsWhitespace(s[k]) {
      if k < i {
        assert s[k] == a[k];
      } else if i < k < j {
        assert s[k] == b[k - i - 1];
      } else if j < k {
        assert s[k] == c[k - j - 1];
      }
    }
    var d := s[i + 1..];
    assert d[j - i - 1] == '.';
  }

  /** Every string of the structural shape has a split the pattern accepts. */
  lemma ShapeGivesPattern(s: string) returns (i: nat, j: nat)
    requires IsEmailShaped(s)
    ensures 0 < i && i + 1 < j && j + 1 < |s| && s[i] == '@' && s[j] == '.'
    ensures AllInClass(s[..i]) && AllInClass(s[i + 1..j]) && AllInClass(s[j + 1..])
  {
    i :| 0 <= i < |s| && s[i] == '@' && i > 0 && HasInnerDot(s[i + 1..]);
    var d := s[i + 1..];
    var jd :| 0 < jd < |d| - 1 && d[jd] == '.';
    j := i + 1 + jd;
    assert s[j] == d[jd];
    forall k | 0 <= k < |s| && k != i ensures InClass(s[k]) {
      if s[k] == '@' {
        if i < k {
          CountTwoOccurrences(s, '@', i, k);
        } else {
          CountTwoOccurrences(s, '@', k, i);
        }
      }
    }
    assert forall k | 0 <= k < |s[..i]| :: s[..i][k] == s[k];
    var b, c := s[i + 1..j], s[j + 1..];
    assert forall k | 0 <= k < |b| :: b[k] == s[i + 1 + k];
    assert forall k | 0 <= k < |c| :: c[k] == s[j + 1 + k];
  }

  /** The pattern accepts exactly the strings of the structural shape. */
  lemma PatternIffShape(s: string)
    ensures MatchesEmailPattern(s) <==> IsEmailShaped(s)
  {
    if MatchesEmailPattern(s) {
      var i, j :| 0 < i < |s| && 0 < j < |s| && i + 1 < j && j + 1 < |s| &&
        s[i] == '@' && s[j] == '.' && AllInClass(s[..i]) && AllInClass(s[i + 1..j]) && AllInClass(s[j + 1..]);
      PatternGivesShape(s, i, j);
    }
    if IsEmailShaped(s) {
      var i, j := ShapeGivesPattern(s);
    }
  }

  /** Any local part, host and top-level part that are non-empty runs of `[^\s@]`
      joined as `a@b.c` pass the test. */
  lemma ComposedAddressMatches(a: string, b: string, c: string)
    requires a != [] && b != [] && c != []
    requires AllInClass(a) && AllInClass(b) && AllInClass(c)
    ensures MatchesEmailPattern(a + "@" + b + "." + c)
  {
    var s := a + "@" + b + "." + c;
    var i, j := |a|, |a| + 1 + |b|;
    assert s[..i] == a;
    assert s[i + 1..j] == b;
    assert s[j + 1..] == c;
    assert s[i] == '@' && s[j] == '.';
  }

  /** A string without '@' or without a '.' inside its domain fails the test. */
  lemma MissingPartsFail(s: string)
    requires Count(s, '@') == 0 || forall i | 0 <= i < |s| && s[i] == '@' :: !HasInnerDot(s[i + 1..])
    ensures !MatchesEmailPattern(s)
  {
    PatternIffShape(s);
  }
}
