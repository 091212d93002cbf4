/**
 The phone check of the intake form, the regular expression
 `^[\+]?[0-9\s\-\(\)]{10,}$` (no flags), written as a predicate over characters.
 */
module PhoneCheck {
  import opened JsStrings

  /** The character class `[0-9\s\-\(\)]`. */
  predicate IsPhoneClassChar(c: char) {
    ('0' <= c <= '9') || IsJsWhitespace(c) || c == '-' || c == '(' || c == ')'
  }

  /** `[0-9\s\-\(\)]{10,}$` matched starting at position `from`: ten or more
      class characters running up to the end of the input. */
  predicate ClassRunToEnd(s: string, from: nat)
    requires from <= |s|
  {
    |s| - from >= 10 && forall k :: from <= k < |s| ==> IsPhoneClassChar(s[k])
  }

  /** `phoneRegex.test(s)`. The pattern is anchored at the start, so only a
      match at position 0 is tried; the engine first lets the greedy `[\+]?`
      take a leading plus and, if the rest fails, backtracks to take nothing. */
  predicate PhoneRegexTest(s: string) {
    (|s| > 0 && s[0] == '+' && ClassRunToEnd(s, 1)) || ClassRunToEnd(s, 0)
  }

  /** The pattern read as a shape: an optional plus and then a run of at
      least ten class characters, nothing else. */
  predicate AllClass(run: string) {
    forall k :: 0 <= k < |run| ==> IsPhoneClassChar(run[k])
  }

  function OptionalPlus(plus: bool): (p: string)
    ensures |p| <= 1
  {
    if plus then "+" else ""
  }

  /** Every string of the shape passes the test. */
  lemma ShapeAccepted(plus: bool, run: string)
    requires |run| >= 10 && AllClass(run)
    ensures PhoneRegexTest(OptionalPlus(plus) + run)
  {
    var s := OptionalPlus(plus) + run;
    if plus {
      assert s[1..] == run;
      assert ClassRunToEnd(s, 1);
    } else {
      assert s == run;
    }
  }

  /** Every string that passes the test has the shape, with `plus` exactly
      when it starts with a plus sign (a plus is not a class character). */
  lemma AcceptedHasShape(s: string)
    requires PhoneRegexTest(s)
    ensures s != [] && var plus := s[0] == '+';
      var run := s[|OptionalPlus(plus)|..];
      s == OptionalPlus(plus) + run && |run| >= 10 && AllClass(run)
  {
    if s[0] == '+' {
      assert !ClassRunToEnd(s, 0) by { assert !IsPhoneClassChar(s[0]); }
      assert s == "+" + s[1..];
    } else {
      assert s == "" + s[0..];
    }
  }

  /** Two phones as visitors type them: a three-digit number is refused and
      a formatted Russian mobile number is accepted. */
  lemma PhoneExamples()
    ensures !PhoneRegexTest("123")
    ensures PhoneRegexTest("+7 (900) 123-45-67")
  {
    var good := "+7 (900) 123-45-67";
    assert ClassRunToEnd(good, 1);
  }

  /** The test runs on the untrimmed phone, and white space is a class
      character, so a phone can pass the test and yet trim to something
      that would not: a plus followed by ten spaces trims to a lone plus. */
  lemma TrimmedPhoneMayFailTest()
    ensures var s := "+          ";
      PhoneRegexTest(s) && Trim(s) == "+" && !PhoneRegexTest(Trim(s))
  {
    var s := "+          ";
    var spaces := s[1..];
    assert forall k :: 0 <= k < |spaces| ==> spaces[k] == ' ';
    assert Blank(spaces) && AllClass(spaces);
    assert s == OptionalPlus(true) + spaces;
    ShapeAccepted(true, spaces);
    assert s == [] + "+" + spaces;
    TrimUnique([], "+", spaces);
    assert !PhoneRegexTest("+");
  }

  lemma ClassCharsOfInfix(s: string, i: nat, t: string)
    requires PhoneRegexTest(s)
    requires i + |t| <= |s| && forall k :: 0 <= k < |t| ==> t[k] == s[i + k]
    ensures forall k :: 0 <= k < |t| ==> IsPhoneClassChar(t[k]) || (k == 0 && t[k] == '+')
  {
    forall k | 0 <= k < |t|
      ensures IsPhoneClassChar(t[k]) || (k == 0 && t[k] == '+')
    {
      assert t[k] == s[i + k];
      if i + k != 0 && s[0] == '+' {
        assert ClassRunToEnd(s, 1);
      }
    }
  }

  /** What survives of an accepted phone after `trim`: class characters
      only, except for a plus that can only stand first. */
  lemma TrimmedAcceptedPhone(s: string)
    requires PhoneRegexTest(s)
    ensures var t := Trim(s);
      forall k :: 0 <= k < |t| ==> IsPhoneClassChar(t[k]) || (k == 0 && t[k] == '+')
  {
    var t := Trim(s);
    var i := SkipForward(s, 0);
    TrimIsInfix(s);
    assert forall k :: 0 <= k < |t| ==> t[k] == s[i + k];
    ClassCharsOfInfix(s, i, t);
  }
}
