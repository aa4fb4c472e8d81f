/** The address check shared by the browser form and the spreadsheet endpoint: the regular
    expression `^[^\s@]+@[^\s@]+\.[^\s@]+$`, read term by term over positions of the string. */
module EmailSyntax {
  import opened JsString

  /** One character of the class `[^\s@]`. */
  predicate IsAddressChar(c: char)
  {
    !IsWhiteSpace(c) && c != '@'
  }

  /** `[^\s@]+` matching `s[lo..hi]`: a non-empty run of address characters. */
  predicate IsRun(s: string, lo: int, hi: int)
  {
    0 <= lo < hi <= |s| && forall k {:trigger IsAddressChar(s[k])} :: lo <= k < hi ==> IsAddressChar(s[k])
  }

  /** `/^[^\s@]+@[^\s@]+\.[^\s@]+$/.test(s)`: a run, the `@` at `at`, then a domain. */
  predicate IsValidEmail(s: string)
  {
    exists at {:trigger IsRun(s, 0, at)} :: 0 < at < |s| && IsRun(s, 0, at) && s[at] == '@' && IsDomainFrom(s, at + 1)
  }

  /** `[^\s@]+\.[^\s@]+$` matching `s[start..]`: a run, the `.` at `dot` and a run reaching the
      end. */
  predicate IsDomainFrom(s: string, start: int)
  {
    exists dot {:trigger IsRun(s, start, dot)} :: 0 <= start < dot < |s| - 1 && IsRun(s, start, dot) && s[dot] == '.' &&
      IsRun(s, dot + 1, |s|)
  }

  /** The same language described as a whole: no white space anywhere, a single `@` that is not
      the first character, and after it a domain holding a `.` that is neither the domain's first
      nor its last character. */
  ghost predicate IsLocalAtDomain(s: string)
  {
    && (forall k :: 0 <= k < |s| ==> !IsWhiteSpace(s[k]))
    && exists at :: 0 < at < |s| && s[at] == '@' && IsOnlyAt(s, at) && HasInteriorDot(s, at + 1)
  }

  /** Position `at` holds the string's only `@`. */
  ghost predicate IsOnlyAt(s: string, at: int)
  {
    forall k :: 0 <= k < |s| && k != at ==> s[k] != '@'
  }

  /** The domain `s[start..]` has a `.` strictly inside it. */
  ghost predicate HasInteriorDot(s: string, start: int)
  {
    exists i :: 0 <= start < i < |s| - 1 && s[i] == '.'
  }

  /** Every string the regular expression accepts is in the local@domain language. */
  lemma ValidEmailIsLocalAtDomain(s: string)
    requires IsValidEmail(s)
    ensures IsLocalAtDomain(s)
  {
    var at :| 0 < at < |s| && IsRun(s, 0, at) && s[at] == '@' && IsDomainFrom(s, at + 1);
    var dot :| at + 1 < dot < |s| - 1 && IsRun(s, at + 1, dot) && s[dot] == '.' && IsRun(s, dot + 1, |s|);
    forall k | 0 <= k < |s|
      ensures !IsWhiteSpace(s[k]) && (k != at ==> s[k] != '@')
    {
      if k != at && k != dot {
        assert IsAddressChar(s[k]);
      }
    }
    assert IsOnlyAt(s, at);
    assert HasInteriorDot(s, at + 1) by {
      assert at + 1 < dot < |s| - 1 && s[dot] == '.';
    }
  }

  /** Every string of the local@domain language is accepted by the regular expression. */
  lemma LocalAtDomainIsValidEmail(s: string)
    requires IsLocalAtDomain(s)
    ensures IsValidEmail(s)
  {
    var at :| 0 < at < |s| && s[at] == '@' && IsOnlyAt(s, at) && HasInteriorDot(s, at + 1);
    var dot :| at + 1 < dot < |s| - 1 && s[dot] == '.';
    forall k | 0 <= k < |s| && k != at
      ensures IsAddressChar(s[k])
    {
      assert !IsWhiteSpace(s[k]) && s[k] != '@';
    }
    assert IsRun(s, 0, at) && IsRun(s, at + 1, dot) && IsRun(s, dot + 1, |s|);
    assert IsDomainFrom(s, at + 1);
  }

  /** The regular expression accepts exactly the local@domain language. */
  lemma ValidEmailIffLocalAtDomain(s: string)
    ensures IsValidEmail(s) <==> IsLocalAtDomain(s)
  {
    if IsValidEmail(s) {
      ValidEmailIsLocalAtDomain(s);
    }
    if IsLocalAtDomain(s) {
      LocalAtDomainIsValidEmail(s);
    }
  }

  /** A string whose `@` at `at` is its only one holds exactly one `@`. */
  lemma OneAtCount(s: string, at: int)
    requires 0 <= at < |s| && s[at] == '@' && IsOnlyAt(s, at)
    ensures multiset(s)['@'] == 1
  {
    var front, back := s[..at], s[at + 1..];
    assert s == front + [s[at]] + back;
    forall k | 0 <= k < |front|
      ensures front[k] != '@'
    {
      assert front[k] == s[k];
    }
    forall j | 0 <= j < |back|
      ensures back[j] != '@'
    {
      assert back[j] == s[at + 1 + j];
    }
    assert '@' !in front && '@' !in back;
  }

  /** A valid address holds exactly one `@`. */
  lemma ValidEmailHasOneAt(s: string)
    requires IsValidEmail(s)
    ensures multiset(s)['@'] == 1
  {
    ValidEmailIsLocalAtDomain(s);
    var at :| 0 < at < |s| && s[at] == '@' && IsOnlyAt(s, at) && HasInteriorDot(s, at + 1);
    OneAtCount(s, at);
  }

  /** A valid address neither starts nor ends with white space, so trimming leaves it unchanged. */
  lemma ValidEmailIsTrimmed(s: string)
    requires IsValidEmail(s)
    ensures Trim(s) == s
  {
    ValidEmailIsLocalAtDomain(s);
    assert !IsWhiteSpace(s[0]) && !IsWhiteSpace(s[|s| - 1]);
    TrimUnchanged(s);
  }

  lemma EmptyIsInvalid()
    ensures !IsValidEmail("")
  {
  }

  /** A white-space character anywhere makes the address invalid (leading and trailing ones
      included). */
  lemma WhiteSpaceIsInvalid(s: string, k: int)
    requires 0 <= k < |s| && IsWhiteSpace(s[k])
    ensures !IsValidEmail(s)
  {
    if IsValidEmail(s) {
      ValidEmailIsLocalAtDomain(s);
    }
  }

  /** Without an `@`, or with two or more, the address is invalid. */
  lemma AtCountOtherThanOneIsInvalid(s: string)
    requires multiset(s)['@'] != 1
    ensures !IsValidEmail(s)
  {
    if IsValidEmail(s) {
      ValidEmailHasOneAt(s);
    }
  }

  /** An address whose part after its first `@` has no `.` strictly inside it is invalid: the `@`
      must be the string's only one, and its domain needs an interior dot. */
  lemma NoInteriorDotIsInvalid(local: string, domain: string)
    requires '@' !in local && !HasInteriorDot(domain, 0)
    ensures !IsValidEmail(local + "@" + domain)
  {
    var s := local + "@" + domain;
    var n := |local|;
    assert s[n] == '@';
    forall at | 0 < at < |s| && s[at] == '@' && IsOnlyAt(s, at)
      ensures !HasInteriorDot(s, at + 1)
    {
      assert at == n;
      forall i | n + 1 < i < |s| - 1
        ensures s[i] != '.'
      {
        assert s[i] == domain[i - n - 1];
      }
    }
    assert !IsLocalAtDomain(s);
    ValidEmailIffLocalAtDomain(s);
  }

  /** The canonical shape `user@domain.tld` is accepted. */
  lemma CanonicalIsValid()
    ensures IsValidEmail("user@domain.tld")
  {
    var s := "user@domain.tld";
    assert s[4] == '@' && s[11] == '.';
    assert IsRun(s, 0, 4) && IsRun(s, 5, 11) && IsRun(s, 12, |s|);
    assert IsDomainFrom(s, 5);
  }

  /** The string `not-an-email` is rejected: it has no `@`. */
  lemma NotAnEmailIsInvalid()
    ensures !IsValidEmail("not-an-email")
  {
    var s := "not-an-email";
    assert forall k :: 0 <= k < |s| ==> s[k] != '@';
  }
}
