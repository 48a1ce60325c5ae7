/**
 * The e-mail format check of the contact handler: the regular expression
 * `^[^\s@]+@[^\s@]+\.[^\s@]+$` as a predicate on strings, and its equivalence
 * with a plain description of the addresses it accepts.
 */
module EmailFormat {

  /** ECMAScript's `\s`: the WhiteSpace code points (TAB, VT, FF, ZWNBSP and the
      Unicode space separators) and the LineTerminator code points (LF, CR, LS, PS). */
  predicate IsSpace(c: char) {
    c == '\t' || c == '\n' || c == '\U{000B}' || c == '\U{000C}' || c == '\r'
    || c == ' ' || c == '\U{00A0}' || c == '\U{1680}'
    || ('\U{2000}' <= c <= '\U{200A}')
    || c == '\U{2028}' || c == '\U{2029}' || c == '\U{202F}' || c == '\U{205F}'
    || c == '\U{3000}' || c == '\U{FEFF}'
  }

  /** The character class `[^\s@]`. */
  predicate InClass(c: char) {
    c != '@' && !IsSpace(c)
  }

  /** Every character of `s` is in `[^\s@]`. */
  predicate AllInClass(s: string) {
    forall k | 0 <= k < |s| :: InClass(s[k])
  }

  /** What `emailRegex.test(s)` answers: `s` is a non-empty run of `[^\s@]`,
      an `@`, a non-empty run, a `.`, and a non-empty run, with nothing before
      or after (the anchors `^` and `$`). */
  predicate RegexMatch(s: string) {
    exists at, dot | 0 < at < |s| && at + 1 < dot < |s| - 1 ::
      s[at] == '@' && s[dot] == '.'
      && AllInClass(s[..at]) && AllInClass(s[at + 1..dot]) && AllInClass(s[dot + 1..])
  }

  /** Position of the first `@` of `s`, or `|s|` when there is none. */
  function AtIndex(s: string): (i: nat)
    ensures i <= |s|
    ensures i < |s| ==> s[i] == '@'
    ensures forall k | 0 <= k < i :: s[k] != '@'
  {
    if s == [] || s[0] == '@' then 0 else 1 + AtIndex(s[1..])
  }

  /** The text before the first `@`. */
  function LocalPart(s: string): string {
    s[..AtIndex(s)]
  }

  /** The text after the first `@` (empty when there is no `@`). */
  function DomainPart(s: string): string {
    if AtIndex(s) < |s| then s[AtIndex(s) + 1..] else []
  }

  predicate NoSpace(s: string) {
    forall k | 0 <= k < |s| :: !IsSpace(s[k])
  }

  /** `d` has a `.` that is neither its first nor its last character. */
  predicate InteriorDot(d: string) {
    exists k | 0 < k < |d| - 1 :: d[k] == '.'
  }

  /** The plain description of an acceptable address: exactly one `@`, no
      whitespace, a non-empty local part, and a domain part with an interior dot. */
  predicate PlainAddress(s: string) {
    multiset(s)['@'] == 1
    && NoSpace(s)
    && |LocalPart(s)| > 0
    && InteriorDot(DomainPart(s))
  }

  /** `x` occurs once in `s`, at `i`, exactly when no other position holds `x`. */
  lemma OnlyOccurrence(s: string, x: char, i: nat)
    requires i < |s| && s[i] == x
    ensures multiset(s)[x] == 1 <==> forall k | 0 <= k < |s| && k != i :: s[k] != x
  {
    var before, after := s[..i], s[i + 1..];
    assert s == before + [x] + after;
    assert multiset(s)[x] == multiset(before)[x] + 1 + multiset(after)[x];
    if forall k | 0 <= k < |s| && k != i :: s[k] != x {
      assert x !in before by {
        forall k | 0 <= k < |before| ensures before[k] != x { assert before[k] == s[k]; }
      }
      assert x !in after by {
        forall k | 0 <= k < |after| ensures after[k] != x { assert after[k] == s[i + 1 + k]; }
      }
    } else {
      var k :| 0 <= k < |s| && k != i && s[k] == x;
      if k < i {
        assert before[k] == x;
        assert x in multiset(before);
      } else {
        assert after[k - i - 1] == x;
        assert x in multiset(after);
      }
    }
  }

  /** A split witnessing the regular expression yields a plain address. */
  lemma SplitIsPlain(s: string, at: nat, dot: nat)
    requires 0 < at < |s| && at + 1 < dot < |s| - 1
    requires s[at] == '@' && s[dot] == '.'
    requires AllInClass(s[..at]) && AllInClass(s[at + 1..dot]) && AllInClass(s[dot + 1..])
    ensures PlainAddress(s)
  {
    var local, host, tld := s[..at], s[at + 1..dot], s[dot + 1..];
    forall k | 0 <= k < |s| ensures !IsSpace(s[k]) && (k != at ==> s[k] != '@') {
      if k < at {
        assert local[k] == s[k];
      } else if at < k < dot {
        assert host[k - at - 1] == s[k];
      } else if dot < k {
        assert tld[k - dot - 1] == s[k];
      }
    }
    OnlyOccurrence(s, '@', at);
    assert AtIndex(s) == at;
    var d := DomainPart(s);
    assert d == s[at + 1..];
    assert d[dot - at - 1] == '.';
  }

  /** A plain address splits the way the regular expression requires. */
  lemma PlainHasSplit(s: string)
    requires PlainAddress(s)
    ensures RegexMatch(s)
  {
    var at := AtIndex(s);
    assert '@' in multiset(s);
    assert at < |s|;
    OnlyOccurrence(s, '@', at);
    var d := DomainPart(s);
    var k :| 0 < k < |d| - 1 && d[k] == '.';
    var dot := at + 1 + k;
    assert s[dot] == '.';
    var local, host, tld := s[..at], s[at + 1..dot], s[dot + 1..];
    assert AllInClass(local) by {
      forall j | 0 <= j < |local| ensures InClass(local[j]) { assert local[j] == s[j]; }
    }
    assert AllInClass(host) by {
      forall j | 0 <= j < |host| ensures InClass(host[j]) { assert host[j] == s[at + 1 + j]; }
    }
    assert AllInClass(tld) by {
      forall j | 0 <= j < |tld| ensures InClass(tld[j]) { assert tld[j] == s[dot + 1 + j]; }
    }
  }

  /** The regular expression accepts exactly the plain addresses. */
  lemma RegexMatchIff(s: string)
    ensures RegexMatch(s) <==> PlainAddress(s)
  {
    if RegexMatch(s) {
      var at, dot :| 0 < at < |s| && at + 1 < dot < |s| - 1
        && s[at] == '@' && s[dot] == '.'
        && AllInClass(s[..at]) && AllInClass(s[at + 1..dot]) && AllInClass(s[dot + 1..]);
      SplitIsPlain(s, at, dot);
    }
    if PlainAddress(s) {
      PlainHasSplit(s);
    }
  }

  /** The shortest accepted address: one character in each of the three runs. */
  lemma ShortestAccepted()
    ensures RegexMatch("a@b.c")
  {
    var s := "a@b.c";
    assert s[1] == '@' && s[3] == '.';
    assert AllInClass(s[..1]) && AllInClass(s[1 + 1..3]) && AllInClass(s[3 + 1..]);
  }

  /** Rejected: no dot after the `@`. */
  lemma NoDotRejected()
    ensures !RegexMatch("a@b")
  {
  }

  /** Rejected: whitespace in the local part. */
  lemma SpaceRejected()
    ensures !RegexMatch("a b@c.com")
  {
    var s := "a b@c.com";
    RegexMatchIff(s);
    assert IsSpace(s[1]);
  }

  /** Rejected: empty local part. */
  lemma EmptyLocalRejected()
    ensures !RegexMatch("@b.com")
  {
    var s := "@b.com";
    RegexMatchIff(s);
    assert AtIndex(s) == 0;
  }
}
