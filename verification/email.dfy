/** The two e-mail patterns of the user interface: the anchored one the
    meeting card applies when saving, `^[^\s@]+@[^\s@]+\.[^\s@]+$`, and the
    unanchored one the creation form applies when adding a participant,
    `\S+@\S+\.\S+`. */
module Email {
  import opened Text

  /** A character of the class `[^\s@]`. */
  predicate AddressChar(c: char) {
    !IsSpace(c) && c != '@'
  }

  /** Every character of `s` is in `[^\s@]`. */
  predicate AddressRun(s: string) {
    forall k :: 0 <= k < |s| ==> AddressChar(s[k])
  }

  /** The anchored pattern matches with its '@' at `i` and its '.' at `j`:
      the three runs around them are non-empty and every character other
      than that '@' is in `[^\s@]`. */
  predicate CardMatchAt(s: string, i: int, j: int) {
    && 0 < i && i + 1 < j && j + 1 < |s| && s[i] == '@' && s[j] == '.'
    && AddressRun(s[..i]) && AddressRun(s[i + 1..])
  }

  /** The card's anchored pattern `^[^\s@]+@[^\s@]+\.[^\s@]+$`. */
  predicate MatchesCardPattern(s: string) {
    exists i, j | 0 <= i < |s| && 0 <= j < |s| :: CardMatchAt(s, i, j)
  }

  /** The unanchored pattern finds `X@Y.Z` with its '@' at `i` and its '.'
      at `j`; the shortest choice of `X` and `Z` is one character each. */
  predicate FormMatchAt(s: string, i: int, j: int) {
    && 0 < i && i + 1 < j && j + 1 < |s| && s[i] == '@' && s[j] == '.'
    && !IsSpace(s[i - 1]) && !IsSpace(s[j + 1]) && NoSpace(s[i + 1..j])
  }

  /** The form's unanchored pattern `\S+@\S+\.\S+`: somewhere in `s` there
      is a non-space character, '@', a non-empty run of non-space
      characters, '.', and a non-space character. */
  predicate MatchesFormPattern(s: string) {
    exists i, j | 0 <= i < |s| && 0 <= j < |s| :: FormMatchAt(s, i, j)
  }

  /** Position of the first occurrence of `c`. */
  function IndexOf(s: string, c: char): (i: nat)
    requires c in s
    ensures i < |s| && s[i] == c && c !in s[..i]
  {
    if s[0] == c then 0
    else
      assert c in s[1..] by { assert s == [s[0]] + s[1..]; }
      var i := 1 + IndexOf(s[1..], c);
      assert s[..i] == [s[0]] + s[1..][..i - 1];
      i
  }

  /** The domain has a '.' that is neither its first nor its last character. */
  predicate HasInnerDot(domain: string) {
    exists j :: 0 < j < |domain| - 1 && domain[j] == '.'
  }

  /** The '@' at `at` is the only one, with a non-empty local part before
      it and a domain with an inner '.' after it. */
  predicate SoleAtSplits(s: string, at: nat)
    requires at < |s|
  {
    at > 0 && '@' !in s[at + 1..] && HasInnerDot(s[at + 1..])
  }

  /** The same check stated field by field: no white space, exactly one '@',
      a non-empty local part before it, and a domain after it with an
      inner '.'. */
  predicate WellFormedAddress(s: string) {
    NoSpace(s) && '@' in s && SoleAtSplits(s, IndexOf(s, '@'))
  }

  /** The well-formed reading, at the position of the first '@', is a
      match of the anchored pattern. */
  lemma WellFormedGivesCardMatch(s: string)
    requires WellFormedAddress(s)
    ensures MatchesCardPattern(s)
  {
    var at := IndexOf(s, '@');
    var d := s[at + 1..];
    var j :| 0 < j < |d| - 1 && d[j] == '.';
    assert s[at + 1 + j] == '.';
    assert AddressRun(s[..at]) by {
      forall k | 0 <= k < at ensures AddressChar(s[..at][k]) {
        assert s[..at][k] == s[k];
      }
    }
    assert AddressRun(d) by {
      forall k | 0 <= k < |d| ensures AddressChar(d[k]) {
        assert d[k] == s[at + 1 + k];
      }
    }
    assert CardMatchAt(s, at, at + 1 + j);
  }

  /** A match of the anchored pattern has its '@' at the first (and only)
      '@', and the rest of the well-formed reading follows. */
  lemma CardMatchIsWellFormed(s: string, i: int, j: int)
    requires CardMatchAt(s, i, j)
    ensures WellFormedAddress(s)
  {
    var before, after := s[..i], s[i + 1..];
    assert s == before + ['@'] + after;
    assert '@' in s;
    var at := IndexOf(s, '@');
    assert at == i;
    assert after[j - i - 1] == '.';
    assert NoSpace(s) by {
      forall k | 0 <= k < |s| ensures !IsSpace(s[k]) {
        if k < i { assert s[k] == before[k]; }
        else if k > i { assert s[k] == after[k - i - 1]; }
      }
    }
  }

  /** The field-by-field reading and the anchored pattern accept the same
      strings. */
  lemma WellFormedIffCardPattern(s: string)
    ensures WellFormedAddress(s) <==> MatchesCardPattern(s)
  {
    if WellFormedAddress(s) {
      WellFormedGivesCardMatch(s);
    }
    if MatchesCardPattern(s) {
      var i, j :| 0 <= i < |s| && 0 <= j < |s| && CardMatchAt(s, i, j);
      CardMatchIsWellFormed(s, i, j);
    }
  }

  /** Every address the card accepts also passes the form's check. */
  lemma CardPatternImpliesFormPattern(s: string)
    requires MatchesCardPattern(s)
    ensures MatchesFormPattern(s)
  {
    var i, j :| 0 <= i < |s| && 0 <= j < |s| && CardMatchAt(s, i, j);
    var before, after := s[..i], s[i + 1..];
    assert s[i - 1] == before[i - 1];
    assert s[j + 1] == after[j - i];
    assert s[i + 1..j] == after[..j - i - 1];
    assert FormMatchAt(s, i, j);
  }

  /** The converse fails: prefixing a second '@' to a trimmed address the
      form accepts gives one it still accepts, still trimmed, that the
      card rejects. */
  lemma FormPatternAdmitsSecondAt(s: string)
    requires MatchesFormPattern(s) && Trimmed(s)
    ensures MatchesFormPattern("@" + s) && Trimmed("@" + s)
    ensures !MatchesCardPattern("@" + s)
  {
    var t := "@" + s;
    var i, j :| 0 <= i < |s| && 0 <= j < |s| && FormMatchAt(s, i, j);
    assert t[i + 1] == s[i] && t[j + 1] == s[j] && t[i] == s[i - 1] && t[j + 2] == s[j + 1];
    var inner, domain := t[i + 2..j + 1], s[i + 1..j];
    forall p | 0 <= p < |domain|
      ensures inner[p] == domain[p]
    {
      assert inner[p] == t[i + 2 + p] == s[i + 1 + p];
    }
    assert inner == domain;
    assert FormMatchAt(t, i + 1, j + 1);
    assert t[|t| - 1] == s[|s| - 1];
    forall i2, j2 | 0 <= i2 < |t| && 0 <= j2 < |t| ensures !CardMatchAt(t, i2, j2) {
      if 0 < i2 { assert t[..i2][0] == '@'; }
    }
  }

  /** Trimming shifts a match of the form's pattern left by the number of
      leading white-space characters cut. */
  lemma TrimShiftsFormMatch(s: string, i: int, j: int)
    requires FormMatchAt(s, i, j)
    ensures FormMatchAt(Trim(s), i - TrimOffset(s), j - TrimOffset(s))
  {
    TrimKeepsNonSpace(s, i - 1);
    TrimKeepsNonSpace(s, i);
    TrimKeepsNonSpace(s, j);
    TrimKeepsNonSpace(s, j + 1);
    TrimSlice(s, i + 1, j);
  }

  /** Whatever the form's pattern finds lies between the white space `trim`
      removes, so the trimmed input still matches and is not empty. */
  lemma FormPatternSurvivesTrim(s: string)
    requires MatchesFormPattern(s)
    ensures MatchesFormPattern(Trim(s)) && Trim(s) != ""
  {
    var i, j :| 0 <= i < |s| && 0 <= j < |s| && FormMatchAt(s, i, j);
    TrimShiftsFormMatch(s, i, j);
  }
}
