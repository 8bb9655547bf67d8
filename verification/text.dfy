/** String helpers the components rely on: JavaScript's notion of white
    space, `String.prototype.trim`, `split(',')` and `Array.prototype.join(',')`,
    and the comma-joined participants field the meeting card parses. */
module Text {

  /** The characters `trim` removes and the regular-expression class `\s`
      matches: ECMAScript's WhiteSpace and LineTerminator productions. */
  const Spaces: set<char> := {
    '\t', '\n', '\U{000B}', '\U{000C}', '\r', ' ', '\U{00A0}', '\U{1680}',
    '\U{2000}', '\U{2001}', '\U{2002}', '\U{2003}', '\U{2004}', '\U{2005}',
    '\U{2006}', '\U{2007}', '\U{2008}', '\U{2009}', '\U{200A}',
    '\U{2028}', '\U{2029}', '\U{202F}', '\U{205F}', '\U{3000}', '\U{FEFF}'
  }

  predicate IsSpace(c: char) {
    c in Spaces
  }

  predicate AllSpace(s: string) {
    forall i :: 0 <= i < |s| ==> IsSpace(s[i])
  }

  predicate NoSpace(s: string) {
    forall i :: 0 <= i < |s| ==> !IsSpace(s[i])
  }

  /** Every character of `s` at an index in `lo..hi` is white space. */
  predicate SpaceBetween(s: string, lo: nat, hi: nat) {
    forall i :: lo <= i < hi && i < |s| ==> IsSpace(s[i])
  }

  /** A string `trim` leaves alone: it neither starts nor ends with white space. */
  predicate Trimmed(s: string) {
    s == [] || (!IsSpace(s[0]) && !IsSpace(s[|s| - 1]))
  }

  /** Scanning up from `i`: the index of the first character that is not
      white space, or `|s|`. */
  function FirstKept(s: string, i: nat): (k: nat)
    requires i <= |s|
    ensures i <= k <= |s| && SpaceBetween(s, i, k)
    ensures k < |s| ==> !IsSpace(s[k])
    decreases |s| - i
  {
    if i < |s| && IsSpace(s[i]) then FirstKept(s, i + 1) else i
  }

  /** Scanning down from `e` but not below `k`: one past the last character
      that is not white space, or `k`. */
  function LastKept(s: string, k: nat, e: nat): (n: nat)
    requires k <= e <= |s|
    ensures k <= n <= e && SpaceBetween(s, n, e)
    ensures n > k ==> !IsSpace(s[n - 1])
    decreases e
  {
    if e > k && IsSpace(s[e - 1]) then LastKept(s, k, e - 1) else e
  }

  /** Where the text `trim` keeps starts. */
  function TrimOffset(s: string): (k: nat)
    ensures k <= |s|
  {
    FirstKept(s, 0)
  }

  /** Where the text `trim` keeps ends. */
  function TrimEnd(s: string): (e: nat)
    ensures TrimOffset(s) <= e <= |s|
  {
    LastKept(s, TrimOffset(s), |s|)
  }

  /** `s.trim()`: the characters between the white space it cuts on either
      side, in order; it is empty exactly when `s` is all white space. */
  function Trim(s: string): (r: string)
    ensures Trimmed(r)
    ensures SpaceBetween(s, 0, TrimOffset(s)) && SpaceBetween(s, TrimOffset(s) + |r|, |s|)
    ensures TrimOffset(s) + |r| <= |s|
    ensures forall p :: 0 <= p < |r| ==> r[p] == s[TrimOffset(s) + p]
    ensures r == [] <==> AllSpace(s)
  {
    var k := TrimOffset(s);
    var e := TrimEnd(s);
    assert k == e ==> AllSpace(s) by {
      if k == e {
        forall i | 0 <= i < |s| ensures IsSpace(s[i]) {
          assert i < k || e <= i;
        }
      }
    }
    s[k..e]
  }

  /** `trim` keeps every non-space character, at its position shifted left
      by the cut prefix. */
  lemma TrimKeepsNonSpace(s: string, p: int)
    requires 0 <= p < |s| && !IsSpace(s[p])
    ensures TrimOffset(s) <= p < TrimOffset(s) + |Trim(s)|
    ensures Trim(s)[p - TrimOffset(s)] == s[p]
  {
  }

  /** Inside the kept range, `trim` moves characters without changing them. */
  lemma TrimSlice(s: string, lo: int, hi: int)
    requires TrimOffset(s) <= lo <= hi <= TrimOffset(s) + |Trim(s)|
    ensures Trim(s)[lo - TrimOffset(s)..hi - TrimOffset(s)] == s[lo..hi]
  {
    var k, r := TrimOffset(s), Trim(s);
    var t := r[lo - k..hi - k];
    forall p | 0 <= p < |t|
      ensures t[p] == s[lo..hi][p]
    {
      assert t[p] == r[lo - k + p] == s[lo + p];
    }
  }

  /** A string that neither starts nor ends with white space is left alone. */
  lemma TrimmedIsFixed(s: string)
    requires Trimmed(s)
    ensures Trim(s) == s
  {
    assert TrimOffset(s) == 0;
    assert TrimEnd(s) == |s|;
  }

  /** Trimming twice is trimming once. */
  lemma TrimIdempotent(s: string)
    ensures Trim(Trim(s)) == Trim(s)
  {
    TrimmedIsFixed(Trim(s));
  }

  /** A string without white space is its own trim. */
  lemma NoSpaceIsTrimmed(s: string)
    requires NoSpace(s)
    ensures Trim(s) == s
  {
    TrimmedIsFixed(s);
  }

  /** Whatever white space surrounds a trimmed, non-empty text, `trim`
      gives exactly that text back. */
  lemma TrimOfPadded(a: string, m: string, b: string)
    requires AllSpace(a) && AllSpace(b) && Trimmed(m) && m != []
    ensures Trim(a + m + b) == m
  {
    var s := a + m + b;
    var k := TrimOffset(s);
    var e := TrimEnd(s);
    assert s[|a|] == m[0] && s[|a| + |m| - 1] == m[|m| - 1];
    assert k == |a|;
    assert e == |a| + |m|;
    assert Trim(s) == s[|a|..|a| + |m|];
    assert forall p :: 0 <= p < |m| ==> s[|a| + p] == m[p];
  }

  /** `xs.join(sep)`: the pieces with one separator between neighbours. */
  function Join(xs: seq<string>, sep: char): (r: string)
    ensures |xs| == 1 ==> r == xs[0]
  {
    if |xs| == 0 then ""
    else if |xs| == 1 then xs[0]
    else xs[0] + [sep] + Join(xs[1..], sep)
  }

  /** `s.split(sep)`: the maximal separator-free pieces, left to right.
      There is always at least one piece ("" splits into [""]), no piece
      holds the separator, and joining the pieces gives `s` back. */
  function Split(s: string, sep: char): (r: seq<string>)
    ensures |r| >= 1
    ensures forall i :: 0 <= i < |r| ==> sep !in r[i]
    ensures Join(r, sep) == s
  {
    if s == [] then [""]
    else
      var rest := Split(s[1..], sep);
      if s[0] == sep then
        assert s == [sep] + s[1..];
        [""] + rest
      else
        var r := [[s[0]] + rest[0]] + rest[1..];
        assert r[1..] == rest[1..];
        assert s == [s[0]] + s[1..];
        r
  }

  lemma {:induction false} SplitOfSeparatorFree(s: string, sep: char)
    requires sep !in s
    ensures Split(s, sep) == [s]
  {
    if s != [] {
      SplitOfSeparatorFree(s[1..], sep);
    }
  }

  /** Splitting at the first separator: the first piece is the text before it. */
  lemma {:induction false} SplitAtFirst(a: string, b: string, sep: char)
    requires sep !in a
    ensures Split(a + [sep] + b, sep) == [a] + Split(b, sep)
  {
    if a == [] {
      assert a + [sep] + b == [sep] + b;
      assert ([sep] + b)[1..] == b;
    } else {
      SplitAtFirst(a[1..], b, sep);
      assert (a + [sep] + b)[1..] == a[1..] + [sep] + b;
      assert [a[0]] + a[1..] == a;
    }
  }

  /** Joining separator-free pieces and splitting again gives the pieces back. */
  lemma {:induction false} SplitJoin(xs: seq<string>, sep: char)
    requires |xs| >= 1
    requires forall i :: 0 <= i < |xs| ==> sep !in xs[i]
    ensures Split(Join(xs, sep), sep) == xs
  {
    if |xs| == 1 {
      SplitOfSeparatorFree(xs[0], sep);
    } else {
      SplitJoin(xs[1..], sep);
      SplitAtFirst(xs[0], Join(xs[1..], sep), sep);
      assert [xs[0]] + xs[1..] == xs;
    }
  }

  /** Join of at least two pieces always shows the separator. */
  lemma JoinShowsSeparator(xs: seq<string>, sep: char)
    requires |xs| >= 2
    ensures sep in Join(xs, sep)
  {
    assert Join(xs, sep)[|xs[0]|] == sep;
  }

  /** Joining after appending one piece adds one separator and the piece. */
  lemma {:induction false} JoinAppend(xs: seq<string>, x: string, sep: char)
    requires |xs| >= 1
    ensures Join(xs + [x], sep) == Join(xs, sep) + [sep] + x
  {
    if |xs| == 1 {
      assert xs + [x] == [xs[0], x];
    } else {
      JoinAppend(xs[1..], x, sep);
      assert (xs + [x])[1..] == xs[1..] + [x];
    }
  }

  /** `trim` only removes characters, so it cannot introduce one. */
  lemma TrimKeepsAbsent(s: string, c: char)
    requires c !in s
    ensures c !in Trim(s)
  {
    var r := Trim(s);
    forall p | 0 <= p < |r| ensures r[p] != c {
      assert s[TrimOffset(s) + p] in s;
    }
  }

  /** The participants list a meeting card derives from the stored field:
      `participants ? participants.split(',').map(e => e.trim()) : []`. */
  function ParseParticipants(s: string): (r: seq<string>)
    ensures s == "" <==> r == []
    ensures s != "" ==> |r| == |Split(s, ',')|
    ensures forall i :: 0 <= i < |r| ==> Trimmed(r[i]) && ',' !in r[i]
  {
    if s == "" then []
    else
      var pieces := Split(s, ',');
      assert forall i :: 0 <= i < |pieces| ==> ',' !in Trim(pieces[i]) by {
        forall i | 0 <= i < |pieces| ensures ',' !in Trim(pieces[i]) {
          TrimKeepsAbsent(pieces[i], ',');
        }
      }
      seq(|pieces|, i requires 0 <= i < |pieces| => Trim(pieces[i]))
  }

  /** The participants string is `join(',')` of the list it came from,
      provided its entries are trimmed and comma-free and the list is not
      the single empty entry (which joins to "" and parses back to []). */
  lemma ParseJoinRoundTrip(xs: seq<string>)
    requires forall i :: 0 <= i < |xs| ==> Trimmed(xs[i]) && ',' !in xs[i]
    requires xs != [""]
    ensures ParseParticipants(Join(xs, ',')) == xs
  {
    if xs != [] {
      var s := Join(xs, ',');
      assert s != "" by {
        if |xs| >= 2 {
          JoinShowsSeparator(xs, ',');
        }
      }
      SplitJoin(xs, ',');
      assert Split(s, ',') == xs;
      var r := ParseParticipants(s);
      forall i | 0 <= i < |xs| ensures r[i] == xs[i] {
        EntryIsTrimmedPiece(s, i);
        TrimmedIsFixed(xs[i]);
      }
    }
  }

  /** Each parsed entry is the trimmed piece at the same position. */
  lemma EntryIsTrimmedPiece(s: string, i: int)
    requires s != "" && 0 <= i < |Split(s, ',')|
    ensures ParseParticipants(s)[i] == Trim(Split(s, ',')[i])
  {
  }

  /** Parsing an already parsed list again changes nothing, except for a
      field of white space only, whose single empty entry joins to "". */
  lemma ParseIsStable(s: string)
    requires ParseParticipants(s) != [""]
    ensures ParseParticipants(Join(ParseParticipants(s), ',')) == ParseParticipants(s)
  {
    ParseJoinRoundTrip(ParseParticipants(s));
  }

  /** A field with one comma parses into its two trimmed halves. */
  lemma ParseTwoPieces(field: string, a: string, b: string)
    requires field != "" && Split(field, ',') == [a, b]
    ensures ParseParticipants(field) == [Trim(a), Trim(b)]
  {
    EntryIsTrimmedPiece(field, 0);
    EntryIsTrimmedPiece(field, 1);
  }

  /** A field written with a space after the comma, such as
      "a@b.com, c@d.com", parses into the two addresses without the space,
      and joining them back gives the field without it ("a@b.com,c@d.com"). */
  lemma ParseCommaSpace(a: string, c: string)
    requires NoSpace(a) && NoSpace(c) && ',' !in a && ',' !in c
    ensures ParseParticipants(a + ", " + c) == [a, c]
    ensures Join(ParseParticipants(a + ", " + c), ',') == a + "," + c
  {
    var b: string := [' '] + c;
    assert a + [','] + b == a + ", " + c;
    assert ',' !in b by {
      assert forall k :: 1 <= k < |b| ==> b[k] == c[k - 1];
    }
    SplitAtFirst(a, b, ',');
    SplitOfSeparatorFree(b, ',');
    ParseTwoPieces(a + ", " + c, a, b);
    NoSpaceIsTrimmed(a);
    if c == [] {
      assert AllSpace(b);
    } else {
      assert b == " " + c + "";
      TrimOfPadded(" ", c, "");
    }
  }
}
