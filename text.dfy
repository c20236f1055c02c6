/**
  * The handful of Python `str` operations that the rest of the model relies on:
  * `strip`, `lower`, `split()`, `in` (substring), `startswith`/`endswith`,
  * `find` and the decimal rendering of `str(int)` / parsing of `int(str)`.
  */
module Text {

  /** The characters for which Python's `str.isspace` holds (and which `strip()` and `split()` remove). */
  predicate IsSpace(c: char) {
    || c == ' ' || c == '\t' || c == '\n' || c == '\r'
    || c == '\U{000B}' || c == '\U{000C}'
    || ('\U{001C}' <= c <= '\U{001F}')
    || c == '\U{0085}' || c == '\U{00A0}' || c == '\U{1680}'
    || ('\U{2000}' <= c <= '\U{200A}')
    || c == '\U{2028}' || c == '\U{2029}' || c == '\U{202F}' || c == '\U{205F}' || c == '\U{3000}'
  }

  predicate AllSpace(s: string) {
    forall k :: 0 <= k < |s| ==> IsSpace(s[k])
  }

  predicate NoSpace(s: string) {
    forall k :: 0 <= k < |s| ==> !IsSpace(s[k])
  }

  /** Number of whitespace characters at the start of `s`. */
  function LeadingSpace(s: string): (n: nat)
    ensures n <= |s|
    ensures AllSpace(s[..n])
    ensures n < |s| ==> !IsSpace(s[n])
  {
    if s == [] || !IsSpace(s[0]) then 0
    else
      var m := LeadingSpace(s[1..]);
      assert s[..m + 1] == [s[0]] + s[1..][..m];
      m + 1
  }

  /** Number of whitespace characters at the end of `s`. */
  function TrailingSpace(s: string): (n: nat)
    ensures n <= |s|
    ensures forall k :: |s| - n <= k < |s| ==> IsSpace(s[k])
    ensures n < |s| ==> !IsSpace(s[|s| - n - 1])
  {
    if s == [] || !IsSpace(s[|s| - 1]) then 0
    else TrailingSpace(s[..|s| - 1]) + 1
  }

  /** Python `s.strip()`: `s` without its leading and trailing whitespace. */
  function Strip(s: string): (r: string)
    ensures |r| <= |s|
    ensures r == [] || (!IsSpace(r[0]) && !IsSpace(r[|r| - 1]))
  {
    var rest := s[LeadingSpace(s)..];
    rest[..|rest| - TrailingSpace(rest)]
  }

  /** Stripping removes only whitespace: `s` is `r` with whitespace around it. */
  lemma StripRemovesSpace(s: string)
    ensures exists i :: 0 <= i <= |s| - |Strip(s)| && s[i..i + |Strip(s)|] == Strip(s)
                        && AllSpace(s[..i]) && AllSpace(s[i + |Strip(s)|..])
  {
    var a := LeadingSpace(s);
    var rest := s[a..];
    var b := TrailingSpace(rest);
    var r := rest[..|rest| - b];
    assert r == Strip(s);
    if r == [] {
      assert s[a..a] == r;
      assert AllSpace(s[a..]) by { assert rest[|rest| - b..] == rest; }
    } else {
      assert s[a..a + |r|] == r;
      assert s[a + |r|..] == rest[|rest| - b..];
    }
  }

  /** A string without whitespace at either end is its own strip. */
  lemma StripUnchanged(s: string)
    requires s == [] || (!IsSpace(s[0]) && !IsSpace(s[|s| - 1]))
    ensures Strip(s) == s
  {
    assert s[0..] == s;
  }

  /** Every character of the stripped string occurs in the original. */
  lemma StripSubset(s: string)
    ensures forall c :: c in Strip(s) ==> c in s
  {
    var rest := s[LeadingSpace(s)..];
    assert forall c :: c in rest ==> c in s;
  }

  /** Python `lower()` on one character (only the ASCII letters are folded). */
  function LowerChar(c: char): char {
    if 'A' <= c <= 'Z' then (c as int + 32) as char else c
  }

  /** Python `s.lower()` (ASCII letters only). */
  function Lower(s: string): (r: string)
    ensures |r| == |s|
    ensures forall k :: 0 <= k < |s| ==> r[k] == LowerChar(s[k])
  {
    if s == [] then [] else [LowerChar(s[0])] + Lower(s[1..])
  }

  lemma LowerIdempotent(s: string)
    ensures Lower(Lower(s)) == Lower(s)
  {
  }

  /** A string whose characters `lower()` leaves alone is its own `lower()`. */
  lemma LowerFixed(s: string)
    requires forall c :: c in s ==> LowerChar(c) == c
    ensures Lower(s) == s
  {
    assert forall k :: 0 <= k < |s| ==> s[k] in s;
  }

  predicate StartsWith(s: string, p: string) {
    |p| <= |s| && s[..|p|] == p
  }

  predicate EndsWith(s: string, p: string) {
    |p| <= |s| && s[|s| - |p|..] == p
  }

  /** Python `sub in s`. */
  predicate Contains(s: string, sub: string)
    decreases |s|
  {
    StartsWith(s, sub) || (s != [] && Contains(s[1..], sub))
  }

  /** `sub` occurs in `s` starting at index `i`. */
  predicate OccursAt(s: string, sub: string, i: int) {
    0 <= i <= |s| - |sub| && s[i..i + |sub|] == sub
  }

  /** `Contains` holds exactly when `sub` occurs at some position of `s`. */
  lemma {:induction false} ContainsAt(s: string, sub: string)
    ensures Contains(s, sub) <==> exists i :: OccursAt(s, sub, i)
    decreases |s|
  {
    if StartsWith(s, sub) {
      assert OccursAt(s, sub, 0);
    } else if s == [] {
    } else {
      ContainsAt(s[1..], sub);
      if Contains(s[1..], sub) {
        var i :| OccursAt(s[1..], sub, i);
        assert s[i + 1..i + 1 + |sub|] == s[1..][i..i + |sub|];
        assert OccursAt(s, sub, i + 1);
      }
      if exists i :: OccursAt(s, sub, i) {
        var i :| OccursAt(s, sub, i);
        assert i != 0;
        assert s[1..][i - 1..i - 1 + |sub|] == s[i..i + |sub|];
        assert OccursAt(s[1..], sub, i - 1);
      }
    }
  }

  lemma ContainsEmpty(s: string)
    ensures Contains(s, "")
  {
    assert StartsWith(s, "");
  }

  /** Python `s.find(c)` for a single character: the first index of `c`, or -1. */
  function Find(s: string, c: char): (i: int)
    ensures -1 <= i < |s|
    ensures i == -1 <==> c !in s
    ensures 0 <= i ==> s[i] == c && c !in s[..i]
  {
    if s == [] then -1
    else if s[0] == c then 0
    else
      var j := Find(s[1..], c);
      assert s[1..] == s[1..];
      if j == -1 then -1
      else
        assert s[..j + 1] == [s[0]] + s[1..][..j];
        j + 1
  }

  /** The first whitespace-free run at the start of `s`. */
  function Word(s: string): (w: string)
    ensures |w| <= |s| && w == s[..|w|]
    ensures NoSpace(w)
    ensures |w| < |s| ==> IsSpace(s[|w|])
  {
    if s == [] || IsSpace(s[0]) then []
    else
      var w := Word(s[1..]);
      assert [s[0]] + w == s[..|w| + 1];
      [s[0]] + w
  }

  /** Python `s.split()` with no separator: the maximal runs of non-whitespace characters. */
  function Split(s: string): (tokens: seq<string>)
    ensures forall t :: t in tokens ==> t != [] && NoSpace(t)
    ensures AllSpace(s) <==> tokens == []
    decreases |s|
  {
    if s == [] then []
    else if IsSpace(s[0]) then
      var t := Split(s[1..]);
      assert AllSpace(s) <==> AllSpace(s[1..]) by {
        if AllSpace(s[1..]) { forall k | 0 <= k < |s| ensures IsSpace(s[k]) { if k > 0 { assert s[k] == s[1..][k - 1]; } } }
      }
      t
    else
      var w := Word(s);
      [w] + Split(s[|w|..])
  }

  /** A string with no whitespace splits into itself alone (or nothing, when empty). */
  lemma {:induction false} SplitNoSpace(s: string)
    requires NoSpace(s)
    ensures Split(s) == if s == [] then [] else [s]
  {
    if s != [] {
      WordNoSpace(s);
      assert s[|s|..] == [];
    }
  }

  /** Whitespace in front of the text adds no token. */
  lemma SplitSkipsSpace(c: char, r: string)
    requires IsSpace(c)
    ensures Split([c] + r) == Split(r)
  {
    assert ([c] + r)[1..] == r;
  }

  /** A whitespace-free run ended by whitespace is the first token, and the split goes on after it. */
  lemma SplitWord(w: string, c: char, r: string)
    requires w != [] && NoSpace(w) && IsSpace(c)
    ensures Split(w + [c] + r) == [w] + Split(r)
  {
    var s := w + [c] + r;
    WordBefore(w, [c] + r);
    assert s == w + ([c] + r);
    assert s[|w|..] == [c] + r;
    SplitSkipsSpace(c, r);
  }

  /** The first word of a text that starts with a whitespace-free run ended by whitespace or by the end is that run. */
  lemma WordBefore(w: string, rest: string)
    requires NoSpace(w) && (rest == [] || IsSpace(rest[0]))
    ensures Word(w + rest) == w
  {
    var s := w + rest;
    var v := Word(s);
    assert v == s[..|w|] == w;
  }

  lemma {:induction false} WordNoSpace(s: string)
    requires NoSpace(s)
    ensures Word(s) == s
  {
    if s != [] {
      WordNoSpace(s[1..]);
    }
  }

  // ---- decimal numerals -------------------------------------------------

  predicate IsDigit(c: char) {
    '0' <= c <= '9'
  }

  predicate AllDigits(s: string) {
    forall k :: 0 <= k < |s| ==> IsDigit(s[k])
  }

  function DigitChar(d: nat): (c: char)
    requires d < 10
    ensures IsDigit(c)
  {
    ('0' as int + d) as char
  }

  /** Python `str(n)` for a non-negative integer. */
  function Decimal(n: nat): (s: string)
    ensures s != [] && AllDigits(s)
    decreases n
  {
    if n < 10 then [DigitChar(n)] else Decimal(n / 10) + [DigitChar(n % 10)]
  }

  /** Python `str(n)` for any integer: a minus sign for a negative one, then its digits. */
  function IntString(n: int): (s: string)
    ensures s != [] && forall k :: 0 <= k < |s| ==> IsDigit(s[k]) || (k == 0 && s[k] == '-' && n < 0)
  {
    if n < 0 then "-" + Decimal(-n) else Decimal(n)
  }

  /** Python `int(s)` for a string of ASCII digits. */
  function DecimalValue(s: string): (n: nat)
    requires AllDigits(s)
  {
    if s == [] then 0
    else DecimalValue(s[..|s| - 1]) * 10 + (s[|s| - 1] as int - '0' as int)
  }

  /** Reading back what `str(n)` wrote gives `n`. */
  lemma {:induction false} DecimalRoundTrip(n: nat)
    ensures DecimalValue(Decimal(n)) == n
    decreases n
  {
    if n >= 10 {
      DecimalRoundTrip(n / 10);
      var s := Decimal(n);
      assert s[..|s| - 1] == Decimal(n / 10);
    }
  }
}
