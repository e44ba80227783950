/**
 * String helpers the extractor relies on: Python's str.strip, ASCII
 * lower-casing, substring search, removal of a character, the first run of
 * ASCII decimal digits (what `re.search(r'(\d+)', t)` finds when the text's
 * digits are ASCII; Python's `\d` also accepts other Unicode decimal digits)
 * and decimal printing.
 */
module Text {
  import opened Common

  /** The characters Python's str.isspace accepts (and str.strip removes). */
  predicate IsSpace(c: char) {
    || c == ' ' || c == '\t' || c == '\n' || c == '\r' || c == '\U{000B}' || c == '\U{000C}'
    || ('\U{001C}' <= c <= '\U{001F}') || c == '\U{0085}' || c == '\U{00A0}' || c == '\U{1680}'
    || ('\U{2000}' <= c <= '\U{200A}') || c == '\U{2028}' || c == '\U{2029}' || c == '\U{202F}'
    || c == '\U{205F}' || c == '\U{3000}'
  }

  predicate IsDigit(c: char) {
    '0' <= c <= '9'
  }

  function DigitValue(c: char): (d: nat)
    requires IsDigit(c)
    ensures d < 10
  {
    (c as int) - ('0' as int)
  }

  predicate AllDigits(s: string) {
    forall k :: 0 <= k < |s| ==> IsDigit(s[k])
  }

  /** The number a string of decimal digits denotes, as Python's int() reads it. */
  function DigitsValue(s: string): nat
    requires AllDigits(s)
  {
    if s == [] then 0 else 10 * DigitsValue(s[..|s| - 1]) + DigitValue(s[|s| - 1])
  }

  function StripLeft(s: string): (r: string)
    ensures |r| <= |s|
  {
    if s != [] && IsSpace(s[0]) then StripLeft(s[1..]) else s
  }

  function StripRight(s: string): (r: string)
    ensures |r| <= |s|
  {
    if s != [] && IsSpace(s[|s| - 1]) then StripRight(s[..|s| - 1]) else s
  }

  /** str.strip(): drop leading and trailing whitespace, keep the middle. */
  function Strip(s: string): string {
    StripRight(StripLeft(s))
  }

  /** StripLeft keeps a suffix that does not start with whitespace and drops only whitespace. */
  lemma {:induction false} StripLeftShape(s: string)
    ensures var r := StripLeft(s);
      && r == s[|s| - |r|..]
      && (r != [] ==> !IsSpace(r[0]))
      && (forall k :: 0 <= k < |s| - |r| ==> IsSpace(s[k]))
  {
    if s != [] && IsSpace(s[0]) {
      StripLeftShape(s[1..]);
      assert forall k :: 1 <= k < |s| ==> s[k] == s[1..][k - 1];
    }
  }

  /** StripRight keeps a prefix that does not end with whitespace and drops only whitespace. */
  lemma {:induction false} StripRightShape(s: string)
    ensures var r := StripRight(s);
      && r == s[..|r|]
      && (r != [] ==> !IsSpace(r[|r| - 1]))
      && (forall k :: |r| <= k < |s| ==> IsSpace(s[k]))
  {
    if s != [] && IsSpace(s[|s| - 1]) {
      StripRightShape(s[..|s| - 1]);
    }
  }

  /** s.replace(c, ""): every occurrence of the one-character string c removed. */
  function Remove(s: string, c: char): (r: string)
    ensures forall k :: 0 <= k < |r| ==> r[k] != c
    ensures c !in s ==> r == s
  {
    if s == [] then []
    else if s[0] == c then Remove(s[1..], c)
    else [s[0]] + Remove(s[1..], c)
  }

  /** Removing c keeps every other character as often as it occurred. */
  lemma {:induction false} RemoveKeepsOthers(s: string, c: char)
    ensures forall x :: x != c ==> multiset(Remove(s, c))[x] == multiset(s)[x]
  {
    if s != [] {
      assert s == [s[0]] + s[1..];
      RemoveKeepsOthers(s[1..], c);
    }
  }

  /** The leading digits of s. */
  function LeadingDigits(s: string): (d: string)
    ensures |d| <= |s| && AllDigits(d) && d == s[..|d|]
    ensures |d| == |s| || !IsDigit(s[|d|])
  {
    if s != [] && IsDigit(s[0]) then
      var rest := LeadingDigits(s[1..]);
      assert [s[0]] + rest == s[..|rest| + 1];
      [s[0]] + rest
    else []
  }

  /** `re.search(r'(\d+)', s)` followed by int(): the value of the first digit run. */
  function FirstNumber(s: string): (r: Option<nat>)
    ensures r.None? <==> forall k :: 0 <= k < |s| ==> !IsDigit(s[k])
  {
    if s == [] then None
    else if IsDigit(s[0]) then Some(DigitsValue(LeadingDigits(s)))
    else FirstNumber(s[1..])
  }

  /** s[i..j] is the first maximal run of digits in s. */
  ghost predicate IsFirstRun(s: string, i: nat, j: nat) {
    && i < j <= |s|
    && (forall k :: 0 <= k < i ==> !IsDigit(s[k]))
    && AllDigits(s[i..j])
    && (j == |s| || !IsDigit(s[j]))
  }

  /** FirstNumber reads exactly the first maximal digit run. */
  lemma {:induction false} FirstNumberIsFirstRun(s: string) returns (i: nat, j: nat)
    requires FirstNumber(s).Some?
    ensures IsFirstRun(s, i, j)
    ensures FirstNumber(s).value == DigitsValue(s[i..j])
  {
    if IsDigit(s[0]) {
      var d := LeadingDigits(s);
      i, j := 0, |d|;
      assert s[..j] == d;
      assert s[i..j] == s[..j];
    } else {
      var i', j' := FirstNumberIsFirstRun(s[1..]);
      i, j := i' + 1, j' + 1;
      TailSlice(s, i', j');
      forall k | 0 <= k < i ensures !IsDigit(s[k]) {
        if k > 0 { assert s[k] == s[1..][k - 1]; }
      }
    }
  }

  lemma TailSlice(s: string, i: nat, j: nat)
    requires 1 <= |s| && i <= j <= |s| - 1
    ensures s[i + 1..j + 1] == s[1..][i..j]
  {
  }

  /** The first maximal digit run is unique. */
  lemma FirstRunUnique(s: string, i: nat, j: nat, i': nat, j': nat)
    requires IsFirstRun(s, i, j) && IsFirstRun(s, i', j')
    ensures i == i' && j == j'
  {
    assert IsDigit(s[i..j][0]) && IsDigit(s[i'..j'][0]);
    assert i == i';
    if j < j' { assert false; }
    if j' < j { assert false; }
  }

  function AsciiLower(c: char): char {
    if 'A' <= c <= 'Z' then ((c as int) + 32) as char else c
  }

  /** str.lower(), restricted to ASCII letters. */
  function Lower(s: string): (r: string)
    ensures |r| == |s| && forall k :: 0 <= k < |s| ==> r[k] == AsciiLower(s[k])
  {
    seq(|s|, k requires 0 <= k < |s| => AsciiLower(s[k]))
  }

  /** Python's `needle in hay` for strings. */
  function Contains(hay: string, needle: string): bool
    decreases |hay|
  {
    if |needle| <= |hay| && hay[..|needle|] == needle then true
    else if |needle| < |hay| then Contains(hay[1..], needle)
    else false
  }

  ghost predicate OccursAt(hay: string, needle: string, i: nat) {
    i + |needle| <= |hay| && hay[i..i + |needle|] == needle
  }

  /** Every occurrence is found by the scanning search. */
  lemma {:induction false} ContainsComplete(hay: string, needle: string, i: nat)
    requires OccursAt(hay, needle, i)
    ensures Contains(hay, needle)
    decreases i
  {
    if !(|needle| <= |hay| && hay[..|needle|] == needle) {
      assert i > 0;
      assert hay[1..][i - 1..i - 1 + |needle|] == hay[i..i + |needle|];
      ContainsComplete(hay[1..], needle, i - 1);
    }
  }

  /** What the scanning search finds is an occurrence. */
  lemma {:induction false} ContainsSound(hay: string, needle: string) returns (i: nat)
    requires Contains(hay, needle)
    ensures OccursAt(hay, needle, i)
    decreases |hay|
  {
    if |needle| <= |hay| && hay[..|needle|] == needle {
      i := 0;
    } else {
      var i' := ContainsSound(hay[1..], needle);
      i := i' + 1;
      assert hay[i..i + |needle|] == hay[1..][i'..i' + |needle|];
    }
  }

  /** Python's str() of a natural number. */
  function NatToString(n: nat): (s: string)
    ensures s != [] && AllDigits(s)
  {
    if n < 10 then [('0' as int + n) as char]
    else NatToString(n / 10) + [('0' as int + n % 10) as char]
  }

  /** Python's str() of an integer. */
  function IntToString(n: int): string {
    if n < 0 then "-" + NatToString(-n) else NatToString(n)
  }

  /** int(str(n)) == n: printing and the price parser's digit reading are inverse. */
  lemma {:induction false} NatToStringValue(n: nat)
    ensures DigitsValue(NatToString(n)) == n
  {
    if n >= 10 {
      NatToStringValue(n / 10);
      var s := NatToString(n);
      assert s[..|s| - 1] == NatToString(n / 10);
    }
  }

  /** Characters kept by the blocked-page file-name sanitiser: [a-zA-Z0-9_-]. */
  predicate SafeChar(c: char) {
    ('a' <= c <= 'z') || ('A' <= c <= 'Z') || IsDigit(c) || c == '_' || c == '-'
  }

  /** `re.sub(r'[^a-zA-Z0-9_-]', '_', url)[:50]`. */
  function SanitizeForFileName(url: string): (r: string)
    ensures |r| == if |url| < 50 then |url| else 50
    ensures forall k :: 0 <= k < |r| ==> r[k] == (if SafeChar(url[k]) then url[k] else '_')
  {
    var replaced := seq(|url|, k requires 0 <= k < |url| => if SafeChar(url[k]) then url[k] else '_');
    if |replaced| <= 50 then replaced else replaced[..50]
  }

  /** The sanitised name uses only safe characters, and sanitising twice changes nothing. */
  lemma SanitizeIdempotent(url: string)
    ensures forall k :: 0 <= k < |SanitizeForFileName(url)| ==> SafeChar(SanitizeForFileName(url)[k])
    ensures SanitizeForFileName(SanitizeForFileName(url)) == SanitizeForFileName(url)
  {
  }
}
