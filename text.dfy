/** The few Ruby string operations the assembler relies on: `strip`, `split`
    with no argument, `each_line`, `gsub(',', '')`, `to_i` and the `\d+`
    test, each over `seq<char>`. */
module Text {

  /** The ASCII whitespace that `String#split` separates words on. */
  predicate IsSpace(c: char) {
    c == ' ' || c == '\t' || c == '\n' || c == '\r' || c as int == 11 || c as int == 12
  }

  /** What `String#strip` removes from either end: whitespace and NUL. */
  predicate IsStripChar(c: char) {
    IsSpace(c) || c == '\0'
  }

  predicate IsDigit(c: char) {
    '0' <= c <= '9'
  }

  predicate NoSpace(s: string) {
    forall i :: 0 <= i < |s| ==> !IsSpace(s[i])
  }

  /** Drops strip characters from the front. */
  function TrimLeft(s: string): (r: string)
    ensures |r| <= |s| && r == s[|s| - |r|..]
    ensures forall i :: 0 <= i < |s| - |r| ==> IsStripChar(s[i])
    ensures r == [] || !IsStripChar(r[0])
  {
    if |s| > 0 && IsStripChar(s[0]) then TrimLeft(s[1..]) else s
  }

  /** Drops strip characters from the back. */
  function TrimRight(s: string): (r: string)
    ensures |r| <= |s| && r == s[..|r|]
    ensures forall i :: |r| <= i < |s| ==> IsStripChar(s[i])
    ensures r == [] || !IsStripChar(r[|r| - 1])
  {
    if |s| > 0 && IsStripChar(s[|s| - 1]) then TrimRight(s[..|s| - 1]) else s
  }

  /** `s.strip`: the middle of s, with neither end a strip character. */
  function Strip(s: string): (r: string)
    ensures |r| <= |s|
    ensures r == [] || (!IsStripChar(r[0]) && !IsStripChar(r[|r| - 1]))
  {
    TrimLeft(TrimRight(s))
  }

  /** A trailing line feed, as `each_line` leaves on every line but the last,
      makes no difference once the line is stripped. */
  lemma {:induction false} StripNewline(s: string)
    ensures Strip(s + "\n") == Strip(s)
  {
    assert (s + "\n")[..|s|] == s;
    assert TrimRight(s + "\n") == TrimRight(s);
  }

  /** A string whose ends are not strip characters is its own strip. */
  lemma {:induction false} StripUnchanged(s: string)
    requires s == [] || (!IsStripChar(s[0]) && !IsStripChar(s[|s| - 1]))
    ensures Strip(s) == s
  {
  }

  /** The characters of Ruby's `\w`: ASCII letters, digits and underscore. */
  predicate IsWordChar(c: char) {
    'a' <= c <= 'z' || 'A' <= c <= 'Z' || IsDigit(c) || c == '_'
  }

  /** The longest prefix of s made of word characters. */
  function WordCharPrefix(s: string): (w: string)
    ensures |w| <= |s| && w == s[..|w|]
    ensures forall i :: 0 <= i < |w| ==> IsWordChar(w[i])
    ensures |w| == |s| || !IsWordChar(s[|w|])
  {
    if |s| == 0 || !IsWordChar(s[0]) then [] else [s[0]] + WordCharPrefix(s[1..])
  }

  /** Pass one's label test, for a string without line breaks: one or more word
      characters and then a colon. Since a colon is not a word character, only
      the longest run of word characters can be followed by it. */
  predicate StartsWithLabel(s: string) {
    var w := WordCharPrefix(s);
    |w| > 0 && |w| < |s| && s[|w|] == ':'
  }

  /** A run of word characters followed by a colon starts a label, whatever
      comes after it. */
  lemma {:induction false} StartsWithLabelOf(w: string, rest: string)
    requires w != [] && forall i :: 0 <= i < |w| ==> IsWordChar(w[i])
    ensures WordCharPrefix(w + ":" + rest) == w
    ensures StartsWithLabel(w + ":" + rest)
    decreases |w|
  {
    var s := w + ":" + rest;
    if |w| > 1 {
      assert s[1..] == w[1..] + ":" + rest;
      StartsWithLabelOf(w[1..], rest);
    } else {
      assert s[1..] == ":" + rest;
    }
  }

  /** The longest prefix of s free of whitespace. */
  function WordPrefix(s: string): (w: string)
    ensures |w| <= |s| && w == s[..|w|] && NoSpace(w)
    ensures |w| == |s| || IsSpace(s[|w|])
    ensures |s| > 0 && !IsSpace(s[0]) ==> |w| > 0
  {
    if |s| == 0 || IsSpace(s[0]) then [] else [s[0]] + WordPrefix(s[1..])
  }

  /** `s.split`: the maximal runs of non-whitespace, in order. */
  function Words(s: string): (ws: seq<string>)
    ensures forall i :: 0 <= i < |ws| ==> ws[i] != [] && NoSpace(ws[i])
    decreases |s|
  {
    if s == [] then []
    else if IsSpace(s[0]) then Words(s[1..])
    else
      var w := WordPrefix(s);
      var rest := Words(s[|w|..]);
      [w] + rest
  }

  /** A string that does not start with whitespace has a first word, and
      that word starts with the string's first character. */
  lemma {:induction false} WordsHead(s: string)
    requires s != [] && !IsSpace(s[0])
    ensures Words(s) != [] && Words(s)[0][0] == s[0]
  {
  }

  /** Words joined by single spaces. */
  function JoinWords(ws: seq<string>): string {
    if |ws| == 0 then [] else if |ws| == 1 then ws[0] else ws[0] + (" " + JoinWords(ws[1..]))
  }

  lemma {:induction false} WordsAfterSpace(s: string)
    ensures Words(" " + s) == Words(s)
  {
    assert (" " + s)[1..] == s;
  }

  lemma {:induction false} WordPrefixOf(w: string, rest: string)
    requires NoSpace(w) && (rest == [] || IsSpace(rest[0]))
    ensures WordPrefix(w + rest) == w
    decreases |w|
  {
    if w != [] {
      assert (w + rest)[1..] == w[1..] + rest;
      WordPrefixOf(w[1..], rest);
    }
  }

  /** A word followed by nothing or by whitespace is split off whole. */
  lemma {:induction false} WordsOfWordThen(w: string, rest: string)
    requires w != [] && NoSpace(w) && (rest == [] || IsSpace(rest[0]))
    ensures Words(w + rest) == [w] + Words(rest)
  {
    var j := w + rest;
    assert j[0] == w[0];
    WordPrefixOf(w, rest);
    assert j[|w|..] == rest;
  }

  /** Splitting words joined by spaces gives the words back. */
  lemma {:induction false} WordsJoin(ws: seq<string>)
    requires forall i :: 0 <= i < |ws| ==> ws[i] != [] && NoSpace(ws[i])
    ensures Words(JoinWords(ws)) == ws
  {
    if |ws| == 1 {
      WordsOfWordThen(ws[0], []);
      assert ws[0] + [] == ws[0];
    } else if |ws| > 1 {
      var rest := " " + JoinWords(ws[1..]);
      assert JoinWords(ws) == ws[0] + rest;
      WordsOfWordThen(ws[0], rest);
      WordsAfterSpace(JoinWords(ws[1..]));
      WordsJoin(ws[1..]);
      assert ws == [ws[0]] + ws[1..];
    }
  }

  /** Index of the first line feed in s, or |s| when there is none. */
  function NewlineIndex(s: string): (k: nat)
    ensures k <= |s| && '\n' !in s[..k]
    ensures k < |s| ==> s[k] == '\n'
  {
    if |s| == 0 || s[0] == '\n' then 0 else 1 + NewlineIndex(s[1..])
  }

  /** The lines of s, split at each line feed (the feeds themselves dropped). */
  function Lines(s: string): (ls: seq<string>)
    ensures |ls| >= 1
    ensures forall i :: 0 <= i < |ls| ==> '\n' !in ls[i]
    decreases |s|
  {
    var k := NewlineIndex(s);
    if k == |s| then [s] else [s[..k]] + Lines(s[k + 1..])
  }

  /** Lines joined by line feeds. */
  function JoinLines(ls: seq<string>): string
    requires |ls| >= 1
  {
    if |ls| == 1 then ls[0] else ls[0] + ("\n" + JoinLines(ls[1..]))
  }

  /** Splitting into lines loses nothing: joining them restores the text. */
  lemma {:induction false} LinesJoin(s: string)
    ensures JoinLines(Lines(s)) == s
    decreases |s|
  {
    var k := NewlineIndex(s);
    if k < |s| {
      var l, rest := s[..k], s[k + 1..];
      var ls := Lines(s);
      assert ls == [l] + Lines(rest);
      assert ls[1..] == Lines(rest);
      LinesJoin(rest);
      SplitAtNewline(s, k);
    }
  }

  /** A text is the part before a line feed, the feed and the part after it. */
  lemma {:induction false} SplitAtNewline(s: string, k: nat)
    requires k < |s| && s[k] == '\n'
    ensures s == s[..k] + ("\n" + s[k + 1..])
  {
    assert s == s[..k] + [s[k]] + s[k + 1..];
  }

  lemma {:induction false} NewlineIndexOf(l: string, rest: string)
    requires '\n' !in l
    ensures NewlineIndex(l + "\n" + rest) == |l|
    decreases |l|
  {
    var s := l + "\n" + rest;
    if l != [] {
      assert s[1..] == l[1..] + "\n" + rest;
      NewlineIndexOf(l[1..], rest);
    }
  }

  /** A line without a line feed, followed by one, is split off first. */
  lemma {:induction false} LinesCons(l: string, rest: string)
    requires '\n' !in l
    ensures Lines(l + "\n" + rest) == [l] + Lines(rest)
  {
    var s := l + "\n" + rest;
    NewlineIndexOf(l, rest);
    assert s[..|l|] == l;
    assert s[|l| + 1..] == rest;
  }

  /** `s.gsub(',', '')`. */
  function RemoveCommas(s: string): (r: string)
    ensures ',' !in r
    ensures ',' !in s ==> r == s
    ensures forall c :: c in r <==> c in s && c != ','
  {
    if s == [] then []
    else (if s[0] == ',' then [] else [s[0]]) + RemoveCommas(s[1..])
  }

  /** A trailing comma is dropped like any other. */
  lemma {:induction false} RemoveCommasTrailing(s: string)
    ensures RemoveCommas(s + ",") == RemoveCommas(s)
  {
    if s == [] {
      assert [','][1..] == [];
    } else {
      assert (s + ",")[1..] == s[1..] + ",";
      RemoveCommasTrailing(s[1..]);
    }
  }

  /** The longest prefix of s made of decimal digits. */
  function LeadingDigits(s: string): (ds: string)
    ensures |ds| <= |s| && ds == s[..|ds|]
    ensures forall i :: 0 <= i < |ds| ==> IsDigit(ds[i])
    ensures |ds| == |s| || !IsDigit(s[|ds|])
  {
    if |s| == 0 || !IsDigit(s[0]) then [] else [s[0]] + LeadingDigits(s[1..])
  }

  /** The number a string of decimal digits denotes (0 for the empty string). */
  function DigitsValue(ds: string): nat
    requires forall i :: 0 <= i < |ds| ==> IsDigit(ds[i])
  {
    if ds == [] then 0
    else 10 * DigitsValue(ds[..|ds| - 1]) + DigitValue(ds[|ds| - 1])
  }

  function DigitValue(c: char): (d: nat)
    requires IsDigit(c)
    ensures d < 10
  {
    c as int - '0' as int
  }

  /** `s.to_i`: an optional sign followed by the leading decimal digits; 0
      when there are none. */
  function ToI(s: string): int {
    if |s| > 0 && s[0] == '-' then -(DigitsValue(LeadingDigits(s[1..])) as int)
    else if |s| > 0 && s[0] == '+' then DigitsValue(LeadingDigits(s[1..]))
    else DigitsValue(LeadingDigits(s))
  }

  /** The test for a decimal operand, for a string without line breaks: one
      or more decimal digits and nothing else. */
  predicate AllDigits(s: string) {
    |s| > 0 && forall i :: 0 <= i < |s| ==> IsDigit(s[i])
  }

  function DigitChar(d: nat): (c: char)
    requires d < 10
    ensures IsDigit(c) && DigitValue(c) == d
  {
    ('0' as int + d) as char
  }

  /** The decimal numeral of n, without leading zeros. */
  function DecimalString(n: nat): (s: string)
    ensures AllDigits(s)
  {
    if n < 10 then [DigitChar(n)] else DecimalString(n / 10) + [DigitChar(n % 10)]
  }

  /** A numeral followed by something that is not a digit ends where the
      digits end. */
  lemma {:induction false} LeadingDigitsOf(ds: string, rest: string)
    requires forall i :: 0 <= i < |ds| ==> IsDigit(ds[i])
    requires rest == [] || !IsDigit(rest[0])
    ensures LeadingDigits(ds + rest) == ds
    decreases |ds|
  {
    if ds != [] {
      assert (ds + rest)[1..] == ds[1..] + rest;
      LeadingDigitsOf(ds[1..], rest);
    }
  }

  /** Reading back a printed numeral gives the number. */
  lemma {:induction false} DecimalRoundTrip(n: nat)
    ensures DigitsValue(DecimalString(n)) == n
  {
    if n >= 10 {
      var s := DecimalString(n);
      assert s[..|s| - 1] == DecimalString(n / 10);
      DecimalRoundTrip(n / 10);
    }
  }

  /** `to_i` reads back a printed numeral, with or without a minus sign. */
  lemma {:induction false} ToIDecimal(n: nat)
    ensures ToI(DecimalString(n)) == n
    ensures ToI("-" + DecimalString(n)) == -(n as int)
  {
    var s := DecimalString(n);
    LeadingDigitsOf(s, []);
    assert s + [] == s;
    assert ("-" + s)[1..] == s;
    DecimalRoundTrip(n);
  }

  /** The decimal numeral of an integer, with a minus sign when negative. */
  function Numeral(n: int): (s: string)
    ensures |s| > 0 && s[0] != '#' && ',' !in s
    ensures NoSpace(s) && !IsStripChar(s[|s| - 1]) && !IsStripChar(s[0])
  {
    if n < 0 then "-" + DecimalString(-n) else DecimalString(n)
  }

  /** `to_i` inverts `to_s` on integers. */
  lemma {:induction false} NumeralToI(n: int)
    ensures ToI(Numeral(n)) == n
  {
    if n < 0 { ToIDecimal(-n); } else { ToIDecimal(n); }
  }
}
