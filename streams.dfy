// The two kinds of C++ stream the text parsers read from: a file read line by line with
// `std::getline`, and a `std::stringstream` over one line read with formatted extraction
// (`>>`) into a char, a whitespace-delimited word or an `int`, in the "C" locale.

module Streams {
  import opened Wrappers

  /** The range of a 32-bit `int`. */
  const INT_MIN: int := -0x8000_0000
  const INT_MAX: int := 0x7FFF_FFFF

  /** `isspace` in the "C" locale: space, tab, newline, vertical tab, form feed, carriage return. */
  predicate IsSpace(c: char)
  {
    c == ' ' || c == '\t' || c == '\n' || c == '\r' || c as int == 11 || c as int == 12
  }

  predicate IsDigit(c: char) { '0' <= c <= '9' }

  // ---------------------------------------------------------------------------------------
  // Files, line by line
  // ---------------------------------------------------------------------------------------

  /**
   * An open input file: its lines (without their line breaks) and the number already read.
   * Every method reading from it advances the one reading position, so parsers that share the
   * file continue where the previous one stopped.
   */
  class TextFile {
    const lines: seq<string>
    var pos: nat

    constructor (lines: seq<string>)
      ensures this.lines == lines && pos == 0
    {
      this.lines := lines;
      pos := 0;
    }

    predicate Valid()
      reads this
    {
      pos <= |lines|
    }

    /** `std::getline`: the next line, or failure once every line has been read. */
    method GetLine() returns (ok: bool, line: string)
      requires Valid()
      modifies this
      ensures Valid()
      ensures ok <==> old(pos) < |lines|
      ensures ok ==> line == lines[old(pos)] && pos == old(pos) + 1
      ensures !ok ==> pos == old(pos)
    {
      if pos == |lines| {
        return false, "";
      }
      line := lines[pos];
      pos := pos + 1;
      return true, line;
    }
  }

  // ---------------------------------------------------------------------------------------
  // Substring search
  // ---------------------------------------------------------------------------------------

  /** `p` occurs in `s` starting at position `i`. */
  predicate OccursAt(s: string, p: string, i: nat)
  {
    i + |p| <= |s| && s[i..i + |p|] == p
  }

  /** `s.find(p) != npos`: `p` occurs somewhere in `s`. */
  function Contains(s: string, p: string): bool
    decreases |s|
  {
    if |s| < |p| then false else s[..|p|] == p || Contains(s[1..], p)
  }

  /** `Contains` holds exactly when the pattern occurs at some position. */
  lemma {:induction false} ContainsOccurs(s: string, p: string)
    ensures Contains(s, p) <==> exists i :: OccursAt(s, p, i)
    decreases |s|
  {
    if |s| >= |p| {
      if s[..|p|] == p {
        assert OccursAt(s, p, 0);
      } else {
        ContainsOccurs(s[1..], p);
        ShiftOccurrence(s, p);
      }
    }
  }

  lemma ShiftOccurrence(s: string, p: string)
    requires |s| >= |p| && s[..|p|] != p
    ensures (exists i :: OccursAt(s[1..], p, i)) <==> (exists i :: OccursAt(s, p, i))
  {
    forall i: nat | OccursAt(s[1..], p, i) ensures OccursAt(s, p, i + 1) {
      assert s[1..][i..i + |p|] == s[i + 1..i + 1 + |p|];
    }
    forall i: nat | OccursAt(s, p, i) ensures i > 0 && OccursAt(s[1..], p, i - 1) {
      if i != 0 {
        assert s[1..][i - 1..i - 1 + |p|] == s[i..i + |p|];
      }
    }
  }

  // ---------------------------------------------------------------------------------------
  // Formatted extraction from one line
  // ---------------------------------------------------------------------------------------

  /** A string stream over `text`: the read position and the `eofbit` and `failbit` flags. */
  datatype Stream = Stream(text: string, pos: nat, eof: bool, fail: bool)
  {
    predicate Valid() { pos <= |text| }

    predicate Good() { !eof && !fail }
  }

  /** `std::stringstream ss(line)`. */
  function OfLine(line: string): (s: Stream)
    ensures s.Valid() && s.Good() && s.text == line && s.pos == 0
  {
    Stream(line, 0, false, false)
  }

  /** The first position at or after `i` that does not hold whitespace, or the end. */
  function SkipSpaces(t: string, i: nat): (j: nat)
    requires i <= |t|
    ensures i <= j <= |t| && (j < |t| ==> !IsSpace(t[j]))
    decreases |t| - i
  {
    if i == |t| || !IsSpace(t[i]) then i else SkipSpaces(t, i + 1)
  }

  /** Everything `SkipSpaces` passes over is whitespace. */
  lemma {:induction false} SkipSpacesSkips(t: string, i: nat)
    requires i <= |t|
    ensures forall k :: i <= k < SkipSpaces(t, i) ==> IsSpace(t[k])
    decreases |t| - i
  {
    if i < |t| && IsSpace(t[i]) {
      SkipSpacesSkips(t, i + 1);
    }
  }

  /** The end of the run of digits starting at `i`. */
  function DigitsEnd(t: string, i: nat): (j: nat)
    requires i <= |t|
    ensures i <= j <= |t| && (j < |t| ==> !IsDigit(t[j]))
    decreases |t| - i
  {
    if i == |t| || !IsDigit(t[i]) then i else DigitsEnd(t, i + 1)
  }

  /** The end of the run of non-whitespace characters starting at `i`. */
  function WordEnd(t: string, i: nat): (j: nat)
    requires i <= |t|
    ensures i <= j <= |t| && (j < |t| ==> IsSpace(t[j]))
    ensures i < |t| && !IsSpace(t[i]) ==> j > i
    decreases |t| - i
  {
    if i == |t| || IsSpace(t[i]) then i else WordEnd(t, i + 1)
  }

  /**
   * The `sentry` every extraction starts with: a stream that is not good fails at once;
   * otherwise whitespace is skipped, and running out of text sets both `eofbit` and `failbit`.
   */
  function Sentry(s: Stream): (r: Stream)
    requires s.Valid()
    ensures r.Valid() && r.text == s.text && s.pos <= r.pos
    ensures !s.Good() ==> r == s.(fail := true)
    ensures !r.fail ==> r.Good() && r.pos < |r.text| && !IsSpace(r.text[r.pos])
  {
    if !s.Good() then s.(fail := true)
    else
      var j := SkipSpaces(s.text, s.pos);
      if j == |s.text| then Stream(s.text, j, true, true) else s.(pos := j)
  }

  /** `ss >> c` for a `char`: the next non-whitespace character; on failure `c` keeps its value. */
  function ReadChar(s: Stream, target: char): (r: (Stream, char))
    requires s.Valid()
    ensures r.0.Valid() && r.0.text == s.text
    ensures r.0.fail ==> r.1 == target
  {
    var t := Sentry(s);
    if t.fail then (t, target) else (t.(pos := t.pos + 1), t.text[t.pos])
  }

  /**
   * `ss >> w` for a `std::string`: the next maximal run of non-whitespace characters; reaching
   * the end of the text while reading it sets `eofbit`. On failure `w` keeps its value.
   */
  function ReadWord(s: Stream, target: string): (r: (Stream, string))
    requires s.Valid()
    ensures r.0.Valid() && r.0.text == s.text
    ensures r.0.fail ==> r.1 == target
    ensures !r.0.fail ==> r.1 != []
  {
    var t := Sentry(s);
    if t.fail then (t, target)
    else
      var j := WordEnd(t.text, t.pos);
      (t.(pos := j, eof := j == |t.text|), t.text[t.pos..j])
  }

  /** The value of a string of decimal digits. */
  function DigitsValue(d: string): int
    decreases |d|
  {
    if d == [] then 0 else 10 * DigitsValue(d[..|d| - 1]) + (d[|d| - 1] as int - '0' as int)
  }

  /**
   * `ss >> n` for an `int`: an optional sign and a run of decimal digits. Without digits the
   * extraction fails and stores 0; a value outside the `int` range fails and stores the
   * nearest bound; a sentry failure leaves `n` unchanged.
   */
  function ReadInt(s: Stream, target: int): (r: (Stream, int))
    requires s.Valid()
    ensures r.0.Valid() && r.0.text == s.text
    ensures INT_MIN <= target <= INT_MAX ==> INT_MIN <= r.1 <= INT_MAX
    ensures !r.0.fail ==> INT_MIN <= r.1 <= INT_MAX
  {
    var t := Sentry(s);
    if t.fail then (t, target)
    else
      var negative := t.text[t.pos] == '-';
      var i := if negative || t.text[t.pos] == '+' then t.pos + 1 else t.pos;
      var j := DigitsEnd(t.text, i);
      var after := t.(pos := j, eof := j == |t.text|);
      if j == i then (after.(fail := true), 0)
      else
        var v := if negative then -DigitsValue(t.text[i..j]) else DigitsValue(t.text[i..j]);
        if v < INT_MIN then (after.(fail := true), INT_MIN)
        else if v > INT_MAX then (after.(fail := true), INT_MAX)
        else (after, v)
  }

  // ---------------------------------------------------------------------------------------
  // What extraction reads back
  // ---------------------------------------------------------------------------------------

  /** The decimal digits of `n`, as `std::to_string` writes a non-negative number. */
  function Digits(n: nat): (d: string)
    ensures |d| > 0
  {
    if n < 10 then [('0' as int + n) as char] else Digits(n / 10) + [('0' as int + n % 10) as char]
  }

  lemma {:induction false} DigitsAreDigits(n: nat)
    ensures forall k :: 0 <= k < |Digits(n)| ==> IsDigit(Digits(n)[k])
  {
    if n >= 10 {
      DigitsAreDigits(n / 10);
    }
  }

  /** The text of an `int` as `operator<<` writes it. */
  function Decimal(n: int): (d: string)
    ensures |d| > 0
  {
    if n < 0 then "-" + Digits(-n) else Digits(n)
  }

  lemma {:induction false} DigitsValueOfDigits(n: nat)
    ensures DigitsValue(Digits(n)) == n
  {
    if n >= 10 {
      var d := Digits(n);
      assert d[..|d| - 1] == Digits(n / 10);
      DigitsValueOfDigits(n / 10);
    }
  }

  /** A text that is empty or continues with whitespace: where a number or word may end. */
  predicate EndsToken(rest: string)
  {
    rest == [] || IsSpace(rest[0])
  }

  predicate AllSpace(p: string) { forall k :: 0 <= k < |p| ==> IsSpace(p[k]) }

  /** After whitespace, the extraction starts at the first character of `t`. */
  lemma SentryAt(s: Stream, pad: string, t: string)
    requires s.Valid() && s.Good() && AllSpace(pad) && t != [] && !IsSpace(t[0])
    requires s.text[s.pos..] == pad + t
    ensures Sentry(s) == s.(pos := s.pos + |pad|)
  {
    assert s.text[s.pos + |pad|] == t[0];
    assert forall k :: s.pos <= k < s.pos + |pad| ==> s.text[k] == pad[k - s.pos];
    SkipSpacesAt(s.text, s.pos, s.pos + |pad|);
  }

  /**
   * Reading an `int` from whitespace followed by the decimal text of an `int` and then the end
   * of the text or whitespace gives back that `int`, without failing.
   */
  lemma ReadIntOfDecimal(s: Stream, pad: string, n: int, rest: string, target: int)
    requires s.Valid() && s.Good() && AllSpace(pad) && INT_MIN <= n <= INT_MAX && EndsToken(rest)
    requires s.text[s.pos..] == pad + Decimal(n) + rest
    ensures var r := ReadInt(s, target);
      r.1 == n && !r.0.fail && r.0.pos == s.pos + |pad| + |Decimal(n)| && (r.0.eof <==> rest == [])
  {
    var m: nat := if n < 0 then -n else n;
    DigitsValueOfDigits(m);
    DigitsAreDigits(m);
    var sign := if n < 0 then "-" else "";
    assert Decimal(n) == sign + Digits(m);
    ReadIntOfText(s, pad, sign, Digits(m), rest, target);
  }

  /** Reading an `int` from whitespace, an optional '-', digits and then the end or whitespace. */
  lemma ReadIntOfText(s: Stream, pad: string, sign: string, digits: string, rest: string, target: int)
    requires s.Valid() && s.Good() && AllSpace(pad) && (sign == "" || sign == "-") && EndsToken(rest)
    requires digits != [] && forall k :: 0 <= k < |digits| ==> IsDigit(digits[k])
    requires s.text[s.pos..] == pad + (sign + digits) + rest
    requires INT_MIN <= (if sign == "" then DigitsValue(digits) else -DigitsValue(digits)) <= INT_MAX
    ensures var r := ReadInt(s, target);
      r.1 == (if sign == "" then DigitsValue(digits) else -DigitsValue(digits)) && !r.0.fail &&
      r.0.pos == s.pos + |pad| + |sign + digits| && (r.0.eof <==> rest == [])
  {
    var p := s.pos + |pad|;
    var i := p + |sign|;
    var j := i + |digits|;
    IntTokenAt(s.text, s.pos, pad, sign, digits, rest);
    assert (i == p) == (sign == "") && s.text[i..j] == digits;
    ReadIntSpan(s, p, i, j, target);
    assert |sign + digits| == j - p && (j == |s.text| <==> rest == []);
  }

  /** Where the blanks, the sign and the digits of an `int` token lie in the text. */
  lemma IntTokenAt(t: string, q: nat, pad: string, sign: string, digits: string, rest: string)
    requires q <= |t| && t[q..] == pad + (sign + digits) + rest
    requires AllSpace(pad) && (sign == "" || sign == "-") && EndsToken(rest)
    requires forall k :: 0 <= k < |digits| ==> IsDigit(digits[k])
    ensures var i := q + |pad| + |sign|; var j := i + |digits|;
      j + |rest| == |t| &&
      (forall k :: q <= k < q + |pad| ==> IsSpace(t[k])) &&
      (sign == "-" ==> t[q + |pad|] == '-') &&
      (forall k :: i <= k < j ==> IsDigit(t[k])) &&
      t[i..j] == digits && (j < |t| ==> IsSpace(t[j]))
  {
    var d := sign + digits;
    Decompose(t, q, pad, d, rest);
    var p := q + |pad|;
    var i := p + |sign|;
    var j := p + |d|;
    forall k | q <= k < p ensures IsSpace(t[k]) {
      assert t[k] == pad[k - q];
    }
    assert t[i..j] == digits by {
      assert t[p..j] == d;
      assert t[i..j] == t[p..j][|sign|..];
    }
    forall k | i <= k < j ensures IsDigit(t[k]) {
      assert t[k] == digits[k - i];
    }
    if sign == "-" {
      assert t[p] == d[0];
    }
  }

  /** Where the parts of `t[q..] == pad + d + rest` lie in `t`. */
  lemma Decompose(t: string, q: nat, pad: string, d: string, rest: string)
    requires q <= |t| && t[q..] == pad + d + rest
    ensures q + |pad| + |d| + |rest| == |t|
    ensures forall k :: q <= k < q + |pad| ==> t[k] == pad[k - q]
    ensures forall k :: q + |pad| <= k < q + |pad| + |d| ==> t[k] == d[k - q - |pad|]
    ensures rest != [] ==> t[q + |pad| + |d|] == rest[0]
    ensures t[q + |pad|..q + |pad| + |d|] == d
  {
    assert forall k :: q <= k < |t| ==> t[k] == t[q..][k - q];
    assert t[q + |pad|..q + |pad| + |d|] == t[q..][|pad|..|pad| + |d|];
  }

  /**
   * An `int` extraction over whitespace up to `p`, an optional '-' and the digits in `[i, j)`
   * followed by the end or whitespace reads their value and stops at `j`.
   */
  lemma ReadIntSpan(s: Stream, p: nat, i: nat, j: nat, target: int)
    requires s.Valid() && s.Good() && s.pos <= p <= i < j <= |s.text|
    requires forall k :: s.pos <= k < p ==> IsSpace(s.text[k])
    requires i == p || (i == p + 1 && s.text[p] == '-')
    requires forall k :: i <= k < j ==> IsDigit(s.text[k])
    requires j < |s.text| ==> IsSpace(s.text[j])
    requires INT_MIN <= (if i == p then DigitsValue(s.text[i..j]) else -DigitsValue(s.text[i..j])) <= INT_MAX
    ensures ReadInt(s, target) ==
      (Stream(s.text, j, j == |s.text|, false), if i == p then DigitsValue(s.text[i..j]) else -DigitsValue(s.text[i..j]))
  {
    SkipSpacesAt(s.text, s.pos, p);
    DigitsEndAt(s.text, i, j);
  }

  lemma {:induction false} SkipSpacesAt(t: string, i: nat, j: nat)
    requires i <= j < |t| && (forall k :: i <= k < j ==> IsSpace(t[k])) && !IsSpace(t[j])
    ensures SkipSpaces(t, i) == j
    decreases j - i
  {
    if i < j {
      SkipSpacesAt(t, i + 1, j);
    }
  }

  lemma DigitsEndAt(t: string, i: nat, j: nat)
    requires i <= j <= |t| && (forall k :: i <= k < j ==> IsDigit(t[k])) && (j < |t| ==> !IsDigit(t[j]))
    ensures DigitsEnd(t, i) == j
    decreases j - i
  {
    if i < j {
      DigitsEndAt(t, i + 1, j);
    }
  }

  lemma {:induction false} WordEndAt(t: string, i: nat, j: nat)
    requires i <= j <= |t| && (forall k :: i <= k < j ==> !IsSpace(t[k])) && (j < |t| ==> IsSpace(t[j]))
    ensures WordEnd(t, i) == j
    decreases j - i
  {
    if i < j {
      WordEndAt(t, i + 1, j);
    }
  }

  /** Reading a word from whitespace, a word and then the end or whitespace gives the word. */
  lemma ReadWordOf(s: Stream, pad: string, w: string, rest: string, target: string)
    requires s.Valid() && s.Good() && AllSpace(pad) && w != [] && EndsToken(rest)
    requires forall k :: 0 <= k < |w| ==> !IsSpace(w[k])
    requires s.text[s.pos..] == pad + w + rest
    ensures var r := ReadWord(s, target);
      r.1 == w && !r.0.fail && r.0.pos == s.pos + |pad| + |w| && (r.0.eof <==> rest == [])
  {
    assert s.text[s.pos..] == pad + (w + rest);
    SentryAt(s, pad, w + rest);
    var p := s.pos + |pad|;
    Decompose(s.text, s.pos, pad, w, rest);
    forall k | p <= k < p + |w| ensures !IsSpace(s.text[k]) {
      assert s.text[k] == w[k - p];
    }
    WordEndAt(s.text, p, p + |w|);
  }

  /** Reading a char from whitespace and a non-whitespace character gives that character. */
  lemma ReadCharOf(s: Stream, pad: string, c: char, rest: string, target: char)
    requires s.Valid() && s.Good() && AllSpace(pad) && !IsSpace(c)
    requires s.text[s.pos..] == pad + [c] + rest
    ensures var r := ReadChar(s, target);
      r.1 == c && !r.0.fail && !r.0.eof && r.0.pos == s.pos + |pad| + 1
  {
    assert s.text[s.pos..] == pad + ([c] + rest);
    SentryAt(s, pad, [c] + rest);
    assert s.text[s.pos + |pad|] == c;
  }

  /** Once an extraction has failed, every later one fails and leaves its target unchanged. */
  lemma FailureSticks(s: Stream, c: char, w: string, n: int)
    requires s.Valid() && s.fail
    ensures ReadChar(s, c) == (s, c) && ReadWord(s, w) == (s, w) && ReadInt(s, n) == (s, n)
  {
  }

  /** An extraction from a line with nothing but whitespace left fails and changes nothing read. */
  lemma ReadAtEnd(s: Stream, c: char, w: string, n: int)
    requires s.Valid() && AllSpace(s.text[s.pos..])
    ensures ReadChar(s, c).0.fail && ReadChar(s, c).1 == c
    ensures ReadWord(s, w).0.fail && ReadWord(s, w).1 == w
    ensures ReadInt(s, n).0.fail && ReadInt(s, n).1 == n
  {
    assert forall k :: s.pos <= k < |s.text| ==> s.text[k] == s.text[s.pos..][k - s.pos];
  }

  /** An `int` extraction at a character that is neither a sign nor a digit fails and stores 0. */
  lemma ReadIntNoDigits(s: Stream, pad: string, rest: string, target: int)
    requires s.Valid() && s.Good() && AllSpace(pad)
    requires rest != [] && !IsSpace(rest[0]) && !IsDigit(rest[0]) && rest[0] != '+' && rest[0] != '-'
    requires s.text[s.pos..] == pad + rest
    ensures ReadInt(s, target).0.fail && ReadInt(s, target).1 == 0
  {
    SentryAt(s, pad, rest);
    assert s.text[s.pos + |pad|] == rest[0];
  }
}
