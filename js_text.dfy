/**
 * The JavaScript string operations the OBJ parser relies on: `split` on a
 * one-character separator, `trim`, `split(/\s+/)`, the keyword regular
 * expression `/(\w*)(?: )*(.*)/` and `parseInt` without a radix.
 */
module JsText {
  import opened Wrappers

  /** ECMAScript WhiteSpace and LineTerminator: what `trim` strips and `\s` matches. */
  predicate IsWhitespace(c: char) {
    var n := c as int;
    || n == 0x20 || 0x09 <= n <= 0x0D || n == 0xA0 || n == 0x1680 || 0x2000 <= n <= 0x200A
    || n == 0x2028 || n == 0x2029 || n == 0x202F || n == 0x205F || n == 0x3000 || n == 0xFEFF
  }

  /** The characters a regular-expression `.` does not match. */
  predicate IsLineTerminator(c: char) {
    var n := c as int;
    n == 0x0A || n == 0x0D || n == 0x2028 || n == 0x2029
  }

  /** The class `\w`. */
  predicate IsWordChar(c: char) {
    ('a' <= c <= 'z') || ('A' <= c <= 'Z') || ('0' <= c <= '9') || c == '_'
  }

  predicate NoWhitespace(s: string) {
    forall k :: 0 <= k < |s| ==> !IsWhitespace(s[k])
  }

  /** `r` is `s` with `a` whitespace characters cut from the front and only whitespace cut from the back. */
  predicate InnerOf(s: string, a: int, r: string) {
    && 0 <= a <= |s| - |r| && r == s[a..a + |r|]
    && (forall k :: 0 <= k < a ==> IsWhitespace(s[k]))
    && (forall k :: a + |r| <= k < |s| ==> IsWhitespace(s[k]))
  }

  // ---------------------------------------------------------------------------
  // split on one character, and its inverse

  /** `s.split(sep)`: the pieces between occurrences of `sep`, empty pieces kept. */
  function Split(s: string, sep: char): (r: seq<string>)
    ensures |r| >= 1
    ensures forall k :: 0 <= k < |r| ==> sep !in r[k]
    decreases |s|
  {
    if |s| == 0 then [""]
    else
      var rest := Split(s[1..], sep);
      if s[0] == sep then [""] + rest
      else [[s[0]] + rest[0]] + rest[1..]
  }

  /** `pieces.join(sep)`. */
  function Join(pieces: seq<string>, sep: char): string
    decreases |pieces|
  {
    if |pieces| == 0 then ""
    else if |pieces| == 1 then pieces[0]
    else pieces[0] + [sep] + Join(pieces[1..], sep)
  }

  /** Splitting loses nothing: joining the pieces gives the text back. */
  lemma {:induction false} JoinSplit(s: string, sep: char)
    ensures Join(Split(s, sep), sep) == s
    decreases |s|
  {
    if |s| > 0 {
      var rest := Split(s[1..], sep);
      JoinSplit(s[1..], sep);
      if s[0] == sep {
        assert Split(s, sep) == [""] + rest;
        assert ([""] + rest)[1..] == rest;
      } else {
        var r := Split(s, sep);
        assert r == [[s[0]] + rest[0]] + rest[1..];
        if |rest| > 1 {
          assert r[1..] == rest[1..];
          assert Join(rest, sep) == rest[0] + [sep] + Join(rest[1..], sep);
        }
        assert s == [s[0]] + s[1..];
      }
    }
  }

  lemma {:induction false} SplitPrefix(a: string, tail: string, sep: char)
    requires sep !in a
    ensures Split(a + tail, sep) == [a + Split(tail, sep)[0]] + Split(tail, sep)[1..]
    decreases |a|
  {
    var t := Split(tail, sep);
    if |a| > 0 {
      SplitPrefix(a[1..], tail, sep);
      assert (a + tail)[1..] == a[1..] + tail;
      assert (a + tail)[0] == a[0];
      var rest := Split(a[1..] + tail, sep);
      assert rest == [a[1..] + t[0]] + t[1..];
      assert rest[0] == a[1..] + t[0] && rest[1..] == t[1..];
      assert [a[0]] + (a[1..] + t[0]) == a + t[0];
    } else {
      assert a + tail == tail;
      assert a + t[0] == t[0];
      assert t == [t[0]] + t[1..];
    }
  }

  /** Joining pieces that do not contain the separator and splitting again gives the pieces back. */
  lemma {:induction false} SplitJoin(pieces: seq<string>, sep: char)
    requires |pieces| >= 1
    requires forall k :: 0 <= k < |pieces| ==> sep !in pieces[k]
    ensures Split(Join(pieces, sep), sep) == pieces
    decreases |pieces|
  {
    if |pieces| == 1 {
      SplitPrefix(pieces[0], "", sep);
      assert pieces[0] + "" == pieces[0];
    } else {
      var j := Join(pieces[1..], sep);
      SplitJoin(pieces[1..], sep);
      assert ([sep] + j)[1..] == j;
      assert Split([sep] + j, sep) == [""] + pieces[1..];
      SplitPrefix(pieces[0], [sep] + j, sep);
      assert pieces[0] + [sep] + j == pieces[0] + ([sep] + j);
      assert ([""] + pieces[1..])[1..] == pieces[1..];
      assert pieces[0] + "" == pieces[0];
    }
  }

  // ---------------------------------------------------------------------------
  // trim

  /** The length of the run of whitespace `s` starts with. */
  function LeadingSpace(s: string): (n: nat)
    ensures n <= |s|
    ensures forall k :: 0 <= k < n ==> IsWhitespace(s[k])
    ensures n < |s| ==> !IsWhitespace(s[n])
    decreases |s|
  {
    if |s| > 0 && IsWhitespace(s[0]) then 1 + LeadingSpace(s[1..]) else 0
  }

  /** The length of `s` without the run of whitespace it ends with. */
  function TrimmedLength(s: string): (n: nat)
    ensures n <= |s|
    ensures forall k :: n <= k < |s| ==> IsWhitespace(s[k])
    ensures n > 0 ==> !IsWhitespace(s[n - 1])
    decreases |s|
  {
    if |s| > 0 && IsWhitespace(s[|s| - 1]) then TrimmedLength(s[..|s| - 1]) else |s|
  }

  /** What `parseInt` skips before the numeral: the leading whitespace. */
  function TrimStart(s: string): string {
    s[LeadingSpace(s)..]
  }

  /** `s.trim()`: the middle of `s` between two runs of whitespace. */
  function Trim(s: string): (r: string)
    ensures exists a :: InnerOf(s, a, r)
    ensures r != [] ==> !IsWhitespace(r[0]) && !IsWhitespace(r[|r| - 1])
  {
    var a := LeadingSpace(s);
    var n := TrimmedLength(s[a..]);
    assert InnerOf(s, a, s[a..a + n]) by {
      TrailingSpace(s, a, n);
    }
    s[a..a + n]
  }

  lemma TrailingSpace(s: string, a: nat, n: nat)
    requires a <= |s| && n == TrimmedLength(s[a..])
    ensures forall k :: a + n <= k < |s| ==> IsWhitespace(s[k])
  {
    forall k | a + n <= k < |s|
      ensures IsWhitespace(s[k])
    {
      assert s[k] == s[a..][k - a];
    }
  }

  // ---------------------------------------------------------------------------
  // split(/\s+/)

  /** `s.split(/\s+/)`: the pieces between maximal runs of whitespace. */
  function SplitWs(s: string): (r: seq<string>)
    ensures |r| >= 1
    ensures forall k :: 0 <= k < |r| ==> NoWhitespace(r[k])
    decreases |s|
  {
    if |s| == 0 then [""]
    else
      var rest := SplitWs(s[1..]);
      if IsWhitespace(s[0]) then
        if |s| > 1 && IsWhitespace(s[1]) then rest else [""] + rest
      else [[s[0]] + rest[0]] + rest[1..]
  }

  /** Whitespace-free text runs on into the first piece of what follows it. */
  lemma {:induction false} SplitWsPrefix(a: string, tail: string)
    requires NoWhitespace(a)
    ensures SplitWs(a + tail) == [a + SplitWs(tail)[0]] + SplitWs(tail)[1..]
    decreases |a|
  {
    if a == [] {
      var t := SplitWs(tail);
      assert a + tail == tail && a + t[0] == t[0];
      assert [t[0]] + t[1..] == t;
    } else {
      SplitWsPrefix(a[1..], tail);
      assert (a + tail)[0] == a[0] && (a + tail)[1..] == a[1..] + tail;
      assert [a[0]] + (a[1..] + SplitWs(tail)[0]) == a + SplitWs(tail)[0];
    }
  }

  /** The first character of a join is the first character of its first piece. */
  lemma JoinHead(pieces: seq<string>, sep: char)
    requires |pieces| >= 1 && pieces[0] != ""
    ensures |Join(pieces, sep)| > 0 && Join(pieces, sep)[0] == pieces[0][0]
  {
    if |pieces| > 1 {
      assert Join(pieces, sep) == pieces[0] + ([sep] + Join(pieces[1..], sep));
    }
  }

  /**
   * The pieces are exactly the runs between whitespace: splitting
   * non-empty, whitespace-free tokens joined by single spaces gives the
   * tokens back.
   */
  lemma {:induction false} SplitWsJoin(pieces: seq<string>)
    requires |pieces| >= 1
    requires forall k :: 0 <= k < |pieces| ==> pieces[k] != "" && NoWhitespace(pieces[k])
    ensures SplitWs(Join(pieces, ' ')) == pieces
    decreases |pieces|
  {
    if |pieces| == 1 {
      SplitWsPrefix(pieces[0], "");
      assert pieces[0] + "" == pieces[0];
    } else {
      var rest := Join(pieces[1..], ' ');
      SplitWsJoin(pieces[1..]);
      JoinHead(pieces[1..], ' ');
      assert ([' '] + rest)[1..] == rest;
      assert SplitWs([' '] + rest) == [""] + pieces[1..];
      SplitWsPrefix(pieces[0], [' '] + rest);
      assert Join(pieces, ' ') == pieces[0] + ([' '] + rest);
      assert pieces[0] + "" == pieces[0];
      assert ([""] + pieces[1..])[1..] == pieces[1..];
    }
  }

  function Concat(pieces: seq<string>): string
    decreases |pieces|
  {
    if |pieces| == 0 then "" else pieces[0] + Concat(pieces[1..])
  }

  function RemoveWhitespace(s: string): (r: string)
    decreases |s|
  {
    if |s| == 0 then ""
    else if IsWhitespace(s[0]) then RemoveWhitespace(s[1..])
    else [s[0]] + RemoveWhitespace(s[1..])
  }

  /** The pieces hold exactly the non-whitespace characters of `s`, in order. */
  lemma {:induction false} SplitWsKeepsText(s: string)
    ensures Concat(SplitWs(s)) == RemoveWhitespace(s)
    decreases |s|
  {
    if |s| > 0 {
      var rest := SplitWs(s[1..]);
      SplitWsKeepsText(s[1..]);
      if IsWhitespace(s[0]) {
        if !(|s| > 1 && IsWhitespace(s[1])) {
          assert ([""] + rest)[1..] == rest;
        }
      } else {
        var r := [[s[0]] + rest[0]] + rest[1..];
        assert r[1..] == rest[1..];
        assert Concat(rest) == rest[0] + Concat(rest[1..]);
      }
    }
  }

  /**
   * Only the ends of `s` can produce empty pieces: the first piece is empty
   * only when `s` is empty or starts with whitespace, the last (of several)
   * only when `s` ends with whitespace, and no piece in between is empty.
   */
  lemma {:induction false} SplitWsEmptyPieces(s: string)
    ensures SplitWs(s)[0] == "" ==> |s| == 0 || IsWhitespace(s[0])
    ensures |SplitWs(s)| > 1 && SplitWs(s)[|SplitWs(s)| - 1] == "" ==> |s| > 0 && IsWhitespace(s[|s| - 1])
    ensures forall k :: 1 <= k < |SplitWs(s)| - 1 ==> SplitWs(s)[k] != ""
    decreases |s|
  {
    if |s| > 0 {
      var rest := SplitWs(s[1..]);
      SplitWsEmptyPieces(s[1..]);
      var r := SplitWs(s);
      if IsWhitespace(s[0]) {
        if !(|s| > 1 && IsWhitespace(s[1])) {
          assert r == [""] + rest;
          if |rest| == 1 && rest[0] == "" {
            assert |s| == 1;
          }
        }
      } else {
        assert r == [[s[0]] + rest[0]] + rest[1..];
      }
    }
  }

  /** A trimmed, non-empty line splits into non-empty whitespace-free tokens. */
  lemma TokensOfTrimmedLine(line: string)
    requires line != [] && !IsWhitespace(line[0]) && !IsWhitespace(line[|line| - 1])
    ensures forall k :: 0 <= k < |SplitWs(line)| ==> SplitWs(line)[k] != "" && NoWhitespace(SplitWs(line)[k])
  {
    SplitWsEmptyPieces(line);
  }

  // ---------------------------------------------------------------------------
  // the keyword regular expression /(\w*)(?: )*(.*)/

  /** The length of the longest prefix of word characters. */
  function WordLength(line: string): (n: nat)
    ensures n <= |line|
    ensures forall k :: 0 <= k < n ==> IsWordChar(line[k])
    ensures n < |line| ==> !IsWordChar(line[n])
    decreases |line|
  {
    if |line| > 0 && IsWordChar(line[0]) then 1 + WordLength(line[1..]) else 0
  }

  /** The first capture group: the longest prefix of word characters. */
  function Keyword(line: string): (r: string)
    ensures r <= line
    ensures forall k :: 0 <= k < |r| ==> IsWordChar(r[k])
    ensures |r| < |line| ==> !IsWordChar(line[|r|])
  {
    line[..WordLength(line)]
  }

  /** The length of the run of spaces `s` starts with: what `(?: )*` consumes. */
  function SpaceRun(s: string): (n: nat)
    ensures n <= |s|
    ensures forall k :: 0 <= k < n ==> s[k] == ' '
    ensures n < |s| ==> s[n] != ' '
    decreases |s|
  {
    if |s| > 0 && s[0] == ' ' then 1 + SpaceRun(s[1..]) else 0
  }

  /** The length of the longest prefix without a line terminator: what `(.*)` consumes. */
  function LineLength(s: string): (n: nat)
    ensures n <= |s|
    ensures forall k :: 0 <= k < n ==> !IsLineTerminator(s[k])
    ensures n < |s| ==> IsLineTerminator(s[n])
    decreases |s|
  {
    if |s| > 0 && !IsLineTerminator(s[0]) then 1 + LineLength(s[1..]) else 0
  }

  /**
   * `r` is what the third group captures from `line` when it starts at `a`:
   * `a` follows the keyword and every space after it, and `r` runs up to the
   * first line terminator or the end of the line.
   */
  predicate ArgsAt(line: string, a: int, r: string) {
    && WordLength(line) <= a <= |line| - |r| && r == line[a..a + |r|]
    && (forall k :: WordLength(line) <= k < a ==> line[k] == ' ')
    && (a < |line| ==> line[a] != ' ')
    && (forall k :: 0 <= k < |r| ==> !IsLineTerminator(r[k]))
    && (a + |r| < |line| ==> IsLineTerminator(line[a + |r|]))
  }

  /** Where the third group starts: after the keyword and the spaces that follow it. */
  function ArgsStart(line: string): (a: nat)
    ensures WordLength(line) <= a <= |line|
  {
    WordLength(line) + SpaceRun(line[WordLength(line)..])
  }

  /** The second capture group (`unparsedArgs`): after the keyword and the spaces that follow it, up to a line terminator. */
  function UnparsedArgs(line: string): (r: string)
    ensures exists a :: ArgsAt(line, a, r)
    ensures forall k :: 0 <= k < |r| ==> !IsLineTerminator(r[k])
  {
    var a := ArgsStart(line);
    var r := line[a..a + LineLength(line[a..])];
    CaptureAt(line, a, r);
    r
  }

  lemma CaptureAt(line: string, a: nat, r: string)
    requires a == ArgsStart(line) && r == line[a..a + LineLength(line[a..])]
    ensures ArgsAt(line, a, r)
  {
    SpacesAfterKeyword(line, WordLength(line), a);
    RestOfLine(line, a, r);
  }

  /** The capture is determined by the line: it can only be `UnparsedArgs(line)`, starting at `ArgsStart(line)`. */
  lemma ArgsAtUnique(line: string, a: int, r: string)
    requires ArgsAt(line, a, r)
    ensures a == ArgsStart(line) && r == UnparsedArgs(line)
  {
    var w := WordLength(line);
    var t := line[w..];
    forall k | 0 <= k < a - w
      ensures t[k] == ' '
    {
      assert t[k] == line[w + k];
    }
    if a < |line| {
      assert t[a - w] == line[a];
    }
    SpaceRunExact(t, a - w);
    var u := line[a..];
    forall k | 0 <= k < |r|
      ensures !IsLineTerminator(u[k])
    {
      assert u[k] == r[k];
    }
    if a + |r| < |line| {
      assert u[|r|] == line[a + |r|];
    }
    LineLengthExact(u, |r|);
  }

  /** A run of `m` spaces followed by something else, or by the end, is what `SpaceRun` measures. */
  lemma {:induction false} SpaceRunExact(t: string, m: nat)
    requires m <= |t| && (forall k :: 0 <= k < m ==> t[k] == ' ') && (m < |t| ==> t[m] != ' ')
    ensures SpaceRun(t) == m
    decreases m
  {
    if m > 0 {
      SpaceRunExact(t[1..], m - 1);
    }
  }

  /** `n` characters that are not line terminators, followed by one or by the end, are what `LineLength` measures. */
  lemma {:induction false} LineLengthExact(t: string, n: nat)
    requires n <= |t| && (forall k :: 0 <= k < n ==> !IsLineTerminator(t[k])) && (n < |t| ==> IsLineTerminator(t[n]))
    ensures LineLength(t) == n
    decreases n
  {
    if n > 0 {
      LineLengthExact(t[1..], n - 1);
    }
  }

  lemma RestOfLine(line: string, a: nat, r: string)
    requires a <= |line| && r == line[a..a + LineLength(line[a..])]
    ensures forall k :: 0 <= k < |r| ==> !IsLineTerminator(r[k])
    ensures a + |r| < |line| ==> IsLineTerminator(line[a + |r|])
  {
    if a + |r| < |line| {
      assert line[a + |r|] == line[a..][|r|];
    }
    forall k | 0 <= k < |r|
      ensures !IsLineTerminator(r[k])
    {
      assert r[k] == line[a..][k];
    }
  }

  lemma SpacesAfterKeyword(line: string, w: nat, a: nat)
    requires w <= |line| && a == w + SpaceRun(line[w..])
    ensures a <= |line|
    ensures forall k :: w <= k < a ==> line[k] == ' '
    ensures a < |line| ==> line[a] != ' '
  {
    if a < |line| {
      assert line[a] == line[w..][a - w];
    }
    forall k | w <= k < a
      ensures line[k] == ' '
    {
      assert line[k] == line[w..][k - w];
    }
  }

  // ---------------------------------------------------------------------------
  // parseInt(s) without a radix

  /** The value of `c` as a digit in radix up to 36, or 36 when it is not a digit. */
  function DigitValue(c: char): (d: nat)
    ensures d <= 36
  {
    if '0' <= c <= '9' then (c as int) - ('0' as int)
    else if 'a' <= c <= 'z' then (c as int) - ('a' as int) + 10
    else if 'A' <= c <= 'Z' then (c as int) - ('A' as int) + 10
    else 36
  }

  /** The length of the longest prefix of digits in `radix`. */
  function DigitCount(s: string, radix: nat): (n: nat)
    ensures n <= |s|
    ensures forall k :: 0 <= k < n ==> DigitValue(s[k]) < radix
    ensures n < |s| ==> DigitValue(s[n]) >= radix
    decreases |s|
  {
    if |s| > 0 && DigitValue(s[0]) < radix then 1 + DigitCount(s[1..], radix) else 0
  }

  function DigitPrefix(s: string, radix: nat): string {
    s[..DigitCount(s, radix)]
  }

  /** The number written by `digits` in `radix`, most significant digit first. */
  function DigitsValue(digits: string, radix: nat): nat
    decreases |digits|
  {
    if |digits| == 0 then 0
    else DigitsValue(digits[..|digits| - 1], radix) * radix + DigitValue(digits[|digits| - 1])
  }

  /** An unsigned numeral: a `0x`/`0X` prefix selects radix 16, then the longest run of digits is read; none at all is NaN. */
  function ParseMagnitude(u: string): (r: Option<nat>)
    ensures r.Some? ==> |u| > 0 && '0' <= u[0] <= '9'
    ensures |u| > 0 && '1' <= u[0] <= '9' ==> r.Some?
    ensures |u| > 0 && u[0] == '0' && !(|u| >= 2 && (u[1] == 'x' || u[1] == 'X')) ==> r.Some?
  {
    var hex := |u| >= 2 && u[0] == '0' && (u[1] == 'x' || u[1] == 'X');
    var radix := if hex then 16 else 10;
    var digits := DigitPrefix(if hex then u[2..] else u, radix);
    if digits == "" then None else Some(DigitsValue(digits, radix))
  }

  /** A numeral with an optional sign; NaN is modelled as `None`. */
  function ParseSigned(t: string): (r: Option<int>)
    ensures r.Some? ==> |t| > 0 && ('0' <= t[0] <= '9' || ((t[0] == '-' || t[0] == '+') && |t| > 1 && '0' <= t[1] <= '9'))
    ensures r.Some? && r.value < 0 ==> t[0] == '-'
    ensures r.Some? && t[0] == '-' ==> r.value <= 0
  {
    var negative := |t| > 0 && t[0] == '-';
    var u := if |t| > 0 && (t[0] == '-' || t[0] == '+') then t[1..] else t;
    match ParseMagnitude(u)
    case None => None
    case Some(m) => if negative then Some(-(m as int)) else Some(m as int)
  }

  /** `parseInt(s)`: skip leading whitespace, then read a signed numeral. */
  function ParseInt(s: string): (r: Option<int>)
    ensures var i := LeadingSpace(s);
      r.Some? ==> i < |s| && ('0' <= s[i] <= '9' || ((s[i] == '-' || s[i] == '+') && i + 1 < |s| && '0' <= s[i + 1] <= '9'))
  {
    ParseSigned(TrimStart(s))
  }

  /** The decimal numeral of `n`, without leading zeros. */
  function Decimal(n: nat): (r: string)
    ensures |r| >= 1
    ensures forall k :: 0 <= k < |r| ==> '0' <= r[k] <= '9'
    ensures |r| >= 2 ==> r[0] != '0'
    decreases n
  {
    if n < 10 then [('0' as int + n) as char]
    else Decimal(n / 10) + [('0' as int + n % 10) as char]
  }

  lemma {:induction false} DecimalValue(n: nat)
    ensures DigitsValue(Decimal(n), 10) == n
    decreases n
  {
    if n >= 10 {
      DecimalValue(n / 10);
      var d := Decimal(n);
      assert d[..|d| - 1] == Decimal(n / 10);
    }
  }

  lemma DecimalDigits(n: nat)
    ensures DigitPrefix(Decimal(n), 10) == Decimal(n)
    ensures LeadingSpace(Decimal(n)) == 0
  {
    var d := Decimal(n);
    assert forall k :: 0 <= k < |d| ==> DigitValue(d[k]) < 10;
    assert |DigitPrefix(d, 10)| == |d|;
    assert !IsWhitespace(d[0]) by { assert '0' <= d[0] <= '9'; }
  }

  lemma UnsignedNumeral(d: string, n: nat)
    requires |d| > 0 && !IsWhitespace(d[0]) && d[0] != '-' && d[0] != '+'
    requires ParseMagnitude(d) == Some(n)
    ensures ParseInt(d) == Some(n as int)
  {
    assert TrimStart(d) == d;
  }

  lemma NegatedNumeral(d: string, n: nat)
    requires |d| > 0
    requires ParseMagnitude(d) == Some(n)
    ensures ParseInt(['-'] + d) == Some(-(n as int))
  {
    var m := ['-'] + d;
    assert !IsWhitespace(m[0]);
    assert LeadingSpace(m) == 0;
    assert TrimStart(m) == m;
    assert m[1..] == d;
    assert ParseSigned(m) == Some(-(n as int));
  }

  /** `parseInt` reads back a decimal numeral, with or without a minus sign. */
  lemma ParseIntDecimal(n: nat)
    ensures ParseInt(Decimal(n)) == Some(n as int)
    ensures ParseInt(['-'] + Decimal(n)) == Some(-(n as int))
  {
    var d := Decimal(n);
    DecimalValue(n);
    DecimalDigits(n);
    assert !(|d| >= 2 && d[0] == '0');
    assert ParseMagnitude(d) == Some(n);
    assert !IsWhitespace(d[0]) && d[0] != '-' && d[0] != '+' by { assert '0' <= d[0] <= '9'; }
    UnsignedNumeral(d, n);
    NegatedNumeral(d, n);
  }
}
