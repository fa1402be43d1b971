/** The character-level scanning of ldns-testns: a line is a C string, read through a
    cursor that the parsers advance. Past the end of the text the string yields its NUL
    terminator, so every scan stops there. */
module Scanner {

  /** The character a C string shows at index i: the text, then NUL. */
  function At(s: seq<char>, i: nat): char
  {
    if i < |s| then s[i] else '\0'
  }

  /** isspace() in the C locale. */
  predicate IsSpace(c: char)
  {
    c == ' ' || c == '\t' || c == '\n' || c == '\r' || c == '\U{B}' || c == '\U{C}'
  }

  /** isendline(): where the content of a line stops (comment, newline or NUL). */
  predicate IsEndLine(c: char)
  {
    c == ';' || c == '#' || c == '\n' || c == '\0'
  }

  /** The text at pos begins with kw (strncmp over strlen(kw) characters). Keywords are
      string literals without NUL, so a NUL in the text, or its end, is a mismatch. */
  predicate HasKeywordAt(s: seq<char>, pos: nat, kw: seq<char>)
  {
    pos + |kw| <= |s| && s[pos..pos + |kw|] == kw
  }

  /** Where a run of white space starting at i ends. */
  function SkipSpaces(s: seq<char>, i: nat): (j: nat)
    requires i <= |s|
    ensures i <= j <= |s|
    ensures forall k | i <= k < j :: IsSpace(s[k])
    ensures !IsSpace(At(s, j))
    decreases |s| - i
  {
    if i < |s| && IsSpace(s[i]) then SkipSpaces(s, i + 1) else i
  }

  /** Where the cursor lands after str_keyword has matched kw at pos. */
  function KeywordEnd(s: seq<char>, pos: nat, kw: seq<char>): nat
    requires HasKeywordAt(s, pos, kw)
  {
    SkipSpaces(s, pos + |kw|)
  }

  /** The loop `while(isspace(*parse)) parse++;`. */
  method SkipWhitespace(s: seq<char>, i: nat) returns (j: nat)
    requires i <= |s|
    ensures j == SkipSpaces(s, i)
  {
    j := i;
    while IsSpace(At(s, j))
      invariant i <= j <= |s|
      invariant SkipSpaces(s, j) == SkipSpaces(s, i)
      decreases |s| - j
    {
      j := j + 1;
    }
  }

  /** str_keyword: true iff the text at pos starts with kw (case-sensitive); on a match
      the cursor moves past kw and all the white space after it, otherwise it stays. */
  method StrKeyword(s: seq<char>, pos: nat, kw: seq<char>) returns (found: bool, next: nat)
    requires pos <= |s|
    ensures found <==> HasKeywordAt(s, pos, kw)
    ensures found ==> next == KeywordEnd(s, pos, kw)
    ensures !found ==> next == pos
  {
    if !(pos + |kw| <= |s| && s[pos..pos + |kw|] == kw) {
      return false, pos;
    }
    found := true;
    next := SkipWhitespace(s, pos + |kw|);
  }

  /** The end of the name get_origin hands to the name parser: the first white space or
      end-of-line character at or after i. */
  function NameEnd(s: seq<char>, i: nat): (j: nat)
    requires i <= |s|
    ensures i <= j <= |s|
    ensures forall k | i <= k < j :: !IsSpace(s[k]) && !IsEndLine(s[k])
    ensures IsSpace(At(s, j)) || IsEndLine(At(s, j))
    decreases |s| - i
  {
    if i < |s| && !IsSpace(s[i]) && !IsEndLine(s[i]) then NameEnd(s, i + 1) else i
  }

  /** The loop of get_origin: `while(!isspace(*end) && !isendline(*end)) end++;`. */
  method FindNameEnd(s: seq<char>, i: nat) returns (j: nat)
    requires i <= |s|
    ensures j == NameEnd(s, i)
  {
    j := i;
    while !IsSpace(At(s, j)) && !IsEndLine(At(s, j))
      invariant i <= j <= |s|
      invariant NameEnd(s, j) == NameEnd(s, i)
      decreases |s| - j
    {
      j := j + 1;
    }
  }

  // ---------------------------------------------------------------------------
  // strtol(…, 10) with a 64-bit long, as the C library does it.

  predicate IsDigit(c: char)
  {
    '0' <= c <= '9'
  }

  predicate AllDigits(d: seq<char>)
  {
    forall k | 0 <= k < |d| :: IsDigit(d[k])
  }

  /** Where the run of decimal digits starting at i ends. */
  function DigitRunEnd(s: seq<char>, i: nat): (j: nat)
    requires i <= |s|
    ensures i <= j <= |s|
    ensures AllDigits(s[i..j])
    ensures j == |s| || !IsDigit(s[j])
    decreases |s| - i
  {
    if i < |s| && IsDigit(s[i]) then DigitRunEnd(s, i + 1) else i
  }

  /** A run of digits from i to j that stops at a non-digit is the run DigitRunEnd finds. */
  lemma {:induction false} DigitRunEndAt(s: seq<char>, i: nat, j: nat)
    requires i <= j <= |s|
    requires AllDigits(s[i..j])
    requires j == |s| || !IsDigit(s[j])
    ensures DigitRunEnd(s, i) == j
    decreases j - i
  {
    if i < j {
      assert s[i..j][0] == s[i];
      assert s[i + 1..j] == s[i..j][1..];
      DigitRunEndAt(s, i + 1, j);
    }
  }

  /** The value of a string of decimal digits, most significant first. */
  function DigitsValue(d: seq<char>): nat
    requires AllDigits(d)
  {
    if |d| == 0 then 0 else DigitsValue(d[..|d| - 1]) * 10 + ((d[|d| - 1] as int) - ('0' as int))
  }

  const LONG_MAX: int := 0x7FFF_FFFF_FFFF_FFFF
  const LONG_MIN: int := -0x8000_0000_0000_0000

  /** A conversion's value and the end pointer it reports. */
  datatype Conversion = Conversion(value: int, end: nat)

  /** strtol(s + i, &end, 10): leading white space, an optional sign, then digits; the value
      saturates at LONG_MIN/LONG_MAX; with no digits the value is 0 and end is i itself. */
  function Strtol(s: seq<char>, i: nat): (c: Conversion)
    requires i <= |s|
    ensures LONG_MIN <= c.value <= LONG_MAX
    ensures c.end == i || i < c.end <= |s|
    ensures c.end == i ==> c.value == 0
    ensures c.end != i ==> IsDigit(s[c.end - 1]) && (c.end == |s| || !IsDigit(s[c.end]))
    ensures c.end != i && At(s, SkipSpaces(s, i)) == '-' ==> c.value <= 0
    ensures c.end != i && At(s, SkipSpaces(s, i)) != '-' ==> c.value >= 0
  {
    var j := SkipSpaces(s, i);
    var neg := At(s, j) == '-';
    var k := if At(s, j) == '-' || At(s, j) == '+' then j + 1 else j;
    var e := DigitRunEnd(s, k);
    if e == k then Conversion(0, i)
    else
      var mag: int := DigitsValue(s[k..e]);
      assert IsDigit(s[k..e][e - k - 1]);
      var v := if neg then (if -mag < LONG_MIN then LONG_MIN else -mag)
               else (if mag > LONG_MAX then LONG_MAX else mag);
      Conversion(v, e)
  }

  /** The decimal rendering of n, without leading zeros. */
  function Decimal(n: nat): (d: seq<char>)
    ensures |d| >= 1 && AllDigits(d)
  {
    var last := ((n % 10) + ('0' as int)) as char;
    if n < 10 then [last] else Decimal(n / 10) + [last]
  }

  lemma {:induction false} DecimalValue(n: nat)
    ensures DigitsValue(Decimal(n)) == n
  {
    var d := Decimal(n);
    if n >= 10 {
      assert d[..|d| - 1] == Decimal(n / 10);
      DecimalValue(n / 10);
    }
  }

  /** strtol over white space, an optional sign at k - 1 and a decimal number at k: the end is
      just past the number, the value is the number with its sign, saturated at LONG_MIN or
      LONG_MAX. */
  lemma StrtolReadsDecimal(s: seq<char>, i: nat, k: nat, n: nat)
    requires i <= |s|
    requires var q := SkipSpaces(s, i); k == q || (k == q + 1 && (At(s, q) == '-' || At(s, q) == '+'))
    requires k + |Decimal(n)| <= |s| && s[k..k + |Decimal(n)|] == Decimal(n)
    requires k + |Decimal(n)| == |s| || !IsDigit(s[k + |Decimal(n)|])
    ensures Strtol(s, i).end == k + |Decimal(n)|
    ensures At(s, SkipSpaces(s, i)) == '-' ==>
              Strtol(s, i).value == if -(n as int) < LONG_MIN then LONG_MIN else -(n as int)
    ensures At(s, SkipSpaces(s, i)) != '-' ==>
              Strtol(s, i).value == if n > LONG_MAX then LONG_MAX else n
  {
    var d := Decimal(n);
    var e := k + |d|;
    assert s[k] == d[0] && IsDigit(s[k]);
    DigitRunEndAt(s, k, e);
    DecimalValue(n);
    StrtolDigitsAt(s, i, k, e);
  }

  /** strtol in terms of where its digits start and end. */
  lemma StrtolDigitsAt(s: seq<char>, i: nat, k: nat, e: nat)
    requires i <= |s| && k < e <= |s|
    requires var q := SkipSpaces(s, i); k == q || (k == q + 1 && (At(s, q) == '-' || At(s, q) == '+'))
    requires IsDigit(s[k]) && DigitRunEnd(s, k) == e
    ensures Strtol(s, i).end == e
    ensures var v: int := DigitsValue(s[k..e]);
            Strtol(s, i).value == if At(s, SkipSpaces(s, i)) == '-'
                                  then (if -v < LONG_MIN then LONG_MIN else -v)
                                  else (if v > LONG_MAX then LONG_MAX else v)
  {
    var q := SkipSpaces(s, i);
    if k == q {
      assert At(s, q) == s[k];
    }
  }

  /** strtol reads back what Decimal renders, up to the first non-digit after it. */
  lemma StrtolDecimal(s: seq<char>, i: nat, n: nat)
    requires n <= LONG_MAX
    requires i + |Decimal(n)| <= |s| && s[i..i + |Decimal(n)|] == Decimal(n)
    requires i + |Decimal(n)| == |s| || !IsDigit(s[i + |Decimal(n)|])
    ensures Strtol(s, i) == Conversion(n, i + |Decimal(n)|)
  {
    assert s[i] == Decimal(n)[0] && IsDigit(s[i]) && At(s, i) == s[i];
    StrtolReadsDecimal(s, i, i, n);
  }
}
