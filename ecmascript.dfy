/**
 * The part of the ECMAScript standard library that the exercise controller relies on:
 * String.prototype.trim, parseInt with radix 10, the NaN behaviour of Number comparisons,
 * and anchored regular expressions built from `\d` and literal characters.
 *
 * Strings are sequences of Unicode scalar values; every character these operations
 * inspect lies in the Basic Multilingual Plane, so a code point and a UTF-16 code unit agree.
 */
module EcmaScript {

  datatype Option<+T> = None | Some(value: T)

  // ---------------------------------------------------------------------------
  // Whitespace and trimming
  // ---------------------------------------------------------------------------

  /** The WhiteSpace and LineTerminator code points of ECMA-262 (sections 12.2 and 12.3,
      with the space separators of Unicode category Zs written out). Both
      String.prototype.trim and parseInt strip exactly this set. */
  predicate IsWhitespace(c: char) {
    || c == '\t' || c == '\n' || c == '\U{B}' || c == '\U{C}' || c == '\r' || c == ' '
    || c == '\U{A0}' || c == '\U{1680}' || ('\U{2000}' <= c <= '\U{200A}')
    || c == '\U{2028}' || c == '\U{2029}' || c == '\U{202F}' || c == '\U{205F}'
    || c == '\U{3000}' || c == '\U{FEFF}'
  }

  predicate AllWhitespace(s: string) {
    forall i :: 0 <= i < |s| ==> IsWhitespace(s[i])
  }

  /** Drops the longest whitespace prefix. */
  function TrimStart(s: string): (r: string)
    ensures |r| <= |s| && r == s[|s| - |r|..]
    ensures AllWhitespace(s[..|s| - |r|])
    ensures r == [] || !IsWhitespace(r[0])
  {
    if s != [] && IsWhitespace(s[0]) then TrimStart(s[1..]) else s
  }

  /** Drops the longest whitespace suffix. */
  function TrimEnd(s: string): (r: string)
    ensures |r| <= |s| && r == s[..|r|]
    ensures AllWhitespace(s[|r|..])
    ensures r == [] || !IsWhitespace(r[|r| - 1])
  {
    if s != [] && IsWhitespace(s[|s| - 1]) then TrimEnd(s[..|s| - 1]) else s
  }

  /** String.prototype.trim. */
  function Trim(s: string): (r: string)
    ensures r == [] || (!IsWhitespace(r[0]) && !IsWhitespace(r[|r| - 1]))
    ensures r == [] <==> AllWhitespace(s)
  {
    var t := TrimStart(s);
    assert s == s[..|s| - |t|] + t;
    TrimEnd(t)
  }

  lemma {:induction false} TrimStartPadded(ws: string, t: string)
    requires AllWhitespace(ws)
    requires t == [] || !IsWhitespace(t[0])
    ensures TrimStart(ws + t) == t
  {
    if ws != [] {
      assert (ws + t)[1..] == ws[1..] + t;
      TrimStartPadded(ws[1..], t);
    }
  }

  lemma {:induction false} TrimEndPadded(t: string, ws: string)
    requires AllWhitespace(ws)
    requires t == [] || !IsWhitespace(t[|t| - 1])
    ensures TrimEnd(t + ws) == t
  {
    if ws != [] {
      assert (t + ws)[..|t + ws| - 1] == t + ws[..|ws| - 1];
      TrimEndPadded(t, ws[..|ws| - 1]);
    }
  }

  /** Trimming removes exactly surrounding whitespace: a text whose first and last
      characters are not whitespace is recovered from any padding of it. */
  lemma TrimPadded(lead: string, t: string, trail: string)
    requires AllWhitespace(lead) && AllWhitespace(trail)
    requires t != [] && !IsWhitespace(t[0]) && !IsWhitespace(t[|t| - 1])
    ensures Trim(lead + t + trail) == t
  {
    assert lead + t + trail == lead + (t + trail);
    TrimStartPadded(lead, t + trail);
    TrimEndPadded(t, trail);
  }

  /** The whitespace trim removes in front. */
  function LeadingWhitespace(s: string): string {
    s[..|s| - |TrimStart(s)|]
  }

  /** The whitespace trim removes at the end. */
  function TrailingWhitespace(s: string): string {
    var t := TrimStart(s);
    t[|TrimEnd(t)|..]
  }

  /** Every string is its trimmed value padded with whitespace on both sides. */
  lemma TrimDecomposes(s: string)
    ensures AllWhitespace(LeadingWhitespace(s)) && AllWhitespace(TrailingWhitespace(s))
    ensures s == LeadingWhitespace(s) + Trim(s) + TrailingWhitespace(s)
  {
    var t := TrimStart(s);
    var r := TrimEnd(t);
    assert r == Trim(s);
    LeadingWhitespaceSplits(s);
    TrailingWhitespaceSplits(t);
    ConcatenateCuts3(s, LeadingWhitespace(s), t, r, TrailingWhitespace(s));
  }

  lemma LeadingWhitespaceSplits(s: string)
    ensures s == LeadingWhitespace(s) + TrimStart(s)
  {
    var t := TrimStart(s);
    assert s == s[..|s| - |t|] + s[|s| - |t|..];
  }

  lemma TrailingWhitespaceSplits(t: string)
    ensures t == TrimEnd(t) + t[|TrimEnd(t)|..]
  {
    var r := TrimEnd(t);
    assert t == t[..|r|] + t[|r|..];
  }

  lemma ConcatenateCuts3(s: string, lead: string, t: string, r: string, trail: string)
    requires s == lead + t && t == r + trail
    ensures s == lead + r + trail
  {
    assert lead + r + trail == lead + (r + trail);
  }

  // ---------------------------------------------------------------------------
  // Decimal digits
  // ---------------------------------------------------------------------------

  /** A radix-10 digit; parseInt and the regular expression escape `\d` both accept only these. */
  predicate IsDigit(c: char) {
    '0' <= c <= '9'
  }

  predicate AllDigits(s: string) {
    forall i :: 0 <= i < |s| ==> IsDigit(s[i])
  }

  function DigitValue(c: char): (d: nat)
    requires IsDigit(c)
    ensures d < 10
  {
    (c as int) - ('0' as int)
  }

  function DigitChar(d: nat): (c: char)
    requires d < 10
    ensures IsDigit(c) && DigitValue(c) == d
  {
    (('0' as int) + d) as char
  }

  /** The longest prefix of decimal digits. */
  function DigitRun(s: string): (r: string)
    ensures |r| <= |s| && r == s[..|r|]
    ensures AllDigits(r)
    ensures |r| < |s| ==> !IsDigit(s[|r|])
  {
    if s != [] && IsDigit(s[0]) then [s[0]] + DigitRun(s[1..]) else []
  }

  /** The integer represented by a digit string, most significant digit first. */
  function DecimalValue(ds: string): nat
    requires AllDigits(ds)
  {
    if ds == [] then 0 else 10 * DecimalValue(ds[..|ds| - 1]) + DigitValue(ds[|ds| - 1])
  }

  /** The shortest decimal rendering of a natural number: no leading zero except for 0 itself. */
  function DecimalString(n: nat): (r: string)
    ensures r != [] && AllDigits(r)
    ensures r[0] == '0' <==> n == 0
  {
    if n < 10 then [DigitChar(n)] else DecimalString(n / 10) + [DigitChar(n % 10)]
  }

  lemma {:induction false} DecimalRoundTrip(n: nat)
    ensures DecimalValue(DecimalString(n)) == n
  {
    if n >= 10 {
      var s := DecimalString(n);
      assert s[..|s| - 1] == DecimalString(n / 10);
      DecimalRoundTrip(n / 10);
    }
  }

  lemma {:induction false} DigitRunPrefix(ds: string, rest: string)
    requires AllDigits(ds)
    requires rest == [] || !IsDigit(rest[0])
    ensures DigitRun(ds + rest) == ds
  {
    if ds != [] {
      assert (ds + rest)[1..] == ds[1..] + rest;
      DigitRunPrefix(ds[1..], rest);
    }
  }

  /** A digit string stands for zero exactly when every digit is '0'. */
  lemma {:induction false} DecimalValueZero(ds: string)
    requires AllDigits(ds)
    ensures DecimalValue(ds) == 0 <==> forall i :: 0 <= i < |ds| ==> ds[i] == '0'
  {
    if ds != [] {
      var init := ds[..|ds| - 1];
      DecimalValueZero(init);
      assert forall i :: 0 <= i < |init| ==> init[i] == ds[i];
    }
  }

  // ---------------------------------------------------------------------------
  // parseInt(string, 10) and Number comparisons
  // ---------------------------------------------------------------------------

  /** The digits parseInt reads: after leading whitespace and at most one sign. */
  function SignAndDigits(s: string): (r: (bool, string))
  {
    var t := TrimStart(s);
    var negative := t != [] && t[0] == '-';
    var u := if t != [] && (t[0] == '+' || t[0] == '-') then t[1..] else t;
    (negative, DigitRun(u))
  }

  /** parseInt(s, 10) on integers (section 19.2.5 of ECMA-262): skip leading whitespace,
      take one optional sign, read the longest run of decimal digits; None stands for NaN. */
  function ParseIntPrefix(s: string): Option<int>
  {
    var (negative, z) := SignAndDigits(s);
    if z == [] then None
    else
      var v: int := DecimalValue(z);
      Some(if negative then -v else v)
  }

  /** A JavaScript Number as parseInt produces it: NaN or an integer value
      (+0 and -0 are both Int(0); no comparison made here tells them apart). */
  datatype Number = NaN | Int(value: int)

  function ParseInt(s: string): Number {
    match ParseIntPrefix(s)
    case None => NaN
    case Some(v) => Int(v)
  }

  /** Unary `+` on a value that is already a Number leaves it as it is. */
  function UnaryPlus(n: Number): Number {
    n
  }

  /** `a === b` on Numbers: NaN equals nothing, itself included. */
  predicate StrictEquals(a: Number, b: Number) {
    a.Int? && b.Int? && a.value == b.value
  }

  /** `a <= b` on Numbers: false whenever either side is NaN. */
  predicate LessOrEqual(a: Number, b: Number) {
    a.Int? && b.Int? && a.value <= b.value
  }

  /** The text parseInt reads, cut into its parts: leading whitespace, an optional sign,
      a non-empty digit run, and a rest that does not continue the run. */
  predicate NumeralShape(ws: string, sign: string, digits: string, rest: string) {
    && AllWhitespace(ws)
    && (sign == "" || sign == "+" || sign == "-")
    && digits != [] && AllDigits(digits)
    && (rest == [] || !IsDigit(rest[0]))
  }

  /** parseInt reads the value of the digit run, signed, and ignores whatever follows it. */
  lemma ParseIntPrefixOfNumeral(ws: string, sign: string, digits: string, rest: string)
    requires NumeralShape(ws, sign, digits, rest)
    ensures ParseIntPrefix(ws + sign + digits + rest)
         == Some(if sign == "-" then 0 - DecimalValue(digits) else DecimalValue(digits))
  {
    SignAndDigitsOfNumeral(ws, sign, digits, rest);
  }

  lemma SignAndDigitsOfNumeral(ws: string, sign: string, digits: string, rest: string)
    requires NumeralShape(ws, sign, digits, rest)
    ensures SignAndDigits(ws + sign + digits + rest) == (sign == "-", digits)
  {
    DigitRunPrefix(digits, rest);
    if sign == "" {
      assert ws + sign + digits + rest == ws + (digits + rest);
      SignAndDigitsUnsigned(ws, digits + rest);
    } else {
      assert ws + sign + digits + rest == ws + ([sign[0]] + (digits + rest));
      SignAndDigitsSigned(ws, sign[0], digits + rest);
    }
  }

  lemma SignAndDigitsUnsigned(ws: string, body: string)
    requires AllWhitespace(ws)
    requires body != [] && IsDigit(body[0])
    ensures SignAndDigits(ws + body) == (false, DigitRun(body))
  {
    TrimStartPadded(ws, body);
  }

  lemma SignAndDigitsSigned(ws: string, sign: char, body: string)
    requires AllWhitespace(ws)
    requires sign == '+' || sign == '-'
    ensures SignAndDigits(ws + ([sign] + body)) == (sign == '-', DigitRun(body))
  {
    TrimStartPadded(ws, [sign] + body);
    assert ([sign] + body)[1..] == body;
  }

  /** parseInt yields NaN when, after the whitespace and one sign, no digit follows. */
  lemma ParseIntPrefixNaN(ws: string, sign: string, rest: string)
    requires AllWhitespace(ws)
    requires sign == "" || sign == "+" || sign == "-"
    requires rest == [] || (!IsDigit(rest[0]) && (sign != "" || (!IsWhitespace(rest[0]) && rest[0] != '+' && rest[0] != '-')))
    ensures ParseIntPrefix(ws + sign + rest) == None
  {
    if sign == "" {
      assert ws + sign + rest == ws + rest;
      TrimStartPadded(ws, rest);
    } else {
      assert ws + sign + rest == ws + ([sign[0]] + rest);
      SignAndDigitsSigned(ws, sign[0], rest);
    }
  }

  /** The decimal rendering of n, followed by anything that is not a digit, parses back to n. */
  lemma ParseIntRoundTrip(n: nat, rest: string)
    requires rest == [] || !IsDigit(rest[0])
    ensures ParseIntPrefix(DecimalString(n) + rest) == Some(n)
  {
    assert "" + "" + DecimalString(n) + rest == DecimalString(n) + rest;
    ParseIntPrefixOfNumeral("", "", DecimalString(n), rest);
    DecimalRoundTrip(n);
  }

  /** Every string cut the way parseInt reads it: all of its leading whitespace, the sign if one follows,
      the digit run after them, and the rest. The result is NaN exactly when the digit run
      is empty, and otherwise the signed value of the digits. */
  lemma ParseIntPrefixSplit(s: string) returns (ws: string, sign: string, digits: string, rest: string)
    ensures s == ws + sign + digits + rest
    ensures AllWhitespace(ws) && (sign == "" || sign == "+" || sign == "-")
    ensures AllDigits(digits) && (rest == [] || !IsDigit(rest[0]))
    ensures |ws| < |s| ==> !IsWhitespace(s[|ws|])
    ensures sign == "" && |ws| < |s| ==> s[|ws|] != '+' && s[|ws|] != '-'
    ensures ParseIntPrefix(s).Some? <==> digits != []
    ensures digits != [] ==>
      ParseIntPrefix(s) == Some(if sign == "-" then 0 - DecimalValue(digits) else DecimalValue(digits))
  {
    var t := TrimStart(s);
    ws := LeadingWhitespace(s);
    LeadingWhitespaceSplits(s);
    var u;
    sign, u := SplitSign(t);
    digits, rest := SplitDigitRun(u);
    ConcatenateCuts(s, ws, t, sign, u, digits, rest);
    ParseIntPrefixOfSignAndDigits(s, sign == "-", digits);
  }

  /** The digits parseInt reads from u, and what it ignores after them. */
  lemma SplitDigitRun(u: string) returns (digits: string, rest: string)
    ensures digits == DigitRun(u) && u == digits + rest
    ensures rest == [] || !IsDigit(rest[0])
  {
    digits := DigitRun(u);
    rest := u[|digits|..];
    assert u == u[..|digits|] + rest;
  }

  lemma ConcatenateCuts(s: string, ws: string, t: string, sign: string, u: string, digits: string, rest: string)
    requires s == ws + t && t == sign + u && u == digits + rest
    ensures s == ws + sign + digits + rest
  {
    assert ws + sign + digits + rest == ws + (sign + (digits + rest));
  }

  /** The sign parseInt takes off the front of the trimmed text, and what follows it. */
  lemma SplitSign(t: string) returns (sign: string, u: string)
    ensures t == sign + u
    ensures sign == "" || sign == "+" || sign == "-"
    ensures (sign == "-") == (t != [] && t[0] == '-')
    ensures sign == "" ==> t == [] || (t[0] != '+' && t[0] != '-')
    ensures u == if t != [] && (t[0] == '+' || t[0] == '-') then t[1..] else t
  {
    if t != [] && (t[0] == '+' || t[0] == '-') {
      sign, u := [t[0]], t[1..];
    } else {
      sign, u := "", t;
    }
  }

  lemma ParseIntPrefixOfSignAndDigits(s: string, negative: bool, digits: string)
    requires SignAndDigits(s) == (negative, digits)
    ensures AllDigits(digits)
    ensures ParseIntPrefix(s).Some? <==> digits != []
    ensures digits != [] ==>
      ParseIntPrefix(s) == Some(if negative then 0 - DecimalValue(digits) else DecimalValue(digits))
  {
  }

  /** parseInt reads a number from s exactly when s is a numeral (whitespace, at most one
      sign, a non-empty digit run) followed by a rest that does not continue the digits. */
  lemma ParseIntPrefixSomeIff(s: string)
    ensures ParseIntPrefix(s).Some?
        <==> exists ws, sign, digits, rest :: NumeralShape(ws, sign, digits, rest) && s == ws + sign + digits + rest
  {
    if ParseIntPrefix(s).Some? {
      var ws, sign, digits, rest := ParseIntPrefixSplit(s);
      assert NumeralShape(ws, sign, digits, rest);
    }
    if exists ws, sign, digits, rest :: NumeralShape(ws, sign, digits, rest) && s == ws + sign + digits + rest {
      var ws, sign, digits, rest :| NumeralShape(ws, sign, digits, rest) && s == ws + sign + digits + rest;
      ParseIntPrefixOfNumeral(ws, sign, digits, rest);
    }
  }

  // ---------------------------------------------------------------------------
  // Anchored regular expressions of digit classes and literal characters
  // ---------------------------------------------------------------------------

  /** One element of a pattern: the class `\d` or one literal character. */
  datatype Atom = AnyDigit | Literal(c: char)

  predicate AtomMatches(a: Atom, c: char) {
    match a
    case AnyDigit => IsDigit(c)
    case Literal(l) => c == l
  }

  /** RegExp.prototype.test for `^a1 a2 ... an$` (no flags): the whole input matches
      the atoms one character each, left to right. */
  predicate MatchesWhole(pattern: seq<Atom>, s: string) {
    if pattern == [] then s == []
    else s != [] && AtomMatches(pattern[0], s[0]) && MatchesWhole(pattern[1..], s[1..])
  }

  /** An anchored pattern of single-character atoms matches exactly the strings of its
      length whose every character matches the atom at the same position. */
  lemma {:induction false} MatchesWholePointwise(pattern: seq<Atom>, s: string)
    ensures MatchesWhole(pattern, s)
        <==> |s| == |pattern| && forall i :: 0 <= i < |s| ==> AtomMatches(pattern[i], s[i])
  {
    if pattern != [] && s != [] {
      MatchesWholePointwise(pattern[1..], s[1..]);
      if |s| == |pattern| && forall i :: 0 <= i < |s| ==> AtomMatches(pattern[i], s[i]) {
        assert forall i :: 0 <= i < |s| - 1 ==> AtomMatches(pattern[1..][i], s[1..][i]) by {
          forall i | 0 <= i < |s| - 1 ensures AtomMatches(pattern[1..][i], s[1..][i]) {
            assert AtomMatches(pattern[i + 1], s[i + 1]);
          }
        }
      }
      if MatchesWhole(pattern, s) {
        forall i | 0 <= i < |s| ensures AtomMatches(pattern[i], s[i]) {
          if i > 0 {
            assert AtomMatches(pattern[1..][i - 1], s[1..][i - 1]);
          }
        }
      }
    }
  }
}
