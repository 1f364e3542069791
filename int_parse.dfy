/** Rust's `str::parse::<i32>`: an optional `+` or `-`, then one or more
    ASCII decimal digits, and a value within the 32-bit signed range.
    The kind of a parse error is not kept (the game discards it), so a
    failure is `None`. */
module IntParse {
  import opened Wrappers

  const MinI32: int := -0x8000_0000
  const MaxI32: int := 0x7fff_ffff

  predicate InI32(n: int) {
    MinI32 <= n <= MaxI32
  }

  predicate IsDigit(c: char) {
    '0' <= c <= '9'
  }

  predicate IsSign(c: char) {
    c == '+' || c == '-'
  }

  predicate AllDigits(s: string) {
    forall i :: 0 <= i < |s| ==> IsDigit(s[i])
  }

  function DigitValue(c: char): (d: nat)
    requires IsDigit(c)
    ensures d < 10
  {
    c as int - '0' as int
  }

  function DigitChar(d: nat): (c: char)
    requires d < 10
    ensures IsDigit(c) && DigitValue(c) == d
  {
    ('0' as int + d) as char
  }

  /** The value of a string of decimal digits, most significant digit first. */
  function DigitsValue(s: string): nat
    requires AllDigits(s)
  {
    if s == [] then 0
    else DigitsValue(s[..|s| - 1]) * 10 + DigitValue(s[|s| - 1])
  }

  /** The text after a leading sign, if there is one. */
  function Magnitude(s: string): string {
    if |s| > 0 && IsSign(s[0]) then s[1..] else s
  }

  predicate IsNegative(s: string) {
    |s| > 0 && s[0] == '-'
  }

  /** `s.parse::<i32>()`: `Some(v)` for `Ok(v)`, `None` for every `Err`
      (empty text, a lone sign, a character that is not a digit after the
      optional sign, or a value outside the i32 range). */
  function ParseI32(s: string): (r: Option<int>)
    ensures r.Some? ==> InI32(r.value)
  {
    var digits := Magnitude(s);
    if digits == [] || !AllDigits(digits) then None
    else
      var m: int := DigitsValue(digits);
      var v := if IsNegative(s) then -m else m;
      if InI32(v) then Some(v) else None
  }

  /** The shape of text that `ParseI32` can accept, stated one character
      at a time: a digit or a sign first, digits after it, and at least
      one digit in all. */
  predicate IsIntLiteral(s: string) {
    |s| > 0 &&
    (IsDigit(s[0]) || (IsSign(s[0]) && |s| > 1)) &&
    forall i :: 1 <= i < |s| ==> IsDigit(s[i])
  }

  /** The shortest decimal notation of a natural number. */
  function NatDigits(n: nat): (r: string)
    ensures |r| > 0 && AllDigits(r)
    ensures |r| > 1 ==> r[0] != '0'
    decreases n
  {
    if n < 10 then [DigitChar(n)]
    else NatDigits(n / 10) + [DigitChar(n % 10)]
  }

  /** The decimal notation of an integer as Rust's `Display` writes it:
      a `-` for negative values and no leading zeros. It is the inverse
      against which `ParseI32` is checked. */
  function FormatI32(n: int): string {
    if n < 0 then ['-'] + NatDigits(-n) else NatDigits(n)
  }

  /** Canonical notation: no `+`, no leading zero, no `-0`. */
  predicate IsCanonical(s: string) {
    var d := Magnitude(s);
    |s| > 0 && s[0] != '+' && |d| > 0 &&
    (|d| > 1 ==> d[0] != '0') &&
    (IsNegative(s) ==> d != ['0'])
  }

  // ---------------------------------------------------------------------
  // Properties of the parser

  /** Whatever the parser accepts has the literal shape. */
  lemma ParseAcceptsOnlyLiterals(s: string)
    ensures ParseI32(s).Some? ==> IsIntLiteral(s)
  {
    if ParseI32(s).Some? {
      var d := Magnitude(s);
      assert forall i :: 1 <= i < |s| ==> s[i] == (if IsSign(s[0]) then d[i - 1] else d[i]);
    }
  }

  /** No whitespace is skipped: text holding a space, tab or newline
      is rejected. */
  lemma ParseRejectsWhitespace(s: string, i: nat)
    requires i < |s| && s[i] in {' ', '\t', '\n', '\r'}
    ensures ParseI32(s) == None
  {
    ParseAcceptsOnlyLiterals(s);
  }

  /** Empty text and a lone sign are rejected. */
  lemma ParseRejectsEmptyAndLoneSign()
    ensures ParseI32("") == None
    ensures ParseI32("+") == None
    ensures ParseI32("-") == None
  {
  }

  /** Negative zero is accepted, with any number of zeros, and is 0. */
  lemma {:induction false} ParseNegativeZero(z: string)
    requires z != [] && forall i :: 0 <= i < |z| ==> z[i] == '0'
    ensures ParseI32(['-'] + z) == Some(0) && ParseI32(z) == Some(0)
    decreases |z|
  {
    assert Magnitude(['-'] + z) == z;
    assert Magnitude(z) == z;
    if |z| == 1 {
      assert z[..0] == [] && DigitsValue(z) == 0;
    } else {
      ParseNegativeZero(z[1..]);
      assert z == ['0'] + z[1..];
      LeadingZeroValue(z[1..]);
    }
  }

  /** A leading zero does not change the value of a digit string. */
  lemma {:induction false} LeadingZeroValue(d: string)
    requires AllDigits(d)
    ensures AllDigits(['0'] + d) && DigitsValue(['0'] + d) == DigitsValue(d)
  {
    var z := ['0'] + d;
    assert forall i :: 0 <= i < |z| ==> z[i] == (if i == 0 then '0' else d[i - 1]);
    if d != [] {
      assert z[..|z| - 1] == ['0'] + d[..|d| - 1];
      LeadingZeroValue(d[..|d| - 1]);
    }
  }

  /** Leading zeros are accepted and ignored, after a sign or without one. */
  lemma ParseIgnoresLeadingZero(sign: string, d: string)
    requires sign in {"", "+", "-"}
    requires AllDigits(d) && d != []
    ensures ParseI32(sign + ['0'] + d) == ParseI32(sign + d)
  {
    LeadingZeroValue(d);
    assert Magnitude(sign + ['0'] + d) == ['0'] + d;
    assert Magnitude(sign + d) == d;
  }

  /** A leading `+` is accepted and ignored. */
  lemma ParseIgnoresPlus(d: string)
    requires AllDigits(d)
    ensures ParseI32(['+'] + d) == ParseI32(d)
  {
    assert Magnitude(['+'] + d) == d;
    if d != [] {
      assert Magnitude(d) == d;
    }
  }

  lemma {:induction false} NatDigitsValue(n: nat)
    ensures DigitsValue(NatDigits(n)) == n
    decreases n
  {
    var r := NatDigits(n);
    if n >= 10 {
      assert r[..|r| - 1] == NatDigits(n / 10);
      NatDigitsValue(n / 10);
    }
  }

  /** Round trip: every i32 value is read back from its own notation. */
  lemma ParseFormat(n: int)
    requires InI32(n)
    ensures ParseI32(FormatI32(n)) == Some(n)
  {
    var s := FormatI32(n);
    NatDigitsValue(if n < 0 then -n else n);
    if n < 0 {
      assert Magnitude(s) == NatDigits(-n);
    } else {
      assert Magnitude(s) == NatDigits(n);
    }
  }

  lemma {:induction false} DigitsValuePositive(d: string)
    requires AllDigits(d) && |d| > 0 && d[0] != '0'
    ensures DigitsValue(d) > 0
  {
    if |d| > 1 {
      DigitsValuePositive(d[..|d| - 1]);
    }
  }

  lemma {:induction false} DigitsValueFormat(d: string)
    requires AllDigits(d) && |d| > 0
    requires |d| > 1 ==> d[0] != '0'
    ensures NatDigits(DigitsValue(d)) == d
  {
    if |d| > 1 {
      var p := d[..|d| - 1];
      DigitsValuePositive(p);
      DigitsValueFormat(p);
      var n := DigitsValue(d);
      assert n / 10 == DigitsValue(p) && n % 10 == DigitValue(d[|d| - 1]);
      assert d == p + [d[|d| - 1]];
    }
  }

  /** Round trip the other way: canonical text that parses is exactly the
      notation of its value. With `ParseFormat` this makes `FormatI32` a
      bijection between i32 values and canonical literals. */
  lemma FormatParse(s: string)
    requires IsCanonical(s) && ParseI32(s).Some?
    ensures FormatI32(ParseI32(s).value) == s
  {
    var d := Magnitude(s);
    DigitsValueFormat(d);
    if IsNegative(s) {
      DigitsValuePositive(d);
      assert s == ['-'] + d;
    }
  }

  lemma DigitsValueSnoc(p: string, c: char)
    requires AllDigits(p) && IsDigit(c)
    ensures AllDigits(p + [c]) && DigitsValue(p + [c]) == DigitsValue(p) * 10 + DigitValue(c)
  {
    assert (p + [c])[..|p|] == p;
  }

  /** The value of the nine leading digits shared by the i32 bounds. */
  lemma BoundPrefixValue()
    ensures DigitsValue("214748364") == 214748364
  {
    assert DigitsValue("2") == 2;
    DigitsValueSnoc("2", '1');
    assert "2" + ['1'] == "21";
    DigitsValueSnoc("21", '4');
    assert "21" + ['4'] == "214";
    DigitsValueSnoc("214", '7');
    assert "214" + ['7'] == "2147";
    DigitsValueSnoc("2147", '4');
    assert "2147" + ['4'] == "21474";
    DigitsValueSnoc("21474", '8');
    assert "21474" + ['8'] == "214748";
    DigitsValueSnoc("214748", '3');
    assert "214748" + ['3'] == "2147483";
    DigitsValueSnoc("2147483", '6');
    assert "2147483" + ['6'] == "21474836";
    DigitsValueSnoc("21474836", '4');
    assert "21474836" + ['4'] == "214748364";
  }

  /** The i32 bounds are accepted, and one step beyond either is rejected. */
  lemma ParseBounds()
    ensures ParseI32("2147483647") == Some(MaxI32)
    ensures ParseI32("-2147483648") == Some(MinI32)
    ensures ParseI32("2147483648") == None
    ensures ParseI32("-2147483649") == None
  {
    var p := "214748364";
    BoundPrefixValue();
    DigitsValueSnoc(p, '7');
    DigitsValueSnoc(p, '8');
    DigitsValueSnoc(p, '9');
    assert p + ['7'] == "2147483647";
    assert p + ['8'] == "2147483648";
    assert p + ['9'] == "2147483649";
    assert Magnitude("-2147483648") == "2147483648";
    assert Magnitude("-2147483649") == "2147483649";
  }
}
