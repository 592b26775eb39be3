/**
 * The pieces of Rust's standard library that the battery reader relies on,
 * stated over `string` (a sequence of Unicode scalar values):
 * `str::trim`, `u32::from_str` and the decimal `Display` of `u32`.
 */
module StdText {
  import opened Wrappers

  const U32_MAX: int := 0xFFFF_FFFF

  /** Rust's `u32`. */
  type U32 = n: int | 0 <= n <= U32_MAX

  /** `char::is_whitespace`: the characters with the Unicode White_Space property. */
  predicate IsWhitespace(c: char)
  {
    ('\t' <= c <= '\r') || c == ' ' || c == '\U{0085}' || c == '\U{00A0}' || c == '\U{1680}'
    || ('\U{2000}' <= c <= '\U{200A}') || c == '\U{2028}' || c == '\U{2029}'
    || c == '\U{202F}' || c == '\U{205F}' || c == '\U{3000}'
  }

  predicate AllWhitespace(s: string)
  {
    forall k :: 0 <= k < |s| ==> IsWhitespace(s[k])
  }

  /** `str::trim_start`: drops the leading whitespace. */
  function TrimStart(s: string): (r: string)
    ensures |r| <= |s| && r == s[|s| - |r|..]
    ensures AllWhitespace(s[..|s| - |r|])
    ensures r == [] || !IsWhitespace(r[0])
  {
    if s != [] && IsWhitespace(s[0]) then TrimStart(s[1..]) else s
  }

  /** `str::trim_end`: drops the trailing whitespace. */
  function TrimEnd(s: string): (r: string)
    ensures |r| <= |s| && r == s[..|r|]
    ensures AllWhitespace(s[|r|..])
    ensures r == [] || !IsWhitespace(r[|r| - 1])
  {
    if s != [] && IsWhitespace(s[|s| - 1]) then TrimEnd(s[..|s| - 1]) else s
  }

  /** `str::trim`: the text without its leading and trailing whitespace. */
  function Trim(s: string): (r: string)
    ensures r == [] || (!IsWhitespace(r[0]) && !IsWhitespace(r[|r| - 1]))
  {
    TrimEnd(TrimStart(s))
  }

  /** The trim is a slice of the input with only whitespace cut from either side. */
  lemma TrimIsSlice(s: string)
    ensures exists i, j :: 0 <= i <= j <= |s| && Trim(s) == s[i..j] && AllWhitespace(s[..i]) && AllWhitespace(s[j..])
  {
    var t := TrimStart(s);
    var i := |s| - |t|;
    var j := i + |TrimEnd(t)|;
    assert t[|TrimEnd(t)|..] == s[j..];
    assert TrimEnd(t) == s[i..j];
  }

  lemma {:induction false} TrimStartAfterWhitespace(w: string, s: string)
    requires AllWhitespace(w)
    ensures TrimStart(w + s) == TrimStart(s)
  {
    if w == [] {
      assert w + s == s;
    } else {
      assert (w + s)[0] == w[0] && IsWhitespace(w[0]);
      assert (w + s)[1..] == w[1..] + s;
      assert AllWhitespace(w[1..]) by {
        forall k | 0 <= k < |w[1..]| ensures IsWhitespace(w[1..][k]) {
          assert w[1..][k] == w[k + 1];
        }
      }
      TrimStartAfterWhitespace(w[1..], s);
    }
  }

  lemma {:induction false} TrimStartBeforeChar(s: string, c: char)
    requires IsWhitespace(c)
    ensures TrimStart(s + [c]) == if TrimStart(s) == [] then [] else TrimStart(s) + [c]
  {
    if s == [] {
    } else if IsWhitespace(s[0]) {
      assert (s + [c])[1..] == s[1..] + [c];
      TrimStartBeforeChar(s[1..], c);
    }
  }

  lemma {:induction false} TrimIgnoresTrailingChar(s: string, c: char)
    requires IsWhitespace(c)
    ensures Trim(s + [c]) == Trim(s)
  {
    TrimStartBeforeChar(s, c);
    var t := TrimStart(s);
    if t != [] {
      assert (t + [c])[..|t|] == t;
    }
  }

  /** Whitespace after the text (the newline that ends every attribute file) does not change `trim`. */
  lemma {:induction false} TrimIgnoresTrailingWhitespace(s: string, w: string)
    requires AllWhitespace(w)
    ensures Trim(s + w) == Trim(s)
  {
    if w == [] {
      assert s + w == s;
    } else {
      var last := w[|w| - 1];
      var init := w[..|w| - 1];
      assert IsWhitespace(last);
      assert AllWhitespace(init) by {
        forall k | 0 <= k < |init| ensures IsWhitespace(init[k]) {
          assert init[k] == w[k];
        }
      }
      assert s + w == (s + init) + [last];
      calc {
        Trim(s + w);
        { TrimIgnoresTrailingChar(s + init, last); }
        Trim(s + init);
        { TrimIgnoresTrailingWhitespace(s, init); }
        Trim(s);
      }
    }
  }

  /** Whitespace before the text does not change `trim`. */
  lemma TrimIgnoresLeadingWhitespace(w: string, s: string)
    requires AllWhitespace(w)
    ensures Trim(w + s) == Trim(s)
  {
    TrimStartAfterWhitespace(w, s);
  }

  /** Text that neither starts nor ends with whitespace is its own trim. */
  lemma TrimOfTrimmed(s: string)
    requires s == [] || (!IsWhitespace(s[0]) && !IsWhitespace(s[|s| - 1]))
    ensures Trim(s) == s
  {
  }

  predicate IsDigit(c: char)
  {
    '0' <= c <= '9'
  }

  predicate AllDigits(s: string)
  {
    forall k :: 0 <= k < |s| ==> IsDigit(s[k])
  }

  function DigitValue(c: char): nat
    requires IsDigit(c)
  {
    (c as int) - ('0' as int)
  }

  /** The number a string of decimal digits denotes, most significant digit first. */
  function DigitsValue(s: string): nat
    requires AllDigits(s)
  {
    if s == [] then 0 else 10 * DigitsValue(s[..|s| - 1]) + DigitValue(s[|s| - 1])
  }

  /** The digits after an optional leading `+`, as `u32::from_str` reads them. */
  function UnsignedDigits(s: string): string
  {
    if s != [] && s[0] == '+' then s[1..] else s
  }

  /**
   * `u32::from_str`: an optional `+`, then at least one decimal digit. The empty
   * string and a sign alone are errors; so is any other character (a `-`, or
   * whitespace) and a value that does not fit in 32 bits.
   */
  function ParseU32(s: string): Option<U32>
  {
    if s == [] then None
    else if UnsignedDigits(s) == [] then None
    else AccumulateDigits(UnsignedDigits(s))
  }

  /**
   * The digit loop of `u32::from_str`: each character must be a digit, and the
   * value is multiplied by ten and the digit added with checked arithmetic.
   */
  function AccumulateDigits(digits: string): Option<U32>
  {
    if digits == [] then Some(0)
    else
      match AccumulateDigits(digits[..|digits| - 1])
      case None => None
      case Some(v) =>
        var c := digits[|digits| - 1];
        if IsDigit(c) && 10 * v + DigitValue(c) <= U32_MAX then Some(10 * v + DigitValue(c)) else None
  }

  /** The digit loop succeeds exactly on digit strings whose value fits in a `u32`, and gives that value. */
  lemma {:induction false} AccumulateDigitsValue(digits: string)
    ensures AccumulateDigits(digits) ==
      if AllDigits(digits) && DigitsValue(digits) <= U32_MAX then Some(DigitsValue(digits)) else None
  {
    if digits != [] {
      var init := digits[..|digits| - 1];
      var c := digits[|digits| - 1];
      AccumulateDigitsValue(init);
      assert AllDigits(digits) <==> AllDigits(init) && IsDigit(c) by {
        if AllDigits(init) && IsDigit(c) {
          forall k | 0 <= k < |digits| ensures IsDigit(digits[k]) {
            if k < |init| { assert digits[k] == init[k]; }
          }
        }
        if AllDigits(digits) {
          forall k | 0 <= k < |init| ensures IsDigit(init[k]) {
            assert init[k] == digits[k];
          }
        }
      }
    }
  }

  /** `u32::from_str` accepts exactly an optional `+` followed by digits whose value fits in a `u32`,
      and returns that value. */
  lemma ParseU32Accepts(s: string)
    ensures ParseU32(s).Some? <==>
      UnsignedDigits(s) != [] && AllDigits(UnsignedDigits(s)) && DigitsValue(UnsignedDigits(s)) <= U32_MAX
    ensures ParseU32(s).Some? ==> ParseU32(s).value == DigitsValue(UnsignedDigits(s))
  {
    AccumulateDigitsValue(UnsignedDigits(s));
  }

  function DigitChar(d: nat): (c: char)
    requires d < 10
    ensures IsDigit(c) && DigitValue(c) == d
  {
    ('0' as int + d) as char
  }

  /** `u32`'s `Display`: the shortest decimal numeral of `n`. */
  function DecimalString(n: nat): (r: string)
    ensures r != [] && AllDigits(r) && DigitsValue(r) == n
    ensures r[0] == '0' ==> r == "0"
  {
    if n < 10 then [DigitChar(n)]
    else
      var r := DecimalString(n / 10) + [DigitChar(n % 10)];
      assert r[..|r| - 1] == DecimalString(n / 10);
      r
  }

  /** Parsing the printed numeral of a `u32` gives the number back. */
  lemma ParseDecimalRoundTrip(n: U32)
    ensures ParseU32(DecimalString(n)) == Some(n)
  {
    ParseU32Accepts(DecimalString(n));
  }

  /** Text that parses starts and ends with something other than whitespace; so a newline
      left on the text makes the parse fail, which is why the reader trims first. */
  lemma ParseRejectsWhitespace(s: string)
    ensures ParseU32(s).Some? ==> s != [] && !IsWhitespace(s[0]) && !IsWhitespace(s[|s| - 1])
    ensures ParseU32(s + "\n").None?
  {
    ParseU32Accepts(s);
    var t := s + "\n";
    assert t[|t| - 1] == '\n';
    ParseU32Accepts(t);
  }
}
