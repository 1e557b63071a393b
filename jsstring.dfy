/** The three JavaScript string built-ins the folder screen relies on:
    `String.prototype.trim`, `String.prototype.toLowerCase` and
    `Number.prototype.toString` on a non-negative integer. */
module JsString {

  /** ECMAScript WhiteSpace and LineTerminator code points: the set `trim` strips. */
  predicate IsWhiteSpace(c: char) {
    var n := c as int;
    n == 0x09 || n == 0x0B || n == 0x0C || n == 0x20 || n == 0xA0 || n == 0xFEFF   // WhiteSpace
    || n == 0x1680 || (0x2000 <= n <= 0x200A) || n == 0x202F || n == 0x205F || n == 0x3000  // Zs
    || n == 0x0A || n == 0x0D || n == 0x2028 || n == 0x2029                                // LineTerminator
  }

  /** Every character of `s` from index `lo` up to (not including) `hi` is white space. */
  predicate WhiteBetween(s: string, lo: nat, hi: nat)
    requires lo <= hi <= |s|
  {
    forall k :: lo <= k < hi ==> IsWhiteSpace(s[k])
  }

  predicate AllWhiteSpace(s: string) {
    WhiteBetween(s, 0, |s|)
  }

  /** Drops the leading white space: the result is a suffix of `s`, everything cut
      off is white space, and what is left does not start with white space. */
  function TrimStart(s: string): (r: string)
    ensures |r| <= |s| && r == s[|s| - |r|..]
    ensures WhiteBetween(s, 0, |s| - |r|)
    ensures r != [] ==> !IsWhiteSpace(r[0])
  {
    if |s| > 0 && IsWhiteSpace(s[0]) then TrimStart(s[1..]) else s
  }

  /** Drops the trailing white space: the result is a prefix of `s`, everything cut
      off is white space, and what is left does not end with white space. */
  function TrimEnd(s: string): (r: string)
    ensures |r| <= |s| && r == s[..|r|]
    ensures WhiteBetween(s, |r|, |s|)
    ensures r != [] ==> !IsWhiteSpace(r[|r| - 1])
  {
    if |s| > 0 && IsWhiteSpace(s[|s| - 1]) then TrimEnd(s[..|s| - 1]) else s
  }

  /** `trim()`: the longest middle slice of `s` that neither starts nor ends with
      white space; empty exactly when `s` is all white space. */
  function Trim(s: string): (r: string)
    ensures |r| <= |s|
    ensures r == [] <==> AllWhiteSpace(s)
    ensures r != [] ==> !IsWhiteSpace(r[0]) && !IsWhiteSpace(r[|r| - 1])
  {
    var t := TrimStart(s);
    var r := TrimEnd(t);
    TrimEmptyIffWhite(s);
    assert r != [] ==> r[0] == t[0];
    r
  }

  lemma TrimEmptyIffWhite(s: string)
    ensures TrimEnd(TrimStart(s)) == [] <==> AllWhiteSpace(s)
  {
    var t := TrimStart(s);
    var r := TrimEnd(t);
    var cut := |s| - |t|;
    if r == [] {
      assert t == [];
    } else {
      assert r[0] == t[0] == s[cut];
    }
  }

  /** The untrimmed text around the result is white space and the result sits in
      between. */
  lemma TrimSlice(s: string) returns (i: nat, j: nat)
    ensures i <= j <= |s| && Trim(s) == s[i..j]
    ensures WhiteBetween(s, 0, i) && WhiteBetween(s, j, |s|)
  {
    var t := TrimStart(s);
    var r := TrimEnd(t);
    i := |s| - |t|;
    j := i + |r|;
    assert r == s[i..j];
    forall k | j <= k < |s| ensures IsWhiteSpace(s[k]) {
      assert s[k] == t[k - i];
    }
  }

  lemma TrimIdempotent(s: string)
    ensures Trim(Trim(s)) == Trim(s)
  {
    var r := Trim(s);
    assert TrimStart(r) == r;
    assert TrimEnd(r) == r;
  }

  lemma {:induction false} TrimStartPast(lead: string, rest: string)
    requires AllWhiteSpace(lead)
    requires rest == [] || !IsWhiteSpace(rest[0])
    ensures TrimStart(lead + rest) == rest
  {
    if lead == [] {
      assert lead + rest == rest;
    } else {
      assert (lead + rest)[1..] == lead[1..] + rest;
      TrimStartPast(lead[1..], rest);
    }
  }

  lemma {:induction false} TrimEndPast(rest: string, tail: string)
    requires AllWhiteSpace(tail)
    requires rest == [] || !IsWhiteSpace(rest[|rest| - 1])
    ensures TrimEnd(rest + tail) == rest
  {
    if tail == [] {
      assert rest + tail == rest;
    } else {
      var shorter := tail[..|tail| - 1];
      assert (rest + tail)[..|rest + tail| - 1] == rest + shorter;
      TrimEndPast(rest, shorter);
    }
  }

  /** Trimming ignores any white space put around an already trimmed text. */
  lemma TrimPadded(lead: string, s: string, tail: string)
    requires AllWhiteSpace(lead) && AllWhiteSpace(tail)
    ensures Trim(lead + Trim(s) + tail) == Trim(s)
  {
    var c := Trim(s);
    var padded := lead + c + tail;
    if c == [] {
      assert padded == lead + tail;
      forall k | 0 <= k < |padded| ensures IsWhiteSpace(padded[k]) {
        if k < |lead| { assert padded[k] == lead[k]; } else { assert padded[k] == tail[k - |lead|]; }
      }
      assert AllWhiteSpace(padded);
    } else {
      assert padded == lead + (c + tail);
      TrimStartPast(lead, c + tail);
      TrimEndPast(c, tail);
    }
  }

  /** The capital letters `toLowerCase` folds here: ASCII A-Z and the Latin-1
      capitals U+00C0-U+00DE other than the multiplication sign U+00D7. */
  predicate IsUpper(c: char) {
    var n := c as int;
    (0x41 <= n <= 0x5A) || (0xC0 <= n <= 0xDE && n != 0xD7)
  }

  function LowerChar(c: char): (r: char)
    ensures !IsUpper(r)
    ensures IsUpper(c) ==> r as int == c as int + 0x20
    ensures !IsUpper(c) ==> r == c
  {
    if IsUpper(c) then (c as int + 0x20) as char else c
  }

  /** `toLowerCase()`: same length, no capital left, every capital replaced by its
      small letter and every other character kept. */
  function ToLower(s: string): (r: string)
    ensures |r| == |s|
    ensures forall k :: 0 <= k < |s| ==> !IsUpper(r[k])
    ensures forall k :: 0 <= k < |s| && IsUpper(s[k]) ==> r[k] as int == s[k] as int + 0x20
    ensures forall k :: 0 <= k < |s| && !IsUpper(s[k]) ==> r[k] == s[k]
  {
    if s == [] then [] else [LowerChar(s[0])] + ToLower(s[1..])
  }

  /** Lower-casing never turns a visible character into white space. */
  lemma LowerCharKeepsNonWhiteSpace(c: char)
    requires !IsWhiteSpace(c)
    ensures !IsWhiteSpace(LowerChar(c))
  {
  }

  lemma ToLowerIdempotent(s: string)
    ensures ToLower(ToLower(s)) == ToLower(s)
  {
    var r := ToLower(s);
    assert ToLower(r) == r;
  }

  /** Two strings that differ only in the case of their letters lower to the same text. */
  lemma ToLowerIgnoresCase(a: string, b: string)
    requires |a| == |b|
    requires forall k :: 0 <= k < |a| ==>
               a[k] == b[k]
               || (IsUpper(a[k]) && b[k] as int == a[k] as int + 0x20)
               || (IsUpper(b[k]) && a[k] as int == b[k] as int + 0x20)
    ensures ToLower(a) == ToLower(b)
  {
    var la, lb := ToLower(a), ToLower(b);
    forall k | 0 <= k < |a| ensures la[k] == lb[k] {
      assert la[k] == LowerChar(a[k]) && lb[k] == LowerChar(b[k]);
    }
  }

  predicate IsDigit(c: char) {
    0x30 <= c as int <= 0x39
  }

  function DigitChar(d: nat): (c: char)
    requires d < 10
    ensures IsDigit(c) && DigitValue(c) == d
  {
    (0x30 + d) as char
  }

  function DigitValue(c: char): nat
    requires IsDigit(c)
  {
    c as int - 0x30
  }

  /** `toString()` of a non-negative integer below 10^21: its decimal digits,
      most significant first, with no leading zero. */
  function DecimalString(n: nat): (r: string)
    ensures |r| > 0
    ensures forall k :: 0 <= k < |r| ==> IsDigit(r[k])
    ensures |r| > 1 ==> DigitValue(r[0]) != 0
  {
    if n < 10 then [DigitChar(n)] else DecimalString(n / 10) + [DigitChar(n % 10)]
  }

  /** Reads a string of decimal digits back as a number (the reference for
      `DecimalString`). */
  function ParseDecimal(s: string): nat
    requires forall k :: 0 <= k < |s| ==> IsDigit(s[k])
  {
    if s == [] then 0
    else ParseDecimal(s[..|s| - 1]) * 10 + DigitValue(s[|s| - 1])
  }

  lemma {:induction false} ParseDecimalString(n: nat)
    ensures ParseDecimal(DecimalString(n)) == n
  {
    var s := DecimalString(n);
    if n >= 10 {
      assert s[..|s| - 1] == DecimalString(n / 10);
      ParseDecimalString(n / 10);
    } else {
      assert s[..0] == [];
    }
  }

  /** Different numbers never print alike. */
  lemma DecimalStringInjective(m: nat, n: nat)
    requires DecimalString(m) == DecimalString(n)
    ensures m == n
  {
    ParseDecimalString(m);
    ParseDecimalString(n);
  }
}
