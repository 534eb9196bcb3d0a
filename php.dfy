/**
 * The handful of PHP (and WordPress) builtins the plugin's core leans on,
 * written out on strings and integers so the rest of the model can use them:
 * `empty()` on strings, `trim`, `intval`, `explode`/`implode`, `str_replace`,
 * `strtolower`/`strtoupper`, integer formatting, and the random generators
 * `wp_generate_password(n, false)` and `bin2hex(random_bytes(n))` driven by an
 * explicit source of randomness.
 */
module Php {

  datatype Option<+T> = None | Some(value: T)

  datatype Result<+T, +E> = Success(value: T) | Failure(error: E)

  /** The value if there is one, else `default` (PHP's `$a ?? $default`). */
  function OrElse<T>(o: Option<T>, default: T): (r: T)
    ensures o.None? ==> r == default
    ensures o.Some? ==> r == o.value
  {
    if o.Some? then o.value else default
  }

  /** PHP_INT_MAX and PHP_INT_MIN on a 64-bit build. */
  const MaxInt: int := 0x7FFF_FFFF_FFFF_FFFF
  const MinInt: int := -0x8000_0000_0000_0000

  /** `empty($s)` for a string: only "" and "0" are empty. */
  predicate EmptyString(s: string) {
    s == "" || s == "0"
  }

  /** A randomness source: the i-th draw. */
  type Random = nat -> nat

  // ---------------------------------------------------------------------
  // Characters

  predicate IsDigit(c: char) { '0' <= c <= '9' }
  predicate IsUpper(c: char) { 'A' <= c <= 'Z' }
  predicate IsLower(c: char) { 'a' <= c <= 'z' }
  predicate IsAlnum(c: char) { IsDigit(c) || IsUpper(c) || IsLower(c) }

  /** The characters `trim()` strips by default: " \t\n\r\0\x0B". */
  predicate IsTrimChar(c: char) {
    c == ' ' || c == '\t' || c == '\n' || c == '\r' || c as int == 0 || c as int == 11
  }

  /** The leading whitespace `intval()` skips: " \t\n\r\v\f". */
  predicate IsNumericSpace(c: char) {
    c == ' ' || c == '\t' || c == '\n' || c == '\r' || c as int == 11 || c as int == 12
  }

  /** `strtolower` / `strtoupper` (ASCII letters only, as PHP 8 does). */
  function LowerChar(c: char): (r: char)
    ensures IsUpper(c) ==> IsLower(r)
    ensures !IsUpper(c) ==> r == c
  {
    if IsUpper(c) then (c as int + 32) as char else c
  }

  function UpperChar(c: char): (r: char)
    ensures IsLower(c) ==> IsUpper(r)
    ensures !IsLower(c) ==> r == c
  {
    if IsLower(c) then (c as int - 32) as char else c
  }

  function ToLower(s: string): (r: string)
    ensures |r| == |s|
    ensures forall i :: 0 <= i < |s| ==> r[i] == LowerChar(s[i])
  {
    if s == [] then [] else [LowerChar(s[0])] + ToLower(s[1..])
  }

  function ToUpper(s: string): (r: string)
    ensures |r| == |s|
    ensures forall i :: 0 <= i < |s| ==> r[i] == UpperChar(s[i])
  {
    if s == [] then [] else [UpperChar(s[0])] + ToUpper(s[1..])
  }

  lemma ToLowerConcat(a: string, b: string)
    ensures ToLower(a + b) == ToLower(a) + ToLower(b)
  {
  }

  // ---------------------------------------------------------------------
  // strlen

  /** Bytes of a character's UTF-8 encoding. */
  function Utf8Width(c: char): (n: nat)
    ensures 1 <= n <= 4
    ensures n == 1 <==> (c as int) < 0x80
  {
    if (c as int) < 0x80 then 1
    else if (c as int) < 0x800 then 2
    else if (c as int) < 0x10000 then 3
    else 4
  }

  /** `strlen($s)` of the UTF-8 text `s`: bytes, not characters. */
  function Strlen(s: string): (n: nat)
    ensures |s| <= n <= 4 * |s|
  {
    if s == [] then 0 else Utf8Width(s[0]) + Strlen(s[1..])
  }

  /** ASCII text has one byte per character. */
  lemma {:induction false} StrlenAscii(s: string)
    ensures Strlen(s) == |s| <==> forall i :: 0 <= i < |s| ==> (s[i] as int) < 0x80
  {
    if s != [] {
      StrlenAscii(s[1..]);
      if forall i :: 0 <= i < |s[1..]| ==> (s[1..][i] as int) < 0x80 {
        forall i | 0 <= i < |s| ensures (s[i] as int) < 0x80 <== (s[0] as int) < 0x80 {
          if i > 0 { assert s[i] == s[1..][i - 1]; }
        }
      }
      if forall i :: 0 <= i < |s| ==> (s[i] as int) < 0x80 {
        assert (s[0] as int) < 0x80;
        forall i | 0 <= i < |s[1..]| ensures (s[1..][i] as int) < 0x80 {
          assert s[1..][i] == s[i + 1];
        }
      }
    }
  }

  // ---------------------------------------------------------------------
  // trim

  function TrimLeft(s: string): (r: string)
    ensures |r| <= |s| && r == s[|s| - |r|..]
    ensures r != [] ==> !IsTrimChar(r[0])
    ensures forall i :: 0 <= i < |s| - |r| ==> IsTrimChar(s[i])
  {
    if s != [] && IsTrimChar(s[0]) then TrimLeft(s[1..]) else s
  }

  function TrimRight(s: string): (r: string)
    ensures |r| <= |s| && r == s[..|r|]
    ensures r != [] ==> !IsTrimChar(r[|r| - 1])
    ensures forall i :: |r| <= i < |s| ==> IsTrimChar(s[i])
  {
    if s != [] && IsTrimChar(s[|s| - 1]) then TrimRight(s[..|s| - 1]) else s
  }

  /** `trim($s)`. */
  function Trim(s: string): string {
    TrimRight(TrimLeft(s))
  }

  lemma TrimNoop(s: string)
    requires s == [] || (!IsTrimChar(s[0]) && !IsTrimChar(s[|s| - 1]))
    ensures Trim(s) == s
  {
  }

  // ---------------------------------------------------------------------
  // Integers and their decimal text

  function DigitChar(d: nat): (c: char)
    requires d < 10
    ensures IsDigit(c)
  {
    ('0' as int + d) as char
  }

  function DigitOf(c: char): (d: nat)
    requires IsDigit(c)
    ensures d < 10 && DigitChar(d) == c
  {
    c as int - '0' as int
  }

  /** Decimal text of a natural number, without leading zeros. */
  function NatToString(n: nat): (r: string)
    ensures |r| >= 1
    ensures forall i :: 0 <= i < |r| ==> IsDigit(r[i])
    ensures n >= 10 ==> r[0] != '0'
  {
    if n < 10 then [DigitChar(n)] else NatToString(n / 10) + [DigitChar(n % 10)]
  }

  /** Decimal text of an integer, with a leading '-' for negatives (PHP's `(string)$i`, `%d`). */
  function IntToString(i: int): (r: string)
    ensures |r| >= 1
  {
    if i < 0 then "-" + NatToString(-i) else NatToString(i)
  }

  /** `array_map('strval', $ids)`: each integer's decimal text, in order. */
  function IntStrings(ids: seq<int>): (r: seq<string>)
    ensures |r| == |ids|
  {
    if ids == [] then [] else IntStrings(ids[..|ids| - 1]) + [IntToString(ids[|ids| - 1])]
  }

  lemma {:induction false} IntStringsAt(ids: seq<int>, i: int)
    requires 0 <= i < |ids|
    ensures IntStrings(ids)[i] == IntToString(ids[i])
  {
    var n := |ids| - 1;
    if i < n {
      IntStringsAt(ids[..n], i);
    }
  }

  /** The number written by a string of digits (most significant first). */
  function DigitsValue(s: string): nat
    requires forall i :: 0 <= i < |s| ==> IsDigit(s[i])
  {
    if s == [] then 0 else DigitsValue(s[..|s| - 1]) * 10 + DigitOf(s[|s| - 1])
  }

  lemma {:induction false} DigitsValueOfNatToString(n: nat)
    ensures DigitsValue(NatToString(n)) == n
  {
    var s := NatToString(n);
    if n >= 10 {
      DigitsValueOfNatToString(n / 10);
      assert s[..|s| - 1] == NatToString(n / 10);
    }
  }

  /** Length of the longest prefix of `s` made of digits. */
  function DigitRun(s: string): (k: nat)
    ensures k <= |s|
    ensures forall i :: 0 <= i < k ==> IsDigit(s[i])
    ensures k < |s| ==> !IsDigit(s[k])
  {
    if s != [] && IsDigit(s[0]) then 1 + DigitRun(s[1..]) else 0
  }

  function SkipNumericSpace(s: string): (r: string)
    ensures |r| <= |s| && r == s[|s| - |r|..]
    ensures r != [] ==> !IsNumericSpace(r[0])
  {
    if s != [] && IsNumericSpace(s[0]) then SkipNumericSpace(s[1..]) else s
  }

  function Clamp(i: int): (r: int)
    ensures MinInt <= r <= MaxInt
    ensures MinInt <= i <= MaxInt ==> r == i
  {
    if i > MaxInt then MaxInt else if i < MinInt then MinInt else i
  }

  /**
   * `intval($s)` for a string in base 10: leading whitespace, an optional
   * sign and the longest run of digits; anything else gives 0; values beyond
   * the 64-bit range saturate.
   */
  function Intval(s: string): (r: int)
    ensures MinInt <= r <= MaxInt
  {
    var t := SkipNumericSpace(s);
    if t != [] && (t[0] == '-' || t[0] == '+') then
      var k := DigitRun(t[1..]);
      var v: int := DigitsValue(t[1..][..k]);
      Clamp(if t[0] == '-' then -v else v)
    else
      Clamp(DigitsValue(t[..DigitRun(t)]))
  }

  /** True when `intval`-style parsing finds digits at all (PHP 8 throws on arithmetic otherwise). */
  predicate LeadingNumeric(s: string) {
    var t := SkipNumericSpace(s);
    if t != [] && (t[0] == '-' || t[0] == '+') then DigitRun(t[1..]) > 0 else DigitRun(t) > 0
  }

  lemma {:induction false} IntvalOfNatToString(n: nat)
    requires n <= MaxInt
    ensures Intval(NatToString(n)) == n
  {
    var s := NatToString(n);
    DigitsValueOfNatToString(n);
    DigitRunAllDigits(s);
    IntvalOfDigitRun(s);
    assert s[..|s|] == s;
  }

  /** Text that starts with a digit is read as its leading run of digits. */
  lemma IntvalOfDigitRun(s: string)
    requires s != [] && IsDigit(s[0])
    ensures Intval(s) == Clamp(DigitsValue(s[..DigitRun(s)]))
  {
    assert SkipNumericSpace(s) == s;
  }

  lemma {:induction false} DigitRunAllDigits(s: string)
    requires forall i :: 0 <= i < |s| ==> IsDigit(s[i])
    ensures DigitRun(s) == |s|
  {
    if s != [] {
      DigitRunAllDigits(s[1..]);
    }
  }

  // ---------------------------------------------------------------------
  // explode / implode

  /** `explode($sep, $s)` for a one-character separator: never empty. */
  function Explode(sep: char, s: string): (r: seq<string>)
    ensures |r| >= 1
    ensures forall i :: 0 <= i < |r| ==> sep !in r[i]
  {
    if s == [] then [""]
    else if s[0] == sep then [""] + Explode(sep, s[1..])
    else
      var rest := Explode(sep, s[1..]);
      [[s[0]] + rest[0]] + rest[1..]
  }

  /** `implode($sep, $parts)`. */
  function Implode(sep: string, parts: seq<string>): string {
    if |parts| == 0 then ""
    else if |parts| == 1 then parts[0]
    else parts[0] + sep + Implode(sep, parts[1..])
  }

  lemma {:induction false} ExplodeNoSep(sep: char, p: string)
    requires sep !in p
    ensures Explode(sep, p) == [p]
  {
    if p != [] {
      ExplodeNoSep(sep, p[1..]);
      assert [p[0]] + p[1..] == p;
    }
  }

  lemma {:induction false} ExplodeSplit(sep: char, p: string, rest: string)
    requires sep !in p
    ensures Explode(sep, p + [sep] + rest) == [p] + Explode(sep, rest)
  {
    if p == [] {
      assert p + [sep] + rest == [sep] + rest;
      assert ([sep] + rest)[1..] == rest;
    } else {
      assert (p + [sep] + rest)[1..] == p[1..] + [sep] + rest;
      ExplodeSplit(sep, p[1..], rest);
      assert [p[0]] + p[1..] == p;
    }
  }

  /** Splitting a joined list gives the list back when no piece holds the separator. */
  lemma {:induction false} ExplodeImplode(sep: char, parts: seq<string>)
    requires |parts| >= 1
    requires forall i :: 0 <= i < |parts| ==> sep !in parts[i]
    ensures Explode(sep, Implode([sep], parts)) == parts
  {
    if |parts| == 1 {
      ExplodeNoSep(sep, parts[0]);
    } else {
      ExplodeImplode(sep, parts[1..]);
      ExplodeSplit(sep, parts[0], Implode([sep], parts[1..]));
      assert [parts[0]] + parts[1..] == parts;
    }
  }

  // ---------------------------------------------------------------------
  // Searching and replacing

  predicate StartsWith(s: string, prefix: string) {
    |prefix| <= |s| && s[..|prefix|] == prefix
  }

  predicate EndsWith(s: string, suffix: string) {
    |suffix| <= |s| && s[|s| - |suffix|..] == suffix
  }

  predicate OccursAt(s: string, needle: string, i: int) {
    0 <= i <= |s| - |needle| && s[i..i + |needle|] == needle
  }

  /** `strpos($s, $needle) !== false`. */
  predicate Contains(s: string, needle: string) {
    exists i | 0 <= i <= |s| - |needle| :: OccursAt(s, needle, i)
  }

  /** `str_replace($search, $replace, $s)`: every non-overlapping occurrence, left to right. */
  function StrReplace(search: string, replace: string, s: string): string
    decreases |s|
  {
    if search == [] || |s| < |search| then s
    else if s[..|search|] == search then replace + StrReplace(search, replace, s[|search|..])
    else [s[0]] + StrReplace(search, replace, s[1..])
  }

  /** `str_replace` of one character by another. */
  function ReplaceChar(from: char, to: char, s: string): (r: string)
    ensures |r| == |s|
    ensures forall i :: 0 <= i < |s| ==> r[i] == if s[i] == from then to else s[i]
  {
    if s == [] then [] else [if s[0] == from then to else s[0]] + ReplaceChar(from, to, s[1..])
  }

  lemma {:induction false} StrReplaceOneChar(from: char, to: char, s: string)
    ensures StrReplace([from], [to], s) == ReplaceChar(from, to, s)
  {
    if s != [] {
      StrReplaceOneChar(from, to, s[1..]);
    }
  }

  lemma {:induction false} StrReplaceAbsent(search: string, replace: string, s: string)
    requires !Contains(s, search)
    ensures StrReplace(search, replace, s) == s
    decreases |s|
  {
    if search != [] && |s| >= |search| {
      assert !OccursAt(s, search, 0);
      assert s[0..0 + |search|] == s[..|search|];
      forall i | OccursAt(s[1..], search, i)
        ensures false
      {
        assert s[1..][i..i + |search|] == s[i + 1..i + 1 + |search|];
        assert OccursAt(s, search, i + 1);
      }
      StrReplaceAbsent(search, replace, s[1..]);
    }
  }

  lemma StrReplaceLeading(search: string, replace: string, rest: string)
    requires search != []
    ensures StrReplace(search, replace, search + rest) == replace + StrReplace(search, replace, rest)
  {
    assert (search + rest)[..|search|] == search;
    assert (search + rest)[|search|..] == rest;
  }

  // ---------------------------------------------------------------------
  // Random generators

  /** The k-th character of `wp_generate_password`'s alphabet without special characters. */
  function PasswordChar(k: nat): (c: char)
    ensures IsAlnum(c)
  {
    var k := k % 62;
    if k < 26 then ('a' as int + k) as char
    else if k < 52 then ('A' as int + (k - 26)) as char
    else DigitChar(k - 52)
  }

  function HexDigit(k: nat): (c: char)
    ensures IsDigit(c) || 'a' <= c <= 'f'
  {
    var k := k % 16;
    if k < 10 then DigitChar(k) else ('a' as int + (k - 10)) as char
  }

  /** `wp_generate_password(n, false)`: n characters drawn from letters and digits. */
  function GeneratePassword(n: nat, rnd: Random): (r: string)
    ensures |r| == n
    ensures forall i :: 0 <= i < n ==> IsAlnum(r[i])
  {
    if n == 0 then [] else GeneratePassword(n - 1, rnd) + [PasswordChar(rnd(n - 1))]
  }

  /** `bin2hex(random_bytes(n))`: 2n lower-case hexadecimal digits. */
  function RandomHex(n: nat, rnd: Random): (r: string)
    ensures |r| == 2 * n
    ensures forall i :: 0 <= i < 2 * n ==> IsDigit(r[i]) || 'a' <= r[i] <= 'f'
  {
    if n == 0 then [] else RandomHex(n - 1, rnd) + [HexDigit(rnd(2 * n - 2)), HexDigit(rnd(2 * n - 1))]
  }

  /** `'FOMO' . strtoupper(wp_generate_password(8, false))`. */
  function GenerateCouponCode(rnd: Random): (code: string)
    ensures |code| == 12 && StartsWith(code, "FOMO")
    ensures forall i :: 4 <= i < 12 ==> IsDigit(code[i]) || IsUpper(code[i])
  {
    "FOMO" + ToUpper(GeneratePassword(8, rnd))
  }
}
