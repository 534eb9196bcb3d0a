/**
 * Input validation (`WCFD\Core\Validator`): guard chains for campaign ids,
 * discount values, free text, e-mail addresses and client IPs, the CIDR
 * ban list, and the per-field error map the validator accumulates.
 *
 * Each guard chain is a pure decision function returning the accepted value
 * or the message it records; the validator object's methods apply the
 * decision and update the error map in place.
 */
module Validation {
  import opened Php

  // ---------------------------------------------------------------------
  // The error map: PHP array keyed by field, kept in insertion order.

  type ErrorMap = seq<(string, string)>

  function Fields(m: ErrorMap): (r: seq<string>)
    ensures |r| == |m| && forall i :: 0 <= i < |m| ==> r[i] == m[i].0
  {
    if m == [] then [] else [m[0].0] + Fields(m[1..])
  }

  function Messages(m: ErrorMap): (r: seq<string>)
    ensures |r| == |m| && forall i :: 0 <= i < |m| ==> r[i] == m[i].1
  {
    if m == [] then [] else [m[0].1] + Messages(m[1..])
  }

  /** No field occurs twice, as in a PHP array. */
  predicate DistinctFields(m: ErrorMap) {
    forall i, j :: 0 <= i < j < |m| ==> m[i].0 != m[j].0
  }

  /** `$errors[$field] ?? null`. */
  function Lookup(m: ErrorMap, field: string): (r: Option<string>)
    ensures r.Some? <==> field in Fields(m)
  {
    if m == [] then None
    else if m[0].0 == field then Some(m[0].1)
    else Lookup(m[1..], field)
  }

  /** `$errors[$field] = $message`: overwrite in place if present, else append. */
  function Put(m: ErrorMap, field: string, message: string): (r: ErrorMap)
    ensures Lookup(r, field) == Some(message)
    ensures forall f :: f != field ==> Lookup(r, f) == Lookup(m, f)
  {
    if m == [] then [(field, message)]
    else if m[0].0 == field then [(field, message)] + m[1..]
    else [m[0]] + Put(m[1..], field, message)
  }

  /** Overwriting keeps the field order; a new field goes last. */
  lemma {:induction false} PutFields(m: ErrorMap, field: string, message: string)
    ensures Fields(Put(m, field, message)) == if field in Fields(m) then Fields(m) else Fields(m) + [field]
  {
    if m != [] && m[0].0 != field {
      var tail := Put(m[1..], field, message);
      PutFields(m[1..], field, message);
      assert ([m[0]] + tail)[1..] == tail;
      assert Fields(m) == [m[0].0] + Fields(m[1..]);
      assert field in Fields(m) <==> field in Fields(m[1..]);
    } else if m != [] {
      assert ([(field, message)] + m[1..])[1..] == m[1..];
      assert field in Fields(m) by { assert Fields(m)[0] == field; }
    }
  }

  /** A new field's message goes last. */
  lemma {:induction false} PutMessages(m: ErrorMap, field: string, message: string)
    requires field !in Fields(m)
    ensures Messages(Put(m, field, message)) == Messages(m) + [message]
  {
    if m != [] {
      assert m[0].0 != field by { assert Fields(m)[0] == m[0].0; }
      assert field !in Fields(m[1..]) by {
        forall i | 0 <= i < |m| - 1 ensures Fields(m[1..])[i] != field {
          assert Fields(m[1..])[i] == m[i + 1].0 == Fields(m)[i + 1];
        }
      }
      var tail := Put(m[1..], field, message);
      PutMessages(m[1..], field, message);
      assert ([m[0]] + tail)[1..] == tail;
    }
  }

  lemma {:induction false} PutKeepsDistinct(m: ErrorMap, field: string, message: string)
    requires DistinctFields(m)
    ensures DistinctFields(Put(m, field, message))
  {
    var r := Put(m, field, message);
    PutFields(m, field, message);
    forall i, j | 0 <= i < j < |r| ensures r[i].0 != r[j].0 {
      assert Fields(r)[i] == r[i].0 && Fields(r)[j] == r[j].0;
      if field in Fields(m) {
        assert Fields(m)[i] == m[i].0 && Fields(m)[j] == m[j].0;
      } else if j < |m| {
        assert Fields(m)[i] == m[i].0 && Fields(m)[j] == m[j].0;
      } else {
        assert Fields(m)[i] == m[i].0;
      }
    }
  }

  /** `get_error_message()`: '' for no errors, otherwise the messages joined with '. '. */
  function ErrorMessage(m: ErrorMap): (s: string)
    ensures m == [] ==> s == ""
    ensures |m| == 1 ==> s == m[0].1
  {
    Implode(". ", Messages(m))
  }

  lemma ErrorMessageAppend(m: ErrorMap, field: string, message: string)
    requires m != [] && field !in Fields(m)
    ensures ErrorMessage(Put(m, field, message)) == ErrorMessage(m) + ". " + message
  {
    PutMessages(m, field, message);
    ImplodeSnoc(". ", Messages(m), message);
  }

  lemma {:induction false} ImplodeSnoc(sep: string, parts: seq<string>, last: string)
    requires parts != []
    ensures Implode(sep, parts + [last]) == Implode(sep, parts) + sep + last
  {
    if |parts| > 1 {
      assert (parts + [last])[1..] == parts[1..] + [last];
      ImplodeSnoc(sep, parts[1..], last);
    }
  }

  // ---------------------------------------------------------------------
  // Mixed PHP values for the campaign id

  /** A request parameter: a string from the form or an integer already converted. */
  datatype Scalar = Str(s: string) | Int(i: int)

  predicate ScalarEmpty(x: Scalar) {
    match x
    case Str(s) => EmptyString(s)
    case Int(i) => i == 0
  }

  function ScalarIntval(x: Scalar): int {
    match x
    case Str(s) => Intval(s)
    case Int(i) => i
  }

  /** `validate_campaign_id`: the positive integer, or the message it records. */
  function CampaignIdCheck(x: Scalar): (r: Result<int, string>)
    ensures r.Success? <==> !ScalarEmpty(x) && ScalarIntval(x) > 0
    ensures r.Success? ==> r.value == ScalarIntval(x) && r.value > 0
    ensures r.Failure? && ScalarEmpty(x) ==> r.error == "Campaign ID is required"
    ensures r.Failure? && !ScalarEmpty(x) ==> r.error == "Invalid campaign ID"
  {
    if ScalarEmpty(x) then Failure("Campaign ID is required")
    else
      var id := ScalarIntval(x);
      // `$campaign_id > PHP_INT_MAX` can never hold for an integer.
      if id <= 0 then Failure("Invalid campaign ID") else Success(id)
  }

  /** The decimal form of a positive id is accepted as that id; a non-positive one is refused. */
  lemma CampaignIdOfDecimal(n: nat)
    requires n <= MaxInt
    ensures CampaignIdCheck(Str(NatToString(n))) == if n > 0 then Success(n) else Failure("Campaign ID is required")
  {
    IntvalOfNatToString(n);
    IntvalOfNatToString(0);
    assert NatToString(0) == "0";
  }

  lemma CampaignIdExamples()
    ensures CampaignIdCheck(Str("123")) == Success(123)
    ensures CampaignIdCheck(Int(1)) == Success(1)
    ensures CampaignIdCheck(Str("")).Failure?
    ensures CampaignIdCheck(Int(-1)).Failure?
    ensures CampaignIdCheck(Int(0)).Failure?
  {
    assert NatToString(123) == "123" by {
      assert NatToString(1) == "1";
      assert NatToString(12) == NatToString(1) + "2";
    }
    CampaignIdOfDecimal(123);
  }

  /** A string with no leading digits reads as 0 and is refused. */
  lemma CampaignIdNonNumeric(s: string)
    requires s != [] && !IsNumericSpace(s[0]) && !IsDigit(s[0]) && s[0] != '-' && s[0] != '+'
    ensures CampaignIdCheck(Str(s)).Failure?
  {
    assert SkipNumericSpace(s) == s;
    assert DigitRun(s) == 0;
    assert s[..0] == [];
  }

  // ---------------------------------------------------------------------
  // Discount values

  /** The discount value as it arrives: null, the empty string, or a number (after `floatval`). */
  datatype DiscountInput = NullValue | BlankValue | Number(value: real)

  /** The `wcfd_max_fixed_discount` filter's default. */
  const MaxFixedDiscount: real := 10000.0

  /** `validate_discount_value`; `price` stands for `wc_price` in the message. */
  function DiscountCheck(value: DiscountInput, discountType: string, price: real -> string): (r: Result<real, string>)
    ensures r.Success? <==> (value.Number? && value.value >= 0.0
      && (discountType == "percent" ==> value.value <= 100.0)
      && (discountType == "fixed" ==> value.value <= MaxFixedDiscount))
    ensures r.Success? ==> r.value == value.value
    ensures !value.Number? ==> r == Failure("Discount value is required")
  {
    match value
    case NullValue => Failure("Discount value is required")
    case BlankValue => Failure("Discount value is required")
    case Number(v) =>
      if v < 0.0 then Failure("Discount value cannot be negative")
      else if discountType == "percent" && v > 100.0 then Failure("Percentage discount cannot exceed 100%")
      else if discountType == "fixed" && v > MaxFixedDiscount then
        Failure("Fixed discount cannot exceed " + price(MaxFixedDiscount))
      else Success(v)
  }

  lemma DiscountExamples(price: real -> string)
    ensures DiscountCheck(Number(10.5), "percent", price) == Success(10.5)
    ensures DiscountCheck(Number(100.0), "percent", price) == Success(100.0)
    ensures DiscountCheck(Number(101.0), "percent", price) == Failure("Percentage discount cannot exceed 100%")
    ensures DiscountCheck(Number(-5.0), "percent", price) == Failure("Discount value cannot be negative")
    ensures DiscountCheck(Number(25.99), "fixed", price) == Success(25.99)
    ensures DiscountCheck(Number(-10.0), "fixed", price) == Failure("Discount value cannot be negative")
    ensures DiscountCheck(Number(10001.0), "fixed", price).Failure?
  {
  }

  /** Any other type skips the type-specific bound: only negatives are refused. */
  lemma DiscountOtherTypeUnbounded(v: real, t: string, price: real -> string)
    requires t != "percent" && t != "fixed" && v >= 0.0
    ensures DiscountCheck(Number(v), t, price) == Success(v)
  {
  }

  // ---------------------------------------------------------------------
  // Free text

  /** The options of `validate_text` after `wp_parse_args` with its defaults. */
  datatype TextOptions = TextOptions(
    required: bool, minLength: int, maxLength: int, pattern: Option<string>, allowedHtml: bool)

  const DefaultTextOptions: TextOptions := TextOptions(false, 0, 500, None, false)

  /** PHP truthiness of the pattern option. */
  predicate PatternGiven(p: Option<string>) {
    p.Some? && !EmptyString(p.value)
  }

  /**
   * `validate_text`. `kses` and `sanitizeText` stand for `wp_kses_post` and
   * `sanitize_text_field`, `pregMatch(pattern, subject)` for `preg_match`.
   */
  function TextCheck(input: string, o: TextOptions,
                     kses: string -> string, sanitizeText: string -> string,
                     pregMatch: (string, string) -> bool): (r: Result<string, string>)
    ensures r.Success? <==>
      var clean := if o.allowedHtml then kses(input) else sanitizeText(input);
      !(o.required && EmptyString(input))
      && o.minLength <= Strlen(clean) <= o.maxLength
      && (PatternGiven(o.pattern) ==> pregMatch(o.pattern.value, clean))
    ensures r.Success? ==> r.value == if o.allowedHtml then kses(input) else sanitizeText(input)
    ensures o.required && EmptyString(input) ==> r == Failure("This field is required")
  {
    if o.required && EmptyString(input) then Failure("This field is required")
    else
      var clean := if o.allowedHtml then kses(input) else sanitizeText(input);
      if Strlen(clean) < o.minLength then Failure("Minimum length is " + IntToString(o.minLength) + " characters")
      else if Strlen(clean) > o.maxLength then Failure("Maximum length is " + IntToString(o.maxLength) + " characters")
      else if PatternGiven(o.pattern) && !pregMatch(o.pattern.value, clean) then Failure("Invalid format")
      else Success(clean)
  }

  /** With the defaults, text whose sanitized form has at most 500 UTF-8 bytes is accepted unchanged. */
  lemma TextDefaults(input: string, kses: string -> string, sanitizeText: string -> string,
                     pregMatch: (string, string) -> bool)
    requires sanitizeText(input) == input && Strlen(input) <= 500
    ensures TextCheck(input, DefaultTextOptions, kses, sanitizeText, pregMatch) == Success(input)
  {
  }

  /** Plain text passes; an empty required field does not. */
  lemma TextExamplesPlain(kses: string -> string, sanitizeText: string -> string, pregMatch: (string, string) -> bool)
    requires forall s :: sanitizeText(s) == s
    ensures TextCheck("Hello World", DefaultTextOptions, kses, sanitizeText, pregMatch) == Success("Hello World")
    ensures TextCheck("", DefaultTextOptions.(required := true), kses, sanitizeText, pregMatch).Failure?
  {
  }

  /** Lengths inside the bounds pass, lengths outside them do not. */
  lemma TextExamplesLength(kses: string -> string, sanitizeText: string -> string, pregMatch: (string, string) -> bool)
    requires forall s :: sanitizeText(s) == s
    ensures TextCheck("Hello", DefaultTextOptions.(minLength := 5, maxLength := 10), kses, sanitizeText, pregMatch) == Success("Hello")
    ensures TextCheck("Hi", DefaultTextOptions.(minLength := 5, maxLength := 10), kses, sanitizeText, pregMatch).Failure?
    ensures TextCheck("This is too long", DefaultTextOptions.(minLength := 5, maxLength := 10), kses, sanitizeText, pregMatch).Failure?
  {
  }

  /** The length bounds count UTF-8 bytes: three two-byte letters exceed a 5-character maximum. */
  lemma TextLengthCountsBytes(kses: string -> string, sanitizeText: string -> string, pregMatch: (string, string) -> bool)
    requires forall s :: sanitizeText(s) == s
    ensures TextCheck("\U{e9}\U{e9}\U{e9}", DefaultTextOptions.(maxLength := 5), kses, sanitizeText, pregMatch).Failure?
  {
    var t := "\U{e9}\U{e9}\U{e9}";
    assert t[1..][1..][1..] == [];
    assert Strlen(t) == 6;
  }

  /** The pattern decides, through `preg_match`. */
  lemma TextExamplesPattern(kses: string -> string, sanitizeText: string -> string, pregMatch: (string, string) -> bool)
    requires forall s :: sanitizeText(s) == s
    requires pregMatch("/^[A-Z]+$/", "HELLO") && !pregMatch("/^[A-Z]+$/", "hello")
    ensures TextCheck("HELLO", DefaultTextOptions.(pattern := Some("/^[A-Z]+$/")), kses, sanitizeText, pregMatch) == Success("HELLO")
    ensures TextCheck("hello", DefaultTextOptions.(pattern := Some("/^[A-Z]+$/")), kses, sanitizeText, pregMatch).Failure?
  {
  }

  // ---------------------------------------------------------------------
  // E-mail addresses

  /** The default `wcfd_disposable_email_domains` list. */
  const DisposableDomains: seq<string> :=
    ["mailinator.com", "guerrillamail.com", "10minutemail.com", "tempmail.com", "throwaway.email"]

  /** `substr(strrchr($email, '@'), 1)`: the text after the last '@', or '' when there is none. */
  function DomainOf(email: string): (d: string)
    ensures |d| <= |email| && EndsWith(email, d)
    ensures '@' !in d
    ensures '@' in email ==> EndsWith(email, "@" + d)
    ensures '@' !in email ==> d == ""
  {
    if email == [] then ""
    else
      var init, last := email[..|email| - 1], email[|email| - 1];
      assert email == init + [last];
      if last == '@' then
        assert email[|email| - 1..] == "@" + "";
        ""
      else if '@' in init then
        var d := DomainOf(init);
        assert email[|email| - |d| - 1..] == init[|init| - |d|..] + [last];
        assert email[|email| - |d| - 2..] == init[|init| - |d| - 1..] + [last];
        d + [last]
      else
        ""
  }

  predicate IsDisposable(email: string) {
    DomainOf(email) in DisposableDomains
  }

  /** The longest address accepted, in bytes (`strlen`). */
  const MaxEmailLength: nat := 254

  /**
   * `validate_email` with the DNS check at its default (off). `sanitize` and
   * `isEmail` stand for `sanitize_email` and `is_email`.
   */
  function EmailCheck(email: string, sanitize: string -> string, isEmail: string -> bool): (r: Result<string, string>)
    ensures r.Success? <==>
      !EmptyString(email) && isEmail(sanitize(email)) && Strlen(sanitize(email)) <= MaxEmailLength
      && !IsDisposable(sanitize(email))
    ensures r.Success? ==> r.value == sanitize(email)
    ensures EmptyString(email) ==> r == Failure("Email is required")
  {
    if EmptyString(email) then Failure("Email is required")
    else
      var e := sanitize(email);
      if !isEmail(e) then Failure("Invalid email format")
      else if Strlen(e) > MaxEmailLength then Failure("Email address is too long")
      else if IsDisposable(e) then Failure("Disposable email addresses are not allowed")
      else Success(e)
  }

  /** An address at a listed disposable domain is refused whatever `is_email` says of it. */
  lemma DisposableRefused(local: string, i: nat, sanitize: string -> string, isEmail: string -> bool)
    requires i < |DisposableDomains| && '@' !in local
    requires sanitize(local + "@" + DisposableDomains[i]) == local + "@" + DisposableDomains[i]
    ensures EmailCheck(local + "@" + DisposableDomains[i], sanitize, isEmail).Failure?
  {
    var e := local + "@" + DisposableDomains[i];
    DomainAfterLastAt(local, DisposableDomains[i]);
  }

  /** The domain of `local@domain` is `domain` when the domain has no '@'. */
  lemma DomainAfterLastAt(local: string, domain: string)
    requires '@' !in domain
    ensures DomainOf(local + "@" + domain) == domain
  {
    var e := local + "@" + domain;
    assert e[|local|] == '@';
    assert e[|e| - |"@" + domain|..] == "@" + domain;
    AtFreeSuffix(e, DomainOf(e), domain);
    AtFreeSuffix(e, domain, DomainOf(e));
  }

  /** Two '@'-free tails that each follow an '@' of the same text: the first is no longer than the second. */
  lemma AtFreeSuffix(e: string, d1: string, d2: string)
    requires EndsWith(e, "@" + d1) && EndsWith(e, "@" + d2)
    requires '@' !in d1
    ensures |d1| <= |d2| && d1 == e[|e| - |d1|..] && d2 == e[|e| - |d2|..]
  {
    forall k | |e| - |d1| <= k < |e| ensures e[k] != '@' {
      assert e[k] == d1[k - (|e| - |d1|)];
    }
    assert e[|e| - |d2| - 1] == '@';
    assert d1 == ("@" + d1)[1..] && d2 == ("@" + d2)[1..];
  }

  /** An address longer than 254 bytes is refused for its length. */
  lemma TooLongRefused(email: string, sanitize: string -> string, isEmail: string -> bool)
    requires !EmptyString(email) && isEmail(sanitize(email)) && Strlen(sanitize(email)) > MaxEmailLength
    ensures EmailCheck(email, sanitize, isEmail) == Failure("Email address is too long")
  {
  }

  // ---------------------------------------------------------------------
  // IPv4 numbers and CIDR ranges

  function Pow2(n: nat): (p: nat)
    ensures p >= 1
  {
    if n == 0 then 1 else 2 * Pow2(n - 1)
  }

  const Two32: nat := 0x1_0000_0000

  lemma {:induction false} Pow2Add(a: nat, b: nat)
    ensures Pow2(a + b) == Pow2(a) * Pow2(b)
  {
    if a > 0 {
      Pow2Add(a - 1, b);
      assert Pow2(a + b) == 2 * Pow2(a - 1 + b);
    }
  }

  lemma Pow2Of32()
    ensures Pow2(32) == Two32
  {
    assert Pow2(4) == 16;
    Pow2Add(4, 4);
    Pow2Add(8, 8);
    Pow2Add(16, 16);
  }

  /** `x >> s` on a non-negative number. */
  function Shr(x: nat, s: nat): nat {
    if s == 0 then x else Shr(x / 2, s - 1)
  }

  /** `y << s` on a non-negative number. */
  function Shl(y: nat, s: nat): nat {
    if s == 0 then y else 2 * Shl(y, s - 1)
  }

  /**
   * `$x & (-1 << $s)` for the non-negative `ip2long` values: the bits from
   * `s` upward are kept (PHP's shift by 64 or more gives 0, as this does for
   * 32-bit values).
   */
  function KeepHigh(x: nat, s: nat): nat {
    Shl(Shr(x, s), s)
  }

  /** Bit `k` of `x`. */
  predicate Bit(x: nat, k: nat) {
    Shr(x, k) % 2 == 1
  }

  lemma {:induction false} ShrStep(x: nat, s: nat)
    ensures Shr(x, s + 1) == Shr(x, s) / 2
  {
    if s > 0 {
      ShrStep(x / 2, s - 1);
    }
  }

  lemma {:induction false} ShrSmall(x: nat, s: nat)
    requires x < Pow2(s)
    ensures Shr(x, s) == 0
  {
    if s > 0 {
      ShrSmall(x / 2, s - 1);
    }
  }

  lemma {:induction false} ShrMonotone(x: nat, s: nat, t: nat)
    requires s <= t && Shr(x, s) == 0
    ensures Shr(x, t) == 0
    decreases t - s
  {
    if s < t {
      ShrStep(x, s);
      ShrMonotone(x, s + 1, t);
    }
  }

  lemma {:induction false} ShlInjective(y: nat, z: nat, s: nat)
    ensures Shl(y, s) == Shl(z, s) <==> y == z
  {
    if s > 0 {
      ShlInjective(y, z, s - 1);
    }
  }

  /** For 32-bit values, keeping the bits from `s` upward agrees exactly when every bit from `s` to 31 agrees. */
  lemma {:induction false} KeepHighIffBits(a: nat, b: nat, s: nat)
    requires a < Two32 && b < Two32 && s <= 32
    ensures KeepHigh(a, s) == KeepHigh(b, s) <==> forall k :: s <= k < 32 ==> (Bit(a, k) <==> Bit(b, k))
    decreases 32 - s
  {
    ShlInjective(Shr(a, s), Shr(b, s), s);
    if s == 32 {
      Pow2Of32();
      ShrSmall(a, 32);
      ShrSmall(b, 32);
    } else {
      KeepHighIffBits(a, b, s + 1);
      ShlInjective(Shr(a, s + 1), Shr(b, s + 1), s + 1);
      ShrStep(a, s);
      ShrStep(b, s);
      var x, y := Shr(a, s), Shr(b, s);
      assert x == y <==> (x % 2 == y % 2 && x / 2 == y / 2);
      assert (x % 2 == 1 <==> y % 2 == 1) <==> x % 2 == y % 2;
      assert (forall k :: s <= k < 32 ==> (Bit(a, k) <==> Bit(b, k)))
        <==> (Bit(a, s) <==> Bit(b, s)) && (forall k :: s + 1 <= k < 32 ==> (Bit(a, k) <==> Bit(b, k)));
    }
  }

  /** The top `mask` bits of two 32-bit addresses agree (all of them for mask ≥ 32, none for mask ≤ 0). */
  predicate PrefixAgrees(a: nat, b: nat, mask: int) {
    forall k :: 0 <= k < 32 && 32 - mask <= k ==> (Bit(a, k) <==> Bit(b, k))
  }

  /** One dotted-quad part: 1-3 digits, no leading zero, at most 255 (glibc `inet_pton`). */
  function Octet(p: string): (r: Option<nat>)
    ensures r.Some? ==> r.value < 256
  {
    if 1 <= |p| <= 3 && (forall i :: 0 <= i < |p| ==> IsDigit(p[i])) && (|p| == 1 || p[0] != '0')
       && DigitsValue(p) <= 255
    then Some(DigitsValue(p))
    else None
  }

  /** `ip2long`: the 32-bit number of a dotted-quad IPv4 address, `None` for `false`. */
  function Ip2Long(s: string): (r: Option<nat>)
    ensures r.Some? ==> r.value < Two32
    ensures ':' in s ==> r.None?
  {
    var parts := Explode('.', s);
    if |parts| != 4 then None
    else
      match (Octet(parts[0]), Octet(parts[1]), Octet(parts[2]), Octet(parts[3]))
      case (Some(a), Some(b), Some(c), Some(d)) =>
        assert ':' !in s by { ColonFreeParts(s); }
        var ab := a * 256 + b;
        assert ab < 65536;
        var abc := ab * 256 + c;
        assert abc < 16777216;
        Some(abc * 256 + d)
      case _ => None
  }

  /** If every piece of a dotted split is made of digits, the whole string holds no ':'. */
  lemma {:induction false} ColonFreeParts(s: string)
    requires forall i :: 0 <= i < |Explode('.', s)| ==> ':' !in Explode('.', s)[i]
    ensures ':' !in s
  {
    if s != [] {
      var rest := Explode('.', s[1..]);
      if s[0] == '.' {
        assert Explode('.', s) == [""] + rest;
        forall i | 0 <= i < |rest| ensures ':' !in rest[i] {
          assert rest[i] == Explode('.', s)[i + 1];
        }
      } else {
        assert Explode('.', s)[0] == [s[0]] + rest[0];
        forall i | 0 <= i < |rest| ensures ':' !in rest[i] {
          if i > 0 { assert rest[i] == Explode('.', s)[i]; }
          else { assert rest[0] == Explode('.', s)[0][1..]; }
        }
      }
      ColonFreeParts(s[1..]);
    }
  }

  /** `ip2long($x)` used as a number: `false` counts as 0. */
  function LongOrZero(s: string): (n: nat)
    ensures n < Two32
  {
    match Ip2Long(s)
    case Some(v) => v
    case None => 0
  }

  /**
   * `ip_in_range` as written. `None` is PHP's ArithmeticError for the
   * negative shift that a mask above 32 produces.
   */
  function IpInRangeAsWritten(ip: string, subnet: string, mask: int): (r: Option<bool>)
    ensures r.None? <==> mask > 32
  {
    if mask > 32 then None
    else Some(KeepHigh(LongOrZero(ip), 32 - mask) == KeepHigh(LongOrZero(subnet), 32 - mask))
  }

  /** The range test compares exactly the top `mask` bits of the two numbers. */
  lemma IpInRangeMeaning(ip: string, subnet: string, mask: int)
    requires mask <= 32
    ensures IpInRangeAsWritten(ip, subnet, mask) == Some(PrefixAgrees(LongOrZero(ip), LongOrZero(subnet), mask))
  {
    var a, b := LongOrZero(ip), LongOrZero(subnet);
    if mask >= 0 {
      KeepHighIffBits(a, b, 32 - mask);
    } else {
      Pow2Of32();
      ShrSmall(a, 32);
      ShrSmall(b, 32);
      ShrMonotone(a, 32, 32 - mask);
      ShrMonotone(b, 32, 32 - mask);
    }
  }

  /** Two addresses that `ip2long` cannot read both count as 0, so any range with mask ≤ 32 holds them. */
  lemma NonIpv4MatchesUnreadableSubnet(ip: string, subnet: string, mask: int)
    requires Ip2Long(ip).None? && Ip2Long(subnet).None? && mask <= 32
    ensures IpInRangeAsWritten(ip, subnet, mask) == Some(true)
  {
  }

  /** The IPv6 ban entry `2001:db8::/32` also covers the unrelated IPv6 client `fe80::1`. */
  lemma Ipv6BanCoversAllIpv6()
    ensures IpInRangeAsWritten("fe80::1", "2001:db8::", 32) == Some(true)
  {
    assert ':' in "fe80::1" by { assert "fe80::1"[4] == ':'; }
    assert ':' in "2001:db8::" by { assert "2001:db8::"[4] == ':'; }
  }

  /** The range test restricted to values `ip2long` can read: anything else is not in range. */
  function IpInRange(ip: string, subnet: string, mask: int): (r: Option<bool>)
    ensures r.None? <==> mask > 32
    ensures r == Some(true) ==> Ip2Long(ip).Some? && Ip2Long(subnet).Some?
    ensures r.Some? && Ip2Long(ip).Some? && Ip2Long(subnet).Some? ==>
      (r.value <==> PrefixAgrees(Ip2Long(ip).value, Ip2Long(subnet).value, mask))
  {
    if mask > 32 then None
    else if Ip2Long(ip).None? || Ip2Long(subnet).None? then Some(false)
    else
      IpInRangeMeaning(ip, subnet, mask);
      IpInRangeAsWritten(ip, subnet, mask)
  }

  /** The corrected test no longer places an IPv6 client in an IPv6 range. */
  lemma Ipv6NotInRange(ip: string, subnet: string, mask: int)
    requires ':' in ip && mask <= 32
    ensures IpInRange(ip, subnet, mask) == Some(false)
  {
  }

  // ---------------------------------------------------------------------
  // The ban list

  /** A '/' splits into at least two pieces. */
  lemma {:induction false} ExplodeHasSep(sep: char, s: string)
    requires sep in s
    ensures |Explode(sep, s)| >= 2
  {
    if s[0] != sep {
      ExplodeHasSep(sep, s[1..]);
    }
  }

  /**
   * Which range test the ban list uses: `ip_in_range` as written, or the
   * corrected one that puts no address `ip2long` cannot read in a range.
   */
  datatype RangeTest = AsWritten | Corrected

  function InRange(test: RangeTest, ip: string, subnet: string, mask: int): (r: Option<bool>)
    ensures r.None? <==> mask > 32
    ensures Ip2Long(ip).Some? && Ip2Long(subnet).Some? ==>
      r == IpInRangeAsWritten(ip, subnet, mask)
  {
    match test
    case AsWritten => IpInRangeAsWritten(ip, subnet, mask)
    case Corrected => IpInRange(ip, subnet, mask)
  }

  /**
   * One CIDR entry of the ban list: `list($subnet, $mask) = explode('/', …)`
   * and `ip_in_range`. `None` is a PHP Error: a mask that is not numeric
   * (TypeError on `32 - $mask`) or above 32.
   */
  function CidrEntryMatch(test: RangeTest, ip: string, entry: string): (r: Option<bool>)
    requires '/' in entry
    ensures r.None? <==> (!LeadingNumeric(MaskPart(entry)) || Intval(MaskPart(entry)) > 32)
  {
    if !LeadingNumeric(MaskPart(entry)) then None
    else InRange(test, ip, SubnetPart(entry), Intval(MaskPart(entry)))
  }

  /** `$subnet` and `$mask` of `list($subnet, $mask) = explode('/', $entry)`. */
  function SubnetPart(entry: string): (p: string)
    ensures '/' !in p
  {
    Explode('/', entry)[0]
  }

  function MaskPart(entry: string): (p: string)
    requires '/' in entry
    ensures '/' !in p
  {
    ExplodeHasSep('/', entry);
    Explode('/', entry)[1]
  }

  /** The loop over the entries that contain '/', stopping at the first match or Error. */
  function CidrScan(test: RangeTest, ip: string, entries: seq<string>): (r: Option<bool>)
    ensures r == Some(true) ==> exists i :: (0 <= i < |entries| && '/' in entries[i]
      && CidrEntryMatch(test, ip, entries[i]) == Some(true))
  {
    if entries == [] then Some(false)
    else
      var rest := CidrScan(test, ip, entries[1..]);
      if '/' !in entries[0] then
        (if rest == Some(true) then
          var i :| 0 <= i < |entries[1..]| && '/' in entries[1..][i] && CidrEntryMatch(test, ip, entries[1..][i]) == Some(true);
          assert entries[i + 1] == entries[1..][i];
          rest
        else rest)
      else
        match CidrEntryMatch(test, ip, entries[0])
        case None => None
        case Some(true) => Some(true)
        case Some(false) =>
          if rest == Some(true) then
            var i :| 0 <= i < |entries[1..]| && '/' in entries[1..][i] && CidrEntryMatch(test, ip, entries[1..][i]) == Some(true);
            assert entries[i + 1] == entries[1..][i];
            rest
          else rest
  }

  /** `is_banned_ip`: listed exactly, or inside a listed CIDR range. */
  function BannedSpec(test: RangeTest, ip: string, banned: seq<string>): (r: Option<bool>)
    ensures ip in banned ==> r == Some(true)
    ensures r == Some(true) ==> ip in banned || exists i :: (0 <= i < |banned| && '/' in banned[i]
      && CidrEntryMatch(test, ip, banned[i]) == Some(true))
  {
    if ip in banned then Some(true) else CidrScan(test, ip, banned)
  }

  /** Some CIDR entry of the list holds the client. */
  predicate InListedRange(test: RangeTest, ip: string, entries: seq<string>)
  {
    exists i :: 0 <= i < |entries| && '/' in entries[i] && CidrEntryMatch(test, ip, entries[i]) == Some(true)
  }

  /** A list holds the client in a range iff its head or its tail does. */
  lemma InListedRangeCons(test: RangeTest, ip: string, entries: seq<string>)
    requires entries != []
    ensures InListedRange(test, ip, entries) <==>
      (('/' in entries[0] && CidrEntryMatch(test, ip, entries[0]) == Some(true)) || InListedRange(test, ip, entries[1..]))
  {
    if InListedRange(test, ip, entries[1..]) {
      var i :| 0 <= i < |entries[1..]| && '/' in entries[1..][i] && CidrEntryMatch(test, ip, entries[1..][i]) == Some(true);
      assert entries[i + 1] == entries[1..][i];
    }
    if InListedRange(test, ip, entries) {
      var i :| 0 <= i < |entries| && '/' in entries[i] && CidrEntryMatch(test, ip, entries[i]) == Some(true);
      if i > 0 { assert entries[1..][i - 1] == entries[i]; }
    }
  }

  /** With no entry raising an Error, the scan decides exactly "inside some listed range". */
  lemma {:induction false} CidrScanNoError(test: RangeTest, ip: string, entries: seq<string>)
    requires forall i :: 0 <= i < |entries| && '/' in entries[i] ==> CidrEntryMatch(test, ip, entries[i]).Some?
    ensures CidrScan(test, ip, entries) == Some(InListedRange(test, ip, entries))
  {
    if entries != [] {
      assert forall i :: 0 <= i < |entries[1..]| && '/' in entries[1..][i] ==> CidrEntryMatch(test, ip, entries[1..][i]).Some? by {
        forall i | 0 <= i < |entries[1..]| && '/' in entries[1..][i]
          ensures CidrEntryMatch(test, ip, entries[1..][i]).Some?
        {
          assert entries[1..][i] == entries[i + 1];
        }
      }
      CidrScanNoError(test, ip, entries[1..]);
      InListedRangeCons(test, ip, entries);
    }
  }

  /** With the corrected test an IPv6 client is banned only by being listed exactly (or by an entry that raises an Error). */
  lemma Ipv6OnlyExactBan(ip: string, entries: seq<string>)
    requires ':' in ip
    ensures CidrScan(Corrected, ip, entries) != Some(true)
  {
  }

  /** Every subnet named by a CIDR entry is one `ip2long` can read. */
  predicate ReadableSubnets(entries: seq<string>)
  {
    forall i :: 0 <= i < |entries| && '/' in entries[i] ==>
      Ip2Long(SubnetPart(entries[i])).Some?
  }

  /** For an IPv4 client and readable subnets the two range tests give the same verdict. */
  lemma {:induction false} ScansAgreeOnReadable(ip: string, entries: seq<string>)
    requires Ip2Long(ip).Some? && ReadableSubnets(entries)
    ensures CidrScan(AsWritten, ip, entries) == CidrScan(Corrected, ip, entries)
  {
    if entries != [] {
      assert ReadableSubnets(entries[1..]) by {
        forall i | 0 <= i < |entries[1..]| && '/' in entries[1..][i]
          ensures Ip2Long(SubnetPart(entries[1..][i])).Some?
        {
          assert entries[1..][i] == entries[i + 1];
        }
      }
      ScansAgreeOnReadable(ip, entries[1..]);
    }
  }

  /** A mask written in decimal is numeric and reads as its value. */
  lemma MaskTextOfDecimal(n: nat)
    requires n <= MaxInt
    ensures LeadingNumeric(NatToString(n)) && Intval(NatToString(n)) == n
  {
    var m := NatToString(n);
    IntvalOfNatToString(n);
    assert IsDigit(m[0]) && !IsNumericSpace(m[0]);
    assert SkipNumericSpace(m) == m;
  }

  /** The decimal text of 32. */
  lemma NatToString32()
    ensures NatToString(32) == "32"
  {
    assert DigitChar(3) == '3' && DigitChar(2) == '2';
    assert NatToString(32) == NatToString(3) + [DigitChar(2)];
  }

  /** The entry `2001:db8::/32` names subnet `2001:db8::` and mask 32. */
  lemma Ipv6EntryParts()
    ensures '/' in "2001:db8::/32"
    ensures SubnetPart("2001:db8::/32") == "2001:db8::" && MaskPart("2001:db8::/32") == "32"
  {
    var entry := "2001:db8::/32";
    assert entry == "2001:db8::" + ['/'] + "32";
    assert entry[10] == '/';
    ExplodeNoSep('/', "32");
    ExplodeSplit('/', "2001:db8::", "32");
  }

  /** A list of one CIDR entry not equal to the client bans exactly when that entry matches. */
  lemma SingleEntryBan(test: RangeTest, ip: string, entry: string)
    requires '/' in entry && ip != entry
    ensures BannedSpec(test, ip, [entry]) == CidrEntryMatch(test, ip, entry)
  {
    var list: seq<string> := [entry];
    assert list[1..] == [];
    assert ip !in list;
    assert CidrScan(test, ip, list[1..]) == Some(false);
    assert BannedSpec(test, ip, list) == CidrScan(test, ip, list);
  }

  /**
   * An IPv6 client against an IPv6 entry with a decimal mask of at most 32:
   * inside the range as written, outside it with the corrected test.
   */
  lemma Ipv6EntryVerdicts(ip: string, entry: string, mask: nat)
    requires ':' in ip && '/' in entry && ':' in SubnetPart(entry)
    requires mask <= 32 && MaskPart(entry) == NatToString(mask)
    ensures CidrEntryMatch(AsWritten, ip, entry) == Some(true)
    ensures CidrEntryMatch(Corrected, ip, entry) == Some(false)
  {
    MaskTextOfDecimal(mask);
    NonIpv4MatchesUnreadableSubnet(ip, SubnetPart(entry), mask);
    Ipv6NotInRange(ip, SubnetPart(entry), mask);
  }

  /**
   * The ban list `["2001:db8::/32"]`: as written it bans the unrelated IPv6
   * client `fe80::1`; with the corrected test it does not.
   */
  lemma Ipv6ClientBannedAsWritten(ip: string, entry: string)
    requires ip == "fe80::1" && entry == "2001:db8::/32"
    ensures BannedSpec(AsWritten, ip, [entry]) == Some(true)
    ensures BannedSpec(Corrected, ip, [entry]) == Some(false)
  {
    Ipv6EntryParts();
    NatToString32();
    assert ':' in ip by { assert ip[4] == ':'; }
    assert ':' in SubnetPart(entry) by { assert "2001:db8::"[4] == ':'; }
    assert ip != entry by { assert ip[0] != entry[0]; }
    Ipv6EntryVerdicts(ip, entry, 32);
    SingleEntryBan(AsWritten, ip, entry);
    SingleEntryBan(Corrected, ip, entry);
  }

  /** `trim` keeps only characters of its input. */
  lemma TrimInside(s: string)
    ensures forall c :: c in Trim(s) ==> c in s
  {
    var l := TrimLeft(s);
    var t := TrimRight(l);
    assert t == l[..|t|] && l == s[|s| - |l|..];
    forall c | c in t ensures c in s {
      var k :| 0 <= k < |t| && t[k] == c;
      assert l[k] == s[|s| - |l| + k];
    }
  }

  /** `trim` leaves no character it trims at either end. */
  lemma TrimEnds(s: string)
    ensures Trim(s) == [] || (!IsTrimChar(Trim(s)[0]) && !IsTrimChar(Trim(s)[|Trim(s)| - 1]))
  {
    var l := TrimLeft(s);
    var t := TrimRight(l);
    assert t == l[..|t|];
    if t != [] {
      assert t[0] == l[0];
    }
  }

  /** The client address the validator looks at, and what it decides. */
  datatype IpVerdict = IpAccepted(ip: string) | IpRejected(message: string) | IpError

  /**
   * `validate_ip_address`: the first `X-Forwarded-For` item (trimmed), else
   * `X-Real-IP`, else the given address; then `FILTER_VALIDATE_IP`
   * (`validIp`) and the ban list. `IpError` is a PHP Error from the ban list.
   */
  function ClientIp(ip: string, forwardedFor: string, realIp: string): (client: string)
    ensures !EmptyString(forwardedFor) ==> (',' !in client
      && (client == [] || (!IsTrimChar(client[0]) && !IsTrimChar(client[|client| - 1]))))
    ensures EmptyString(forwardedFor) && !EmptyString(realIp) ==> client == realIp
    ensures EmptyString(forwardedFor) && EmptyString(realIp) ==> client == ip
  {
    if !EmptyString(forwardedFor) then
      var first := Explode(',', forwardedFor)[0];
      TrimInside(first);
      TrimEnds(first);
      Trim(first)
    else if !EmptyString(realIp) then realIp
    else ip
  }

  function IpCheck(test: RangeTest, ip: string, forwardedFor: string, realIp: string, banned: seq<string>,
                   validIp: string -> bool): (r: IpVerdict)
    ensures r.IpAccepted? <==> (validIp(ClientIp(ip, forwardedFor, realIp))
      && BannedSpec(test, ClientIp(ip, forwardedFor, realIp), banned) == Some(false))
    ensures r.IpAccepted? ==> r.ip == ClientIp(ip, forwardedFor, realIp)
    ensures r.IpError? ==> BannedSpec(test, ClientIp(ip, forwardedFor, realIp), banned).None?
  {
    var client := ClientIp(ip, forwardedFor, realIp);
    if !validIp(client) then IpRejected("Invalid IP address")
    else match BannedSpec(test, client, banned)
      case None => IpError
      case Some(true) => IpRejected("Access denied")
      case Some(false) => IpAccepted(client)
  }

  // ---------------------------------------------------------------------
  // The validator object

  const EmailField := "email"
  const CampaignIdField := "campaign_id"
  const DiscountField := "discount_value"
  const IpField := "ip_address"
  const TextField := "text"

  class Validator {
    /** `$this->errors`. */
    var errors: ErrorMap

    predicate Valid()
      reads this
    {
      DistinctFields(errors)
    }

    constructor ()
      ensures Valid() && errors == []
    {
      errors := [];
    }

    method AddError(field: string, message: string)
      requires Valid()
      modifies this
      ensures Valid() && errors == Put(old(errors), field, message)
    {
      PutKeepsDistinct(errors, field, message);
      errors := Put(errors, field, message);
    }

    function HasErrors(): (b: bool)
      reads this
      ensures b <==> |errors| > 0
    {
      errors != []
    }

    method ClearErrors()
      modifies this
      ensures Valid() && errors == [] && !HasErrors()
    {
      errors := [];
    }

    function GetErrorMessage(): (s: string)
      reads this
      ensures errors == [] ==> s == ""
      ensures |errors| == 1 ==> s == errors[0].1
    {
      ErrorMessage(errors)
    }

    /** Records the failure message of a decision under `field`, if there is one. */
    method Record<T>(field: string, r: Result<T, string>)
      requires Valid()
      modifies this
      ensures Valid()
      ensures errors == if r.Failure? then Put(old(errors), field, r.error) else old(errors)
    {
      if r.Failure? {
        AddError(field, r.error);
      }
    }

    method ValidateEmail(email: string, sanitize: string -> string, isEmail: string -> bool) returns (ok: bool)
      requires Valid()
      modifies this
      ensures Valid()
      ensures ok == EmailCheck(email, sanitize, isEmail).Success?
      ensures errors == match EmailCheck(email, sanitize, isEmail)
        case Failure(m) => Put(old(errors), EmailField, m)
        case Success(_) => old(errors)
    {
      var r := EmailCheck(email, sanitize, isEmail);
      Record(EmailField, r);
      ok := r.Success?;
    }

    method ValidateCampaignId(x: Scalar) returns (id: Option<int>)
      requires Valid()
      modifies this
      ensures Valid()
      ensures id == match CampaignIdCheck(x) case Success(v) => Some(v) case Failure(_) => None
      ensures errors == match CampaignIdCheck(x)
        case Failure(m) => Put(old(errors), CampaignIdField, m)
        case Success(_) => old(errors)
    {
      var r := CampaignIdCheck(x);
      Record(CampaignIdField, r);
      id := if r.Success? then Some(r.value) else None;
    }

    method ValidateDiscountValue(value: DiscountInput, discountType: string, price: real -> string)
      returns (v: Option<real>)
      requires Valid()
      modifies this
      ensures Valid()
      ensures v == match DiscountCheck(value, discountType, price) case Success(d) => Some(d) case Failure(_) => None
      ensures errors == match DiscountCheck(value, discountType, price)
        case Failure(m) => Put(old(errors), DiscountField, m)
        case Success(_) => old(errors)
    {
      var r := DiscountCheck(value, discountType, price);
      Record(DiscountField, r);
      v := if r.Success? then Some(r.value) else None;
    }

    method ValidateText(input: string, o: TextOptions, kses: string -> string, sanitizeText: string -> string,
                        pregMatch: (string, string) -> bool) returns (t: Option<string>)
      requires Valid()
      modifies this
      ensures Valid()
      ensures t == match TextCheck(input, o, kses, sanitizeText, pregMatch) case Success(s) => Some(s) case Failure(_) => None
      ensures errors == match TextCheck(input, o, kses, sanitizeText, pregMatch)
        case Failure(m) => Put(old(errors), TextField, m)
        case Success(_) => old(errors)
    {
      var r := TextCheck(input, o, kses, sanitizeText, pregMatch);
      Record(TextField, r);
      t := if r.Success? then Some(r.value) else None;
    }

    method ValidateIpAddress(test: RangeTest, ip: string, forwardedFor: string, realIp: string, banned: seq<string>,
                             validIp: string -> bool) returns (r: IpVerdict)
      requires Valid()
      modifies this
      ensures Valid()
      ensures r == IpCheck(test, ip, forwardedFor, realIp, banned, validIp)
      ensures errors == if r.IpRejected? then Put(old(errors), IpField, r.message) else old(errors)
    {
      var client := ClientIp(ip, forwardedFor, realIp);
      if !validIp(client) {
        AddError(IpField, "Invalid IP address");
        return IpRejected("Invalid IP address");
      }
      var banned? := IsBannedIp(test, client, banned);
      match banned?
      case None =>
        r := IpError;
      case Some(true) =>
        AddError(IpField, "Access denied");
        r := IpRejected("Access denied");
      case Some(false) =>
        r := IpAccepted(client);
    }
  }

  /** The `is_banned_ip` loop: exact match first, then each CIDR entry in order. */
  method IsBannedIp(test: RangeTest, ip: string, banned: seq<string>) returns (r: Option<bool>)
    ensures r == BannedSpec(test, ip, banned)
  {
    if ip in banned {
      return Some(true);
    }
    var i := 0;
    while i < |banned|
      invariant 0 <= i <= |banned|
      invariant CidrScan(test, ip, banned) == CidrScan(test, ip, banned[i..])
    {
      assert banned[i..][1..] == banned[i + 1..];
      if '/' in banned[i] {
        var m := CidrEntryMatch(test, ip, banned[i]);
        if m != Some(false) {
          return m;
        }
      }
      i := i + 1;
    }
    return Some(false);
  }
}
