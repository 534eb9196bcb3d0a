/**
 * The browser script's own logic: the e-mail pattern, the "time remaining"
 * text, the checks made before a claim request is sent, the 24-hour
 * freshness of a coupon parked in local storage and the cap on status
 * polling. The DOM, the AJAX transport and the timers themselves are not
 * modelled: the clock is a millisecond count passed in, `parseInt` is a
 * parameter, and each firing of the polling interval is one call of
 * `Poller.Tick`.
 */
module FrontendScript {
  import opened Php

  // ---------------------------------------------------------------------
  // validateEmail

  /** Characters of the JavaScript `\s` class (white space and line terminators). */
  predicate IsJsSpace(c: char) {
    var n := c as int;
    n == 0x20 || (0x09 <= n <= 0x0D) || n == 0xA0 || n == 0x1680 || (0x2000 <= n <= 0x200A)
      || n == 0x2028 || n == 0x2029 || n == 0x202F || n == 0x205F || n == 0x3000 || n == 0xFEFF
  }

  /** A character of `[^\s@]`. */
  predicate PlainChar(c: char) {
    !IsJsSpace(c) && c != '@'
  }

  /**
   * What `^[^\s@]+@[^\s@]+\.[^\s@]+$` accepts, read off the pattern: an '@'
   * at `at` and a '.' at `dot` split the text into three non-empty runs of
   * plain characters.
   */
  predicate SplitsAsEmail(s: string, at: int, dot: int) {
    && 0 < at && at + 1 < dot && dot + 1 < |s|
    && s[at] == '@' && s[dot] == '.'
    && (forall j | 0 <= j < |s| && j != at :: PlainChar(s[j]))
  }

  ghost predicate EmailPattern(s: string) {
    exists at, dot :: SplitsAsEmail(s, at, dot)
  }

  function CountChar(c: char, s: string): (n: nat)
    ensures n <= |s|
    ensures n == 0 <==> c !in s
  {
    if s == [] then 0 else (if s[0] == c then 1 else 0) + CountChar(c, s[1..])
  }

  /** Index of the first `c` in `s`, or |s|. */
  function IndexOf(c: char, s: string): (k: nat)
    ensures k <= |s|
    ensures k < |s| ==> s[k] == c
    ensures forall j | 0 <= j < k :: s[j] != c
  {
    if s == [] then 0 else if s[0] == c then 0 else 1 + IndexOf(c, s[1..])
  }

  /** A text holding `c` exactly once has no other `c` than the first. */
  lemma {:induction false} CountOne(c: char, s: string)
    requires CountChar(c, s) == 1
    ensures IndexOf(c, s) < |s|
    ensures forall j | 0 <= j < |s| && j != IndexOf(c, s) :: s[j] != c
  {
    if s[0] == c {
      assert c !in s[1..];
      forall j | 0 < j < |s|
        ensures s[j] != c
      {
        assert s[j] == s[1..][j - 1];
      }
    } else {
      CountOne(c, s[1..]);
      forall j | 0 < j < |s| && j != IndexOf(c, s)
        ensures s[j] != c
      {
        assert s[j] == s[1..][j - 1];
      }
    }
  }

  /** A text whose only `c` is at `i` holds it exactly once. */
  lemma {:induction false} CountOnly(c: char, s: string, i: int)
    requires 0 <= i < |s| && s[i] == c
    requires forall j | 0 <= j < |s| && j != i :: s[j] != c
    ensures CountChar(c, s) == 1
  {
    if i == 0 {
      assert forall j | 0 <= j < |s[1..]| :: s[1..][j] == s[j + 1];
      assert c !in s[1..];
    } else {
      forall j | 0 <= j < |s[1..]| && j != i - 1
        ensures s[1..][j] != c
      {
        assert s[1..][j] == s[j + 1];
      }
      CountOnly(c, s[1..], i - 1);
    }
  }

  /** The domain has a '.' with at least one character on each side. */
  predicate DotInside(domain: string) {
    exists k | 0 < k < |domain| - 1 :: domain[k] == '.'
  }

  /**
   * `validateEmail`: no white space, exactly one '@' with something before
   * it, and a domain holding a '.' with a character on each side.
   */
  predicate ValidateEmail(email: string) {
    var at := IndexOf('@', email);
    && (forall j | 0 <= j < |email| :: !IsJsSpace(email[j]))
    && CountChar('@', email) == 1
    && 0 < at < |email|
    && DotInside(email[at + 1..])
  }

  /** Those conditions accept exactly what the regular expression matches. */
  lemma EmailIffPattern(email: string)
    ensures ValidateEmail(email) <==> EmailPattern(email)
  {
    if ValidateEmail(email) {
      ShapeGivesPattern(email);
    }
    if EmailPattern(email) {
      PatternGivesShape(email);
    }
  }

  lemma ShapeGivesPattern(email: string)
    requires ValidateEmail(email)
    ensures EmailPattern(email)
  {
    var at := IndexOf('@', email);
    CountOne('@', email);
    var domain := email[at + 1..];
    var k :| 0 < k < |domain| - 1 && domain[k] == '.';
    assert email[at + 1 + k] == domain[k];
    assert SplitsAsEmail(email, at, at + 1 + k);
  }

  lemma PatternGivesShape(email: string)
    requires EmailPattern(email)
    ensures ValidateEmail(email)
  {
    var a, d :| SplitsAsEmail(email, a, d);
    CountOnly('@', email, a);
    assert IndexOf('@', email) == a;
    var domain := email[a + 1..];
    assert domain[d - a - 1] == email[d];
    assert DotInside(domain);
  }

  /** Text with white space, with another '@' than the one, or starting with '@' is refused. */
  lemma EmailRejects(email: string)
    ensures (exists j | 0 <= j < |email| :: IsJsSpace(email[j])) ==> !ValidateEmail(email)
    ensures CountChar('@', email) != 1 ==> !ValidateEmail(email)
    ensures |email| > 0 && email[0] == '@' ==> !ValidateEmail(email)
  {
  }

  /** A concrete address passes and a concrete one without a dotted domain does not. */
  lemma EmailExamples()
    ensures EmailPattern("a@b.c")
    ensures !EmailPattern("a@bc")
  {
    assert SplitsAsEmail("a@b.c", 1, 3);
    EmailIffPattern("a@bc");
    assert !DotInside("bc");
  }

  // ---------------------------------------------------------------------
  // getTimeRemaining

  const MsPerMinute := 60000
  const MsPerHour := 3600000

  datatype Remaining = Expired | Left(hours: nat, minutes: nat)

  /** Whole hours and the whole minutes past them left until the expiry, `diff` milliseconds away. */
  function SplitRemaining(diff: int): (r: Remaining)
    ensures r.Expired? <==> diff <= 0
    ensures r.Left? ==> r.minutes < 60
    ensures r.Left? ==>
      r.hours * MsPerHour + r.minutes * MsPerMinute <= diff < r.hours * MsPerHour + (r.minutes + 1) * MsPerMinute
  {
    if diff <= 0 then Expired
    else Left(diff / MsPerHour, (diff % MsPerHour) / MsPerMinute)
  }

  /** Only one hour/minute pair brackets a positive duration like that. */
  lemma SplitUnique(diff: int, h: nat, m: nat)
    requires diff > 0 && m < 60
    requires h * MsPerHour + m * MsPerMinute <= diff < h * MsPerHour + (m + 1) * MsPerMinute
    ensures SplitRemaining(diff) == Left(h, m)
  {
    var r := SplitRemaining(diff);
    assert h * MsPerHour <= diff < (h + 1) * MsPerHour;
    assert r.hours * MsPerHour <= diff < (r.hours + 1) * MsPerHour;
    assert r.hours == h;
  }

  /** The `getTimeRemaining` text. */
  function FormatRemaining(r: Remaining): (s: string)
    ensures r.Expired? <==> s == "Expired"
    ensures r.Left? ==> EndsWith(s, " minutes")
    ensures r.Left? && r.hours > 0 ==> StartsWith(s, NatToString(r.hours) + " hours, ")
    ensures r.Left? && r.hours > 0 ==> s == NatToString(r.hours) + " hours, " + NatToString(r.minutes) + " minutes"
    ensures r.Left? && r.hours == 0 ==> s == NatToString(r.minutes) + " minutes"
  {
    match r
    case Expired => "Expired"
    case Left(h, m) =>
      var tail := NatToString(m) + " minutes";
      var s := if h > 0 then NatToString(h) + " hours, " + tail else tail;
      assert s[|s| - 8..] == " minutes";
      assert h > 0 ==> s[..|NatToString(h) + " hours, "|] == NatToString(h) + " hours, ";
      assert s != "Expired" by {
        assert '0' <= s[0] <= '9';
      }
      s
  }

  function TimeRemaining(expiry: int, now: int): (s: string)
    ensures expiry <= now <==> s == "Expired"
  {
    FormatRemaining(SplitRemaining(expiry - now))
  }

  // ---------------------------------------------------------------------
  // claimDiscount, before the request

  const MsgEmptyEmail := "Please enter your email address"
  const MsgInvalidEmail := "Please enter a valid email address"

  /** Every character of `t` is JavaScript white space. */
  predicate AllJsSpace(t: string) {
    forall k :: 0 <= k < |t| ==> IsJsSpace(t[k])
  }

  /** `r` is a slice of `s` with nothing but white space before and after it. */
  predicate SpacedSlice(s: string, r: string) {
    exists i :: 0 <= i <= |s| - |r| && r == s[i..i + |r|] && AllJsSpace(s[..i]) && AllJsSpace(s[i + |r|..])
  }

  function JsTrimStart(s: string): (r: string)
    ensures |r| <= |s| && r == s[|s| - |r|..]
    ensures r != [] ==> !IsJsSpace(r[0])
    ensures AllJsSpace(s[..|s| - |r|])
  {
    if s != [] && IsJsSpace(s[0]) then
      var r := JsTrimStart(s[1..]);
      assert s[..|s| - |r|] == [s[0]] + s[1..][..|s[1..]| - |r|];
      r
    else s
  }

  function JsTrimEnd(s: string): (r: string)
    ensures |r| <= |s| && r == s[..|r|]
    ensures r != [] ==> !IsJsSpace(r[|r| - 1])
    ensures AllJsSpace(s[|r|..])
  {
    if s != [] && IsJsSpace(s[|s| - 1]) then
      var r := JsTrimEnd(s[..|s| - 1]);
      assert s[|r|..] == s[..|s| - 1][|r|..] + [s[|s| - 1]];
      r
    else s
  }

  /**
   * `String.prototype.trim`: the input with its leading and trailing white
   * space cut off, and nothing else.
   */
  function JsTrim(s: string): (r: string)
    ensures |r| <= |s|
    ensures r != [] ==> !IsJsSpace(r[0]) && !IsJsSpace(r[|r| - 1])
    ensures SpacedSlice(s, r)
  {
    var l := JsTrimStart(s);
    var r := JsTrimEnd(l);
    TrimPieces(s, l, r);
    r
  }

  /**
   * A white-space-free-ended prefix `r` of a suffix `l` of `s`, with only
   * white space around each: `r` is a slice of `s` with white space around it.
   */
  lemma TrimPieces(s: string, l: string, r: string)
    requires |l| <= |s| && l == s[|s| - |l|..] && (l != [] ==> !IsJsSpace(l[0])) && AllJsSpace(s[..|s| - |l|])
    requires |r| <= |l| && r == l[..|r|] && (r != [] ==> !IsJsSpace(r[|r| - 1])) && AllJsSpace(l[|r|..])
    ensures r != [] ==> !IsJsSpace(r[0]) && !IsJsSpace(r[|r| - 1])
    ensures SpacedSlice(s, r)
  {
    var i := |s| - |l|;
    SliceOfSuffix(s, l, |r|);
    assert r != [] ==> r[0] == l[0];
    assert AllJsSpace(s[i + |r|..]);
  }

  /** Slices of a suffix `l` of `s` are slices of `s`, shifted by where `l` starts. */
  lemma SliceOfSuffix(s: string, l: string, n: nat)
    requires |l| <= |s| && l == s[|s| - |l|..] && n <= |l|
    ensures s[|s| - |l|..|s| - |l| + n] == l[..n] && s[|s| - |l| + n..] == l[n..]
  {
  }

  /** Text with non-space ends, padded with white space on both sides, trims back to itself. */
  lemma {:induction false} JsTrimOfPadded(pre: string, t: string, post: string)
    requires AllJsSpace(pre) && AllJsSpace(post)
    requires t != [] ==> !IsJsSpace(t[0]) && !IsJsSpace(t[|t| - 1])
    ensures JsTrim(pre + t + post) == t
  {
    if t == [] {
      assert t + post == post;
      ConcatAssoc(pre, t, post);
      JsTrimOfSpaces(pre, post);
    } else {
      JsTrimOfPaddedText(pre, t, post);
    }
  }

  /** The same for a non-empty text: the leading trim leaves `t + post`, the trailing trim `t`. */
  lemma JsTrimOfPaddedText(pre: string, t: string, post: string)
    requires AllJsSpace(pre) && AllJsSpace(post)
    requires t != [] && !IsJsSpace(t[0]) && !IsJsSpace(t[|t| - 1])
    ensures JsTrim(pre + t + post) == t
  {
    var u := t + post;
    assert u[0] == t[0];
    JsTrimStartPadded(pre, u);
    JsTrimEndPadded(t, post);
    ConcatAssoc(pre, t, post);
    JsTrimUnfold(pre + u);
  }

  lemma ConcatAssoc(a: string, b: string, c: string)
    ensures a + b + c == a + (b + c)
  {
  }

  lemma JsTrimUnfold(s: string)
    ensures JsTrim(s) == JsTrimEnd(JsTrimStart(s))
  {
  }

  /** Nothing but white space trims to the empty string. */
  lemma {:induction false} JsTrimOfSpaces(pre: string, post: string)
    requires AllJsSpace(pre) && AllJsSpace(post)
    ensures JsTrim(pre + post) == []
  {
    var w := pre + post;
    assert AllJsSpace(w) by {
      forall k | 0 <= k < |w| ensures IsJsSpace(w[k]) {
        if k >= |pre| { assert w[k] == post[k - |pre|]; }
      }
    }
    assert w == w + [];
    JsTrimStartPadded(w, []);
    JsTrimUnfold(w);
  }

  lemma {:induction false} JsTrimStartPadded(pre: string, u: string)
    requires AllJsSpace(pre) && (u != [] ==> !IsJsSpace(u[0]))
    ensures JsTrimStart(pre + u) == u
  {
    if pre != [] {
      assert (pre + u)[1..] == pre[1..] + u;
      JsTrimStartPadded(pre[1..], u);
    }
  }

  lemma {:induction false} JsTrimEndPadded(t: string, post: string)
    requires AllJsSpace(post) && (t != [] ==> !IsJsSpace(t[|t| - 1]))
    ensures JsTrimEnd(t + post) == t
  {
    if post == [] {
      assert t + post == t;
    } else {
      var p := post[..|post| - 1];
      assert (t + post)[..|t + post| - 1] == t + p;
      JsTrimEndPadded(t, p);
    }
  }

  datatype ClaimCheck = Send(email: string) | Refuse(message: string)

  /**
   * The checks `claimDiscount` makes before posting: with an e-mail field
   * on the widget, an empty (trimmed) value and an invalid one are refused
   * with their messages; without the field the request goes out with an
   * empty e-mail.
   */
  function CheckClaim(hasEmailField: bool, fieldValue: string): (r: ClaimCheck)
    ensures r.Send? <==> !hasEmailField || (JsTrim(fieldValue) != "" && ValidateEmail(JsTrim(fieldValue)))
    ensures r.Send? ==> r.email == if hasEmailField then JsTrim(fieldValue) else ""
    ensures r.Refuse? ==> (r.message == MsgEmptyEmail <==> JsTrim(fieldValue) == "")
    ensures r.Refuse? ==> r.message == MsgEmptyEmail || r.message == MsgInvalidEmail
  {
    var email := if hasEmailField then JsTrim(fieldValue) else "";
    if hasEmailField && email != "" && !ValidateEmail(email) then Refuse(MsgInvalidEmail)
    else if hasEmailField && email == "" then Refuse(MsgEmptyEmail)
    else Send(email)
  }

  /** A value the client sends always matches the script's own e-mail pattern (the server checks it again with `is_email`). */
  lemma SentEmailValid(fieldValue: string)
    ensures CheckClaim(true, fieldValue).Send? ==> EmailPattern(CheckClaim(true, fieldValue).email)
  {
    EmailIffPattern(JsTrim(fieldValue));
  }

  // ---------------------------------------------------------------------
  // checkAndApplyPendingCoupon

  const PendingLifetimeMs := 24 * 60 * 60 * 1000

  datatype PendingOutcome =
    | NoPending             // nothing parked, or one of the two keys is empty
    | Discarded             // older than a day: both keys are removed
    | Applied(code: string) // on the cart or checkout page
    | Kept                  // fresh, but not on a page with a coupon form

  /**
   * The page-load check of the parked coupon. `parseInt` yields `None` for
   * NaN; a NaN age compares false, so such a coupon is not discarded.
   */
  function CheckPending(coupon: string, couponTime: string, parseInt: string -> Option<int>, now: int, cartOrCheckout: bool)
    : (r: PendingOutcome)
    ensures r.NoPending? <==> coupon == "" || couponTime == ""
    ensures r.Discarded? <==>
      coupon != "" && couponTime != "" && parseInt(couponTime).Some? && now - parseInt(couponTime).value > PendingLifetimeMs
    ensures r.Applied? ==> r.code == coupon && cartOrCheckout
  {
    if coupon == "" || couponTime == "" then NoPending
    else
      var t := parseInt(couponTime);
      if t.Some? && now - t.value > PendingLifetimeMs then Discarded
      else if cartOrCheckout then Applied(coupon)
      else Kept
  }

  /** A coupon parked within the last day is never dropped for its age. */
  lemma FreshCouponSurvives(coupon: string, couponTime: string, parseInt: string -> Option<int>, now: int, cartOrCheckout: bool)
    requires coupon != "" && couponTime != ""
    requires parseInt(couponTime).Some? && now - parseInt(couponTime).value <= PendingLifetimeMs
    ensures CheckPending(coupon, couponTime, parseInt, now, cartOrCheckout) == if cartOrCheckout then Applied(coupon) else Kept
  {
  }

  // ---------------------------------------------------------------------
  // startRealtimeUpdates

  const MaxPolls := 20

  /** One invocation of `startRealtimeUpdates`: its closure counters and the requests it issued. */
  class Poller {
    var pollCount: nat
    var isUpdating: bool
    /** `clearInterval` has been called. */
    var stopped: bool
    var requests: nat

    ghost predicate Valid()
      reads this
    {
      && requests == (if pollCount <= MaxPolls then pollCount else MaxPolls)
      && (pollCount > MaxPolls ==> stopped)
      && pollCount <= MaxPolls + 1
    }

    /** Polling is started unless the claim already succeeded or the waitlist form is shown. */
    constructor(claimed: bool, waitlistShown: bool)
      ensures pollCount == 0 && !isUpdating && requests == 0
      ensures stopped == (claimed || waitlistShown)
      ensures Valid()
    {
      pollCount := 0;
      isUpdating := false;
      stopped := claimed || waitlistShown;
      requests := 0;
    }

    /**
     * One interval firing: skipped while a request is in flight; otherwise
     * the count goes up and, past the cap, the interval is cleared instead
     * of a request being sent.
     */
    method Tick() returns (sent: bool)
      requires Valid()
      modifies this
      ensures Valid() && requests <= MaxPolls
      ensures sent <==> !old(stopped) && !old(isUpdating) && old(pollCount) < MaxPolls
      ensures requests == old(requests) + (if sent then 1 else 0)
      ensures old(stopped) || old(isUpdating) ==> pollCount == old(pollCount) && stopped == old(stopped)
      ensures !old(stopped) && !old(isUpdating) ==>
        pollCount == old(pollCount) + 1 && stopped == (old(pollCount) + 1 > MaxPolls)
      ensures isUpdating == (old(isUpdating) || sent)
    {
      if stopped || isUpdating {
        return false;
      }
      pollCount := pollCount + 1;
      if pollCount > MaxPolls {
        stopped := true;
        return false;
      }
      isUpdating := true;
      requests := requests + 1;
      sent := true;
    }

    /** The request's `complete` callback. */
    method Complete()
      requires Valid()
      modifies this
      ensures Valid()
      ensures !isUpdating
      ensures pollCount == old(pollCount) && stopped == old(stopped) && requests == old(requests)
    {
      isUpdating := false;
    }

    /** A claim click or a keystroke clears the interval. */
    method Stop()
      requires Valid()
      modifies this
      ensures Valid()
      ensures stopped
      ensures pollCount == old(pollCount) && isUpdating == old(isUpdating) && requests == old(requests)
    {
      stopped := true;
    }
  }
}
