/**
 * The version-2 allocator, `WCFD\Core\Campaign_Manager`: creating, updating
 * and reading campaigns, and claiming a code under the campaign row lock.
 *
 * `ClaimSpec` states what one `claim_discount` call does to the tables;
 * `ClaimDiscount` performs it step by step on the store and is proved to
 * agree with it. The lemmas below the spec state the properties of a claim.
 */
module CampaignManager {
  import opened Php
  import opened Tables
  import opened Validation

  // ---------------------------------------------------------------------
  // Claiming a code

  /** The `WP_Error` codes of `claim_discount`. */
  datatype ClaimError =
    | CampaignUnavailable   // campaign_unavailable
    | AlreadyClaimed        // already_claimed
    | IpLimit               // ip_limit
    | CouponError(message: string)  // coupon_error, with the text `create_wc_coupon` gives
    | DbError               // db_error
    | ClaimFailed           // claim_error

  /** The `WP_Error` message of each code. */
  function ClaimErrorMessage(e: ClaimError): string {
    match e
    case CampaignUnavailable => "Campaign not available"
    case AlreadyClaimed => "You have already claimed a code for this campaign"
    case IpLimit => "Maximum codes claimed from your IP address"
    case CouponError(message) => message
    case DbError => "Failed to save discount code"
    case ClaimFailed => "An error occurred. Please try again."
  }

  /** The array returned on success. */
  datatype Receipt = Receipt(code: string, expiresAt: int, codesRemaining: int)

  /** One call's arguments; `userId` is `get_current_user_id()` (0 for a visitor). */
  datatype ClaimRequest = ClaimRequest(campaignId: int, email: string, ip: string, emailVerified: bool, userId: int)

  /**
   * What the code around the allocator does on this call: the WooCommerce
   * coupon save, the claim insert, the unchecked decrement, an exception
   * before COMMIT, or an exception from a `wcfd_discount_claimed` hook.
   */
  datatype ClaimFault =
    | NoFault
    | CouponSaveFails
    | InsertFails
    | DecrementFails
    | ThrowsBeforeCommit
    | HookThrows

  /** `has_claimed_code`: a verified claim exists for this campaign and e-mail. */
  function HasClaimedCode(claims: seq<Claim>, campaignId: int, email: string): (b: bool)
    ensures b <==> exists i :: 0 <= i < |claims| && VerifiedEmailClaim(claims[i], campaignId, email)
  {
    CountEmailPositive(claims, campaignId, email);
    CountEmail(claims, campaignId, email) > 0
  }

  /** `get_ip_claim_count`: verified claims for this campaign from this address. */
  function GetIpClaimCount(claims: seq<Claim>, campaignId: int, ip: string): (n: nat)
    ensures n <= |claims|
    ensures n == 0 <==> forall i :: 0 <= i < |claims| ==> !VerifiedIpClaim(claims[i], campaignId, ip)
  {
    CountIpZero(claims, campaignId, ip);
    CountIp(claims, campaignId, ip)
  }

  lemma {:induction false} CountIpZero(claims: seq<Claim>, campaignId: int, ip: string)
    ensures CountIp(claims, campaignId, ip) == 0 <==> forall i :: 0 <= i < |claims| ==> !VerifiedIpClaim(claims[i], campaignId, ip)
  {
    if claims != [] {
      var init := claims[..|claims| - 1];
      CountIpZero(init, campaignId, ip);
      assert forall i :: 0 <= i < |init| ==> init[i] == claims[i];
    }
  }

  /**
   * `create_wc_coupon` succeeds unless the save fails; a negative
   * `expiry_hours` makes `new DateInterval('PT-…H')` throw inside it, which
   * it catches as `coupon_error` too.
   */
  predicate CouponCreated(c: Campaign, fault: ClaimFault) {
    c.expiryHours >= 0 && fault != CouponSaveFails
  }

  const CouponSaveMessage := "Failed to create coupon"

  /**
   * The message of the exception `new DateInterval('PT' . $hours . 'H')`
   * throws for a negative count of hours (PHP 8.3 and later).
   */
  function IntervalErrorMessage(hours: int): string {
    "Unknown or bad format (PT" + IntToString(hours) + "H)"
  }

  /**
   * The text of the `coupon_error` the catch or the failed save returns:
   * the constructor throws before the save is reached.
   */
  function CouponFailureMessage(c: Campaign): (m: string)
    ensures c.expiryHours < 0 ==> m == IntervalErrorMessage(c.expiryHours)
    ensures c.expiryHours >= 0 ==> m == CouponSaveMessage
  {
    if c.expiryHours < 0 then IntervalErrorMessage(c.expiryHours) else CouponSaveMessage
  }

  /** The first check that refuses the claim, in the order the source runs them. */
  function PrecheckError(t: Tables, req: ClaimRequest): (e: Option<ClaimError>)
    ensures e.None? <==> (Available(t, req.campaignId) && !HasClaimedCode(t.claims, req.campaignId, req.email)
      && !(t.campaigns[req.campaignId].enableIpLimit
           && GetIpClaimCount(t.claims, req.campaignId, req.ip) >= t.campaigns[req.campaignId].maxPerIp))
    ensures e == Some(CampaignUnavailable) <==> !Available(t, req.campaignId)
    ensures e.Some? ==> e.value in {CampaignUnavailable, AlreadyClaimed, IpLimit}
  {
    if !Available(t, req.campaignId) then Some(CampaignUnavailable)
    else if HasClaimedCode(t.claims, req.campaignId, req.email) then Some(AlreadyClaimed)
    else
      var c := t.campaigns[req.campaignId];
      if c.enableIpLimit && GetIpClaimCount(t.claims, req.campaignId, req.ip) >= c.maxPerIp then Some(IpLimit)
      else None
  }

  function ExpiryOf(c: Campaign, now: int): int {
    now + c.expiryHours * 3600
  }

  /** The claim row `claim_discount` inserts. */
  function NewClaim(req: ClaimRequest, code: string, now: int, expiresAt: int): Claim {
    Claim(req.campaignId, req.email, if req.userId == 0 then None else Some(req.userId),
          code, now, expiresAt, None, req.ip, req.emailVerified)
  }

  /** What one `claim_discount` call leaves in the tables and returns. */
  function ClaimSpec(t: Tables, req: ClaimRequest, code: string, now: int, fault: ClaimFault)
    : (r: (Tables, Result<Receipt, ClaimError>))
    ensures PrecheckError(t, req).Some? ==> r == (t, Failure(PrecheckError(t, req).value))
    ensures r.1.Success? <==> Committed(t, req, fault) && fault != HookThrows
    ensures !Committed(t, req, fault) ==> r.0 == t
    ensures Committed(t, req, fault) ==>
      r.0.claims == t.claims + [NewClaim(req, code, now, ExpiryOf(t.campaigns[req.campaignId], now))]
    ensures r.0.campaigns.Keys == t.campaigns.Keys && r.0.nextCampaignId == t.nextCampaignId
    ensures Committed(t, req, fault) && fault != DecrementFails ==>
      r.0.campaigns[req.campaignId].codesRemaining == t.campaigns[req.campaignId].codesRemaining - 1
    ensures r.0.verifications == t.verifications && r.0.waitlist == t.waitlist
    ensures forall id :: id in t.campaigns && id != req.campaignId ==> r.0.campaigns[id] == t.campaigns[id]
    ensures r.1.Success? ==> (r.1.value.code == code
      && r.1.value.codesRemaining == t.campaigns[req.campaignId].codesRemaining - 1)
  {
    match PrecheckError(t, req)
    case Some(e) => (t, Failure(e))
    case None =>
      var c := t.campaigns[req.campaignId];
      if !CouponCreated(c, fault) then (t, Failure(CouponError(CouponFailureMessage(c))))
      else if fault == InsertFails then (t, Failure(DbError))
      else if fault == ThrowsBeforeCommit then (t, Failure(ClaimFailed))
      else
        var expiry := ExpiryOf(c, now);
        var added := t.(claims := t.claims + [NewClaim(req, code, now, expiry)]);
        var after := if fault == DecrementFails then added else SetRemaining(added, req.campaignId, c.codesRemaining - 1);
        (after, if fault == HookThrows then Failure(ClaimFailed) else Success(Receipt(code, expiry, c.codesRemaining - 1)))
  }

  /** True when the call reached COMMIT. */
  predicate Committed(t: Tables, req: ClaimRequest, fault: ClaimFault) {
    PrecheckError(t, req).None? && CouponCreated(t.campaigns[req.campaignId], fault)
    && fault != InsertFails && fault != ThrowsBeforeCommit
  }

  /**
   * `claim_discount`. `code` is the fresh `generate_coupon_code()` value
   * (`GenerateCouponCode`); `now` is the clock. START TRANSACTION is the
   * snapshot, ROLLBACK restores it, and a committed claim drops the
   * campaign's cache entry.
   */
  method ClaimDiscount(db: Store, req: ClaimRequest, code: string, now: int, fault: ClaimFault)
    returns (r: Result<Receipt, ClaimError>)
    modifies db
    ensures (db.Snapshot(), r) == ClaimSpec(old(db.Snapshot()), req, code, now, fault)
    ensures db.cache == if Committed(old(db.Snapshot()), req, fault) then old(db.cache) - {req.campaignId} else old(db.cache)
  {
    var start := db.Snapshot();
    var refusal := RunPrechecks(db, req);
    if refusal.Some? {
      return Failure(refusal.value);
    }
    var campaign := db.campaigns[req.campaignId];
    if !CouponCreated(campaign, fault) {
      return Failure(CouponError(CouponFailureMessage(campaign)));
    }
    var expiry := now + campaign.expiryHours * 3600;
    if fault == InsertFails {
      return Failure(DbError);
    }
    if fault == ThrowsBeforeCommit {
      // The writes below happen inside the transaction and are rolled back.
      db.claims := db.claims + [NewClaim(req, code, now, expiry)];
      db.campaigns := db.campaigns[req.campaignId := campaign.(codesRemaining := campaign.codesRemaining - 1)];
      db.Restore(start);
      return Failure(ClaimFailed);
    }
    var added := start.(claims := start.claims + [NewClaim(req, code, now, expiry)]);
    db.claims := db.claims + [NewClaim(req, code, now, expiry)];
    if fault != DecrementFails {
      // The result of this update is not checked.
      db.campaigns := db.campaigns[req.campaignId := campaign.(codesRemaining := campaign.codesRemaining - 1)];
      assert db.Snapshot() == SetRemaining(added, req.campaignId, campaign.codesRemaining - 1);
    } else {
      assert db.Snapshot() == added;
    }
    // COMMIT
    db.cache := db.cache - {req.campaignId};
    if fault == HookThrows {
      return Failure(ClaimFailed);
    }
    return Success(Receipt(code, expiry, campaign.codesRemaining - 1));
  }

  /** A claim that reaches COMMIT always leaves the tables different: it appended a row. */
  lemma ClaimChangesTables(t: Tables, req: ClaimRequest, code: string, now: int, fault: ClaimFault)
    requires Committed(t, req, fault)
    ensures ClaimSpec(t, req, code, now, fault).0 != t
  {
    var t' := ClaimSpec(t, req, code, now, fault).0;
    assert |t'.claims| == |t.claims| + 1;
  }

  /** The checks `claim_discount` runs inside the transaction before it writes anything. */
  method RunPrechecks(db: Store, req: ClaimRequest) returns (e: Option<ClaimError>)
    ensures e == PrecheckError(db.Snapshot(), req)
  {
    if !(req.campaignId in db.campaigns && db.campaigns[req.campaignId].status == "active"
         && db.campaigns[req.campaignId].codesRemaining > 0) {
      return Some(CampaignUnavailable);
    }
    if HasClaimedCode(db.claims, req.campaignId, req.email) {
      return Some(AlreadyClaimed);
    }
    var campaign := db.campaigns[req.campaignId];
    if campaign.enableIpLimit {
      var ipClaims := GetIpClaimCount(db.claims, req.campaignId, req.ip);
      if ipClaims >= campaign.maxPerIp {
        return Some(IpLimit);
      }
    }
    return None;
  }

  // ---------------------------------------------------------------------
  // Properties of one claim

  /** A claim that returns a code appended exactly one row for it and took exactly one code. */
  lemma ClaimSuccessEffect(t: Tables, req: ClaimRequest, code: string, now: int, fault: ClaimFault)
    requires fault != DecrementFails
    requires ClaimSpec(t, req, code, now, fault).1.Success?
    ensures var (t', r) := ClaimSpec(t, req, code, now, fault);
      var c := t.campaigns[req.campaignId];
      && Available(t, req.campaignId)
      && |t'.claims| == |t.claims| + 1 && t'.claims[..|t.claims|] == t.claims
      && t'.claims[|t.claims|] == NewClaim(req, code, now, ExpiryOf(c, now))
      && t'.campaigns == t.campaigns[req.campaignId := c.(codesRemaining := c.codesRemaining - 1)]
      && r.value == Receipt(code, ExpiryOf(c, now), c.codesRemaining - 1)
      && t'.verifications == t.verifications && t'.waitlist == t.waitlist
  {
    var c := t.campaigns[req.campaignId];
    assert (t.claims + [NewClaim(req, code, now, ExpiryOf(c, now))])[..|t.claims|] == t.claims;
  }

  /** Every refused claim, except one whose hook threw after COMMIT, leaves the tables unchanged. */
  lemma ClaimFailureUnchanged(t: Tables, req: ClaimRequest, code: string, now: int, fault: ClaimFault)
    requires fault != HookThrows
    requires ClaimSpec(t, req, code, now, fault).1.Failure?
    ensures ClaimSpec(t, req, code, now, fault).0 == t
  {
  }

  /** The refusal is the first failing check: availability, duplicate, IP limit, then the coupon. */
  lemma ClaimCheckOrder(t: Tables, req: ClaimRequest, code: string, now: int, fault: ClaimFault)
    ensures var r := ClaimSpec(t, req, code, now, fault).1;
      && (r == Failure(CampaignUnavailable) <==> !Available(t, req.campaignId))
      && (r == Failure(AlreadyClaimed) <==> (Available(t, req.campaignId)
            && exists i :: 0 <= i < |t.claims| && VerifiedEmailClaim(t.claims[i], req.campaignId, req.email)))
      && (r == Failure(IpLimit) <==> (Available(t, req.campaignId)
            && !HasClaimedCode(t.claims, req.campaignId, req.email)
            && t.campaigns[req.campaignId].enableIpLimit
            && CountIp(t.claims, req.campaignId, req.ip) >= t.campaigns[req.campaignId].maxPerIp))
      && (r.Failure? && r.error.CouponError? <==> (PrecheckError(t, req).None?
            && !CouponCreated(t.campaigns[req.campaignId], fault)))
  {
  }

  /**
   * The text of a coupon refusal: a negative `expiry_hours` reports the
   * exception `new DateInterval` threw, whether or not the save would have
   * worked; otherwise the failed save reports "Failed to create coupon".
   */
  lemma CouponErrorText(t: Tables, req: ClaimRequest, code: string, now: int, fault: ClaimFault)
    requires PrecheckError(t, req).None?
    ensures var c := t.campaigns[req.campaignId];
      var r := ClaimSpec(t, req, code, now, fault).1;
      && (c.expiryHours < 0 ==>
            r == Failure(CouponError("Unknown or bad format (PT-" + NatToString(-c.expiryHours) + "H)")))
      && (c.expiryHours >= 0 && fault == CouponSaveFails ==> r == Failure(CouponError("Failed to create coupon")))
  {
    var c := t.campaigns[req.campaignId];
    if c.expiryHours < 0 {
      assert IntervalErrorMessage(c.expiryHours) == "Unknown or bad format (PT-" + NatToString(-c.expiryHours) + "H)";
    }
  }

  /** Unverified rows never make a claim a duplicate. */
  lemma UnverifiedRowsIgnored(t: Tables, req: ClaimRequest, code: string, now: int, fault: ClaimFault, extra: Claim)
    requires !extra.emailVerified
    ensures ClaimSpec(t.(claims := t.claims + [extra]), req, code, now, fault).1 == Failure(AlreadyClaimed)
        <==> ClaimSpec(t, req, code, now, fault).1 == Failure(AlreadyClaimed)
  {
    CountEmailAppend(t.claims, extra, req.campaignId, req.email);
    CountEmailPositive(t.claims, req.campaignId, req.email);
    CountEmailPositive(t.claims + [extra], req.campaignId, req.email);
  }

  /** With `enable_ip_limit` off, the IP address never decides the outcome. */
  lemma IpIgnoredWithoutLimit(t: Tables, req: ClaimRequest, ip': string, code: string, now: int, fault: ClaimFault)
    requires req.campaignId in t.campaigns && !t.campaigns[req.campaignId].enableIpLimit
    ensures ClaimSpec(t, req, code, now, fault).1 == ClaimSpec(t, req.(ip := ip'), code, now, fault).1
  {
  }

  /** A campaign's remaining count never drops below zero through a claim. */
  lemma ClaimKeepsRemainingNonNegative(t: Tables, req: ClaimRequest, code: string, now: int, fault: ClaimFault, id: int)
    requires id in t.campaigns && t.campaigns[id].codesRemaining >= 0
    ensures id in ClaimSpec(t, req, code, now, fault).0.campaigns
    ensures ClaimSpec(t, req, code, now, fault).0.campaigns[id].codesRemaining >= 0
  {
  }

  /**
   * Codes left plus claims recorded for a campaign stays the same across a
   * claim, unless the unchecked decrement failed.
   */
  lemma ClaimConserves(t: Tables, req: ClaimRequest, code: string, now: int, fault: ClaimFault, id: int)
    requires id in t.campaigns && fault != DecrementFails
    ensures var t' := ClaimSpec(t, req, code, now, fault).0;
      id in t'.campaigns
      && t'.campaigns[id].codesRemaining + CountCampaign(t'.claims, id)
         == t.campaigns[id].codesRemaining + CountCampaign(t.claims, id)
  {
    if PrecheckError(t, req).None? {
      var c := t.campaigns[req.campaignId];
      CountCampaignAppend(t.claims, NewClaim(req, code, now, ExpiryOf(c, now)), id);
    }
  }

  /** When the decrement fails, the claim is recorded and the count is not reduced. */
  lemma DecrementFailureOversells(t: Tables, req: ClaimRequest, code: string, now: int)
    requires PrecheckError(t, req).None? && t.campaigns[req.campaignId].expiryHours >= 0
    ensures var (t', r) := ClaimSpec(t, req, code, now, DecrementFails);
      && r.Success?
      && t'.campaigns == t.campaigns
      && CountCampaign(t'.claims, req.campaignId) == CountCampaign(t.claims, req.campaignId) + 1
  {
    var c := t.campaigns[req.campaignId];
    CountCampaignAppend(t.claims, NewClaim(req, code, now, ExpiryOf(c, now)), req.campaignId);
  }

  /** A verified claim makes every later claim for the same campaign and e-mail a duplicate. */
  lemma SecondVerifiedClaimRefused(t: Tables, req: ClaimRequest, code: string, now: int, fault: ClaimFault,
                                   req2: ClaimRequest, code2: string, now2: int, fault2: ClaimFault)
    requires req.emailVerified && fault != DecrementFails
    requires ClaimSpec(t, req, code, now, fault).1.Success?
    requires req2.campaignId == req.campaignId && req2.email == req.email
    ensures var t' := ClaimSpec(t, req, code, now, fault).0;
      var r2 := ClaimSpec(t', req2, code2, now2, fault2).1;
      r2 == Failure(AlreadyClaimed) || r2 == Failure(CampaignUnavailable)
  {
    var t' := ClaimSpec(t, req, code, now, fault).0;
    ClaimSuccessEffect(t, req, code, now, fault);
    assert VerifiedEmailClaim(t'.claims[|t.claims|], req.campaignId, req.email);
  }

  // ---------------------------------------------------------------------
  // Campaign data validation

  /**
   * The campaign form after the browser's values are converted: `None` is a
   * key that is not set. `discountValue` keeps PHP's distinction between
   * an unset/null value, '' and a number.
   */
  datatype CampaignData = CampaignData(
    name: Option<string>,
    discountType: Option<string>,
    discountValue: DiscountInput,
    totalCodes: Option<int>,
    codesRemaining: Option<int>,
    expiryHours: Option<int>,
    enableIpLimit: Option<int>,
    maxPerIp: Option<int>,
    scopeType: Option<string>,
    status: Option<string>,
    tieredDiscounts: Option<seq<string>>,
    scopeIds: Option<seq<int>>)

  const MinCodes: int := 1
  const MaxCodes: int := 10000

  predicate NameMissing(d: CampaignData) {
    d.name.None? || EmptyString(d.name.value)
  }

  predicate TotalCodesOutOfRange(d: CampaignData) {
    // `null < 1` holds in PHP, so a missing count is out of range too.
    d.totalCodes.None? || d.totalCodes.value < MinCodes || d.totalCodes.value > MaxCodes
  }

  predicate ChecksDiscount(d: CampaignData, isUpdate: bool) {
    !isUpdate || !d.discountValue.NullValue? || d.discountType.Some?
  }

  /** `$data['discount_value'] ?? 0` and `$data['discount_type'] ?? 'percent'`. */
  function DiscountValueOrZero(d: CampaignData): DiscountInput {
    if d.discountValue.NullValue? then Number(0.0) else d.discountValue
  }

  function DiscountTypeOrPercent(d: CampaignData): string {
    if d.discountType.Some? then d.discountType.value else "percent"
  }

  /**
   * `!$validated` in `validate_campaign_data`: false, and also the float 0,
   * count as failure, so a discount of exactly 0 is refused.
   */
  predicate DiscountRefused(validated: Option<real>) {
    validated.None? || validated == Some(0.0)
  }

  const MsgNameRequired := "Campaign name is required"
  const MsgCodesRange := "Total codes must be between 1 and 10000"

  /** The discount step: the error map after the validator is asked, and the message it adds when it refuses. */
  function DiscountErrors(d: CampaignData, isUpdate: bool, errs: ErrorMap, price: real -> string)
    : (ErrorMap, seq<string>)
  {
    var check := DiscountCheck(DiscountValueOrZero(d), DiscountTypeOrPercent(d), price);
    var errs' := if ChecksDiscount(d, isUpdate) && check.Failure? then Put(errs, DiscountField, check.error) else errs;
    var validated := if check.Success? then Some(check.value) else None;
    (errs', if ChecksDiscount(d, isUpdate) && DiscountRefused(validated) then [ErrorMessage(errs')] else [])
  }

  /**
   * The validator's error map after `validate_campaign_data` has asked it
   * about the discount, and the messages the call collects. The discount
   * message is the validator's whole `get_error_message()`, earlier errors
   * included.
   */
  function CampaignDataErrors(d: CampaignData, isUpdate: bool, errs: ErrorMap, price: real -> string)
    : (r: (ErrorMap, seq<string>))
    ensures r.1 == [] <==>
      ((!isUpdate || d.name.Some?) ==> !NameMissing(d))
      && (ChecksDiscount(d, isUpdate) ==>
            DiscountCheck(DiscountValueOrZero(d), DiscountTypeOrPercent(d), price).Success?
            && DiscountCheck(DiscountValueOrZero(d), DiscountTypeOrPercent(d), price).value != 0.0)
      && ((!isUpdate || d.totalCodes.Some?) ==> !TotalCodesOutOfRange(d))
    ensures |r.1| <= 3
    ensures !ChecksDiscount(d, isUpdate) ==> r.0 == errs
  {
    var nameErr := if (!isUpdate || d.name.Some?) && NameMissing(d) then [MsgNameRequired] else [];
    var (errs', discountErr) := DiscountErrors(d, isUpdate, errs, price);
    var codesErr := if (!isUpdate || d.totalCodes.Some?) && TotalCodesOutOfRange(d)
      then [MsgCodesRange] else [];
    (errs', nameErr + discountErr + codesErr)
  }

  /** `validate_campaign_data`: `None` is `true`, `Some(m)` a `validation_error` with message `m`. */
  method ValidateCampaignData(v: Validator, d: CampaignData, isUpdate: bool, price: real -> string)
    returns (err: Option<string>)
    requires v.Valid()
    modifies v
    ensures v.Valid()
    ensures var (errs', msgs) := CampaignDataErrors(d, isUpdate, old(v.errors), price);
      v.errors == errs' && err == if msgs == [] then None else Some(Implode(". ", msgs))
  {
    ghost var errs0 := v.errors;
    var errors: seq<string> := [];
    if !isUpdate || d.name.Some? {
      if NameMissing(d) {
        errors := errors + [MsgNameRequired];
      }
    }
    ghost var nameErr := errors;
    var discountErr := AskDiscount(v, d, isUpdate, price);
    errors := errors + discountErr;
    ghost var codesErr: seq<string> := [];
    if !isUpdate || d.totalCodes.Some? {
      if TotalCodesOutOfRange(d) {
        codesErr := [MsgCodesRange];
        errors := errors + [MsgCodesRange];
      }
    }
    assert errors == nameErr + discountErr + codesErr;
    assert (v.errors, discountErr) == DiscountErrors(d, isUpdate, errs0, price);
    assert nameErr == if (!isUpdate || d.name.Some?) && NameMissing(d) then [MsgNameRequired] else [];
    assert codesErr == if (!isUpdate || d.totalCodes.Some?) && TotalCodesOutOfRange(d) then [MsgCodesRange] else [];
    assert CampaignDataErrors(d, isUpdate, errs0, price) == (v.errors, nameErr + discountErr + codesErr);
    err := if errors == [] then None else Some(Implode(". ", errors));
  }

  /** The discount part of `validate_campaign_data`: asks the validator and, on refusal, takes its whole message. */
  method AskDiscount(v: Validator, d: CampaignData, isUpdate: bool, price: real -> string) returns (discountErr: seq<string>)
    requires v.Valid()
    modifies v
    ensures v.Valid()
    ensures (v.errors, discountErr) == DiscountErrors(d, isUpdate, old(v.errors), price)
  {
    discountErr := [];
    if ChecksDiscount(d, isUpdate) {
      var validated := v.ValidateDiscountValue(DiscountValueOrZero(d), DiscountTypeOrPercent(d), price);
      if DiscountRefused(validated) {
        var message := v.GetErrorMessage();
        discountErr := [message];
      }
    }
  }

  /** On a fresh validator, a zero discount is refused with an empty message of its own. */
  lemma ZeroDiscountRefusedSilently(d: CampaignData, price: real -> string)
    requires d.discountValue == Number(0.0) && d.name.Some? && !EmptyString(d.name.value)
    requires d.totalCodes.Some? && MinCodes <= d.totalCodes.value <= MaxCodes
    ensures CampaignDataErrors(d, false, [], price).1 == [""]
  {
  }

  // ---------------------------------------------------------------------
  // Creating, reading and updating campaigns

  datatype AdminError = ValidationError(message: string) | NotFound | AdminDbError

  /** `implode(',', array_map('intval', $ids))`. */
  function JoinIds(ids: seq<int>): string {
    Implode(",", IntStrings(ids))
  }

  /**
   * The row `create_campaign` inserts: `sanitize` stands for
   * `sanitize_text_field`, `json` for `json_encode`. An unset discount type
   * is stored as ''.
   */
  function NewCampaign(d: CampaignData, sanitize: string -> string, json: seq<string> -> string): (c: Campaign)
    ensures c.status == "active"
    ensures d.totalCodes.Some? ==> c.totalCodes == c.codesRemaining == d.totalCodes.value
    ensures c.enableIpLimit <==> d.enableIpLimit.Some?
  {
    Campaign(
      sanitize(if d.name.Some? then d.name.value else ""),
      if d.discountType.Some? then d.discountType.value else "",
      if d.discountValue.Number? then d.discountValue.value else 0.0,
      if d.totalCodes.Some? then d.totalCodes.value else 0,
      if d.totalCodes.Some? then d.totalCodes.value else 0,
      if d.expiryHours.Some? then d.expiryHours.value else 24,
      d.enableIpLimit.Some?,
      if d.maxPerIp.Some? then d.maxPerIp.value else 1,
      if d.scopeType.Some? then d.scopeType.value else "all",
      if d.scopeIds.Some? && d.scopeIds.value != [] then JoinIds(d.scopeIds.value) else "",
      if d.tieredDiscounts.Some? && d.tieredDiscounts.value != [] then json(d.tieredDiscounts.value) else "",
      "active")
  }

  /** What `create_campaign` leaves in the tables and returns, given the validation outcome. */
  function CreateSpec(t: Tables, d: CampaignData, invalid: Option<string>, insertOk: bool,
                      sanitize: string -> string, json: seq<string> -> string): (r: (Tables, Result<int, AdminError>))
    ensures r.1.Failure? ==> r.0 == t
    ensures r.1.Success? ==>
      r.1.value == t.nextCampaignId
      && r.0.campaigns == t.campaigns[t.nextCampaignId := NewCampaign(d, sanitize, json)]
      && r.0.nextCampaignId == t.nextCampaignId + 1
      && r.0.claims == t.claims && r.0.verifications == t.verifications && r.0.waitlist == t.waitlist
  {
    if invalid.Some? then (t, Failure(ValidationError(invalid.value)))
    else if !insertOk then (t, Failure(AdminDbError))
    else
      (t.(campaigns := t.campaigns[t.nextCampaignId := NewCampaign(d, sanitize, json)],
          nextCampaignId := t.nextCampaignId + 1),
       Success(t.nextCampaignId))
  }

  /** A created campaign starts active with all its codes, between 1 and 10000 of them. */
  lemma CreatedCampaignShape(t: Tables, d: CampaignData, errs: ErrorMap, price: real -> string, insertOk: bool,
                             sanitize: string -> string, json: seq<string> -> string)
    requires CampaignDataErrors(d, false, errs, price).1 == []
    ensures var (t', r) := CreateSpec(t, d, None, insertOk, sanitize, json);
      r.Success? ==>
        var c := t'.campaigns[r.value];
        c.status == "active" && MinCodes <= c.totalCodes <= MaxCodes && c.codesRemaining == c.totalCodes
        && !EmptyString(d.name.value)
  {
  }

  /** `create_campaign`: validate, then insert the row with the next id. */
  method CreateCampaign(db: Store, v: Validator, d: CampaignData, insertOk: bool, price: real -> string,
                        sanitize: string -> string, json: seq<string> -> string)
    returns (r: Result<int, AdminError>)
    requires v.Valid()
    modifies db, v
    ensures v.Valid()
    ensures var (errs', msgs) := CampaignDataErrors(d, false, old(v.errors), price);
      v.errors == errs'
      && (db.Snapshot(), r) == CreateSpec(old(db.Snapshot()), d, if msgs == [] then None else Some(Implode(". ", msgs)),
                                          insertOk, sanitize, json)
    ensures db.cache == old(db.cache)
  {
    var invalid := ValidateCampaignData(v, d, false, price);
    if invalid.Some? {
      return Failure(ValidationError(invalid.value));
    }
    if !insertOk {
      return Failure(AdminDbError);
    }
    var id := db.nextCampaignId;
    db.campaigns := db.campaigns[id := NewCampaign(d, sanitize, json)];
    db.nextCampaignId := id + 1;
    return Success(id);
  }

  /**
   * `get_campaign`: the cached object if there is one (it may be stale),
   * otherwise the row, which is then cached.
   */
  function CampaignLookup(cache: map<int, Campaign>, campaigns: map<int, Campaign>, id: int): (c: Option<Campaign>)
    ensures c.Some? <==> id in cache || id in campaigns
    ensures id !in cache && id in campaigns ==> c == Some(campaigns[id])
  {
    if id in cache then Some(cache[id]) else if id in campaigns then Some(campaigns[id]) else None
  }

  /** The object cache after `get_campaign(id)`: a miss on a stored row caches it for later readers. */
  function CacheAfterLookup(cache: map<int, Campaign>, campaigns: map<int, Campaign>, id: int)
    : (r: map<int, Campaign>)
    ensures id in r <==> id in cache || id in campaigns
    ensures id in r ==> CampaignLookup(cache, campaigns, id) == Some(r[id])
    ensures forall k :: k != id ==> (k in r <==> k in cache) && (k in cache ==> r[k] == cache[k])
  {
    if id in cache || id !in campaigns then cache else cache[id := campaigns[id]]
  }

  method GetCampaign(db: Store, id: int) returns (c: Option<Campaign>)
    modifies db`cache
    ensures c == CampaignLookup(old(db.cache), db.campaigns, id)
    ensures db.cache == CacheAfterLookup(old(db.cache), db.campaigns, id)
    ensures id in old(db.cache) ==> c == Some(old(db.cache)[id]) && db.cache == old(db.cache)
    ensures id !in old(db.cache) && id in db.campaigns ==> c == Some(db.campaigns[id]) && db.cache == old(db.cache)[id := db.campaigns[id]]
    ensures id !in old(db.cache) && id !in db.campaigns ==> c == None && db.cache == old(db.cache)
  {
    if id in db.cache {
      return Some(db.cache[id]);
    }
    if id in db.campaigns {
      db.cache := db.cache[id := db.campaigns[id]];
      return Some(db.campaigns[id]);
    }
    return None;
  }

  /** The whitelisted columns present in the form written over the old row. */
  function ApplyUpdate(c: Campaign, d: CampaignData, json: seq<string> -> string): (r: Campaign)
    // a column that is absent from the form keeps its stored value
    ensures d.name.None? ==> r.name == c.name
    ensures d.discountType.None? ==> r.discountType == c.discountType
    ensures d.discountValue.NullValue? ==> r.discountValue == c.discountValue
    ensures d.totalCodes.None? ==> r.totalCodes == c.totalCodes
    ensures d.codesRemaining.None? ==> r.codesRemaining == c.codesRemaining
    ensures d.expiryHours.None? ==> r.expiryHours == c.expiryHours
    ensures d.enableIpLimit.None? ==> r.enableIpLimit == c.enableIpLimit
    ensures d.maxPerIp.None? ==> r.maxPerIp == c.maxPerIp
    ensures d.scopeType.None? ==> r.scopeType == c.scopeType
    ensures d.scopeIds.None? ==> r.scopeIds == c.scopeIds
    ensures d.tieredDiscounts.None? ==> r.tieredDiscounts == c.tieredDiscounts
    ensures d.status.None? ==> r.status == c.status
    // a column that is present takes the submitted value, stored as the table keeps it
    ensures d.name.Some? ==> r.name == d.name.value
    ensures d.discountType.Some? ==> r.discountType == d.discountType.value
    ensures d.discountValue.Number? ==> r.discountValue == d.discountValue.value
    ensures d.discountValue.BlankValue? ==> r.discountValue == 0.0
    ensures d.totalCodes.Some? ==> r.totalCodes == d.totalCodes.value
    ensures d.codesRemaining.Some? ==> r.codesRemaining == d.codesRemaining.value
    ensures d.expiryHours.Some? ==> r.expiryHours == d.expiryHours.value
    ensures d.enableIpLimit.Some? ==> (r.enableIpLimit <==> d.enableIpLimit.value != 0)
    ensures d.maxPerIp.Some? ==> r.maxPerIp == d.maxPerIp.value
    ensures d.scopeType.Some? ==> r.scopeType == d.scopeType.value
    ensures d.scopeIds.Some? ==> r.scopeIds == JoinIds(d.scopeIds.value)
    ensures d.tieredDiscounts.Some? ==> r.tieredDiscounts == json(d.tieredDiscounts.value)
    ensures d.status.Some? ==> r.status == d.status.value
  {
    var scopeIds := if d.scopeIds.Some? then Some(JoinIds(d.scopeIds.value)) else None;
    var tiered := if d.tieredDiscounts.Some? then Some(json(d.tieredDiscounts.value)) else None;
    var discount := if d.discountValue.Number? then d.discountValue.value
      else if d.discountValue.BlankValue? then 0.0 else c.discountValue;
    var ipLimit := if d.enableIpLimit.Some? then d.enableIpLimit.value != 0 else c.enableIpLimit;
    Campaign(
      OrElse(d.name, c.name), OrElse(d.discountType, c.discountType), discount,
      OrElse(d.totalCodes, c.totalCodes), OrElse(d.codesRemaining, c.codesRemaining),
      OrElse(d.expiryHours, c.expiryHours), ipLimit, OrElse(d.maxPerIp, c.maxPerIp),
      OrElse(d.scopeType, c.scopeType), OrElse(scopeIds, c.scopeIds), OrElse(tiered, c.tieredDiscounts),
      OrElse(d.status, c.status))
  }

  /**
   * Whether the form sets any column: `isset` holds for a present field, and
   * for a discount value only when it is not null. Without one the `SET`
   * list of the `UPDATE` is empty, and `$wpdb->update` fails.
   */
  predicate HasUpdateFields(d: CampaignData) {
    || d.name.Some? || d.discountType.Some? || !d.discountValue.NullValue? || d.totalCodes.Some?
    || d.codesRemaining.Some? || d.expiryHours.Some? || d.enableIpLimit.Some? || d.maxPerIp.Some?
    || d.scopeType.Some? || d.status.Some? || d.tieredDiscounts.Some? || d.scopeIds.Some?
  }

  /** An empty form changes nothing. */
  lemma EmptyUpdateIsIdentity(c: Campaign, json: seq<string> -> string)
    ensures ApplyUpdate(c, CampaignData(None, None, NullValue, None, None, None, None, None, None, None, None, None), json) == c
  {
  }

  /** Updating twice with the same form is the same as updating once. */
  lemma ApplyUpdateIdempotent(c: Campaign, d: CampaignData, json: seq<string> -> string)
    ensures ApplyUpdate(ApplyUpdate(c, d, json), d, json) == ApplyUpdate(c, d, json)
  {
  }

  /**
   * What `update_campaign` does to the tables once `get_campaign` has said
   * whether the campaign is `found` and validation has given its verdict
   * `invalid`; `updateOk` is whether `$wpdb->update` returns a value other
   * than `false` for a non-empty form.
   */
  function UpdateSpec(t: Tables, found: bool, id: int, d: CampaignData, invalid: Option<string>, updateOk: bool,
                      json: seq<string> -> string): (r: (Tables, Result<bool, AdminError>))
    ensures r.1.Failure? ==> r.0 == t
    ensures !found ==> r.1 == Failure(NotFound)
    ensures found && invalid.Some? ==> r.1 == Failure(ValidationError(invalid.value))
    ensures r.1.Success? <==> found && invalid.None? && HasUpdateFields(d) && updateOk
    ensures r.1.Success? ==> r.1.value
    ensures r.1.Success? ==>
      && (id in t.campaigns ==> r.0.campaigns == t.campaigns[id := ApplyUpdate(t.campaigns[id], d, json)])
      && (id !in t.campaigns ==> r.0.campaigns == t.campaigns)
      && r.0.claims == t.claims && r.0.verifications == t.verifications && r.0.waitlist == t.waitlist
      && r.0.nextCampaignId == t.nextCampaignId
  {
    if !found then (t, Failure(NotFound))
    else if invalid.Some? then (t, Failure(ValidationError(invalid.value)))
    else if !HasUpdateFields(d) || !updateOk then (t, Failure(AdminDbError))
    else if id in t.campaigns then (t.(campaigns := t.campaigns[id := ApplyUpdate(t.campaigns[id], d, json)]), Success(true))
    else (t, Success(true))
  }

  /**
   * `update_campaign`. The campaign is looked up through `get_campaign`;
   * the `UPDATE … WHERE id` touches no row when only the cache knew the id.
   * The cache entry is not dropped: on a miss the row as it was before the
   * update is cached, and readers are served that stale row. A form that
   * sets no column fails as a database error.
   */
  method UpdateCampaign(db: Store, v: Validator, id: int, d: CampaignData, updateOk: bool,
                        price: real -> string, json: seq<string> -> string)
    returns (r: Result<bool, AdminError>)
    requires v.Valid()
    modifies db, v
    ensures v.Valid()
    ensures id !in old(db.cache) && id !in old(db.campaigns) ==>
      r == Failure(NotFound) && db.Snapshot() == old(db.Snapshot()) && v.errors == old(v.errors)
    ensures r.Failure? ==> db.Snapshot() == old(db.Snapshot())
    ensures !HasUpdateFields(d) ==> r.Failure?
    ensures r.Success? ==> (db.campaigns.Keys == old(db.campaigns.Keys)
      && (id in old(db.campaigns) ==> db.campaigns == old(db.campaigns)[id := ApplyUpdate(old(db.campaigns)[id], d, json)])
      && (id !in old(db.campaigns) ==> db.campaigns == old(db.campaigns))
      && db.claims == old(db.claims) && db.verifications == old(db.verifications) && db.waitlist == old(db.waitlist)
      && db.nextCampaignId == old(db.nextCampaignId))
    ensures id in old(db.cache) ==> db.cache == old(db.cache)
    ensures id !in old(db.cache) && id in old(db.campaigns) ==> db.cache == old(db.cache)[id := old(db.campaigns)[id]]
    ensures var found := id in old(db.cache) || id in old(db.campaigns);
      var (errs', msgs) := CampaignDataErrors(d, true, old(v.errors), price);
      && v.errors == (if found then errs' else old(v.errors))
      && (db.Snapshot(), r) == UpdateSpec(old(db.Snapshot()), found, id, d,
                                          if msgs == [] then None else Some(Implode(". ", msgs)), updateOk, json)
  {
    var found := GetCampaign(db, id);
    if found.None? {
      return Failure(NotFound);
    }
    var invalid := ValidateCampaignData(v, d, true, price);
    if invalid.Some? {
      return Failure(ValidationError(invalid.value));
    }
    if !HasUpdateFields(d) || !updateOk {
      return Failure(AdminDbError);
    }
    if id in db.campaigns {
      db.campaigns := db.campaigns[id := ApplyUpdate(db.campaigns[id], d, json)];
    }
    return Success(true);
  }
}
