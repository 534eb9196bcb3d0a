/**
 * The version-1 plugin class in `wc-fomo-discount.php`: the admin form's
 * `create_campaign` with `validate_scope_ids`, the AJAX claim with its rate
 * limit, the 30-minute e-mail verification records, the token link that
 * confirms them, the transactional `process_discount_claim`, and the
 * clean-up of expired codes.
 *
 * Here a visitor's request only stores a verification record; the code is
 * taken from the campaign when the link is followed.
 */
module Monolith {
  import opened Php
  import opened Tables
  import opened CampaignManager

  const MsgUnavailable := "Campaign not available"
  const MsgRecordFailed := "Failed to process verification request"
  const MsgMailFailed := "Failed to send verification email. Please try again."
  const MsgInvalidLink := "Invalid verification link"
  const MsgUsedLink := "Verification link is invalid or has already been used."
  const MsgExpiredLink := "Verification link has expired. Please request a new discount."

  // ---------------------------------------------------------------------
  // validate_scope_ids

  /** The comma-separated pieces whose trimmed `intval` is positive, as those integers, in order. */
  function PositiveIds(pieces: seq<string>): (ids: seq<int>)
    ensures |ids| <= |pieces|
    ensures forall i :: 0 <= i < |ids| ==> 0 < ids[i] <= MaxInt
  {
    if pieces == [] then []
    else
      var id := PieceId(pieces[|pieces| - 1]);
      PositiveIds(pieces[..|pieces| - 1]) + (if id > 0 then [id] else [])
  }

  /** `intval(trim($id))`. */
  function PieceId(piece: string): (id: int)
    ensures id <= MaxInt
  {
    Intval(Trim(piece))
  }

  /** What `validate_scope_ids` returns. */
  function ScopeIdsSpec(input: string): string {
    if EmptyString(input) then "" else JoinIds(PositiveIds(Explode(',', input)))
  }

  /** `validate_scope_ids`: an empty input gives '', otherwise the positive ids joined by commas. */
  method ValidateScopeIds(input: string) returns (r: string)
    ensures r == ScopeIdsSpec(input)
  {
    if EmptyString(input) {
      return "";
    }
    var clean := CollectPositiveIds(Explode(',', input));
    return JoinIds(clean);
  }

  /** The `foreach` of `validate_scope_ids`: keeps each trimmed `intval` that is positive. */
  method CollectPositiveIds(pieces: seq<string>) returns (clean: seq<int>)
    ensures clean == PositiveIds(pieces)
  {
    clean := [];
    var i := 0;
    while i < |pieces|
      invariant 0 <= i <= |pieces|
      invariant clean == PositiveIds(pieces[..i])
    {
      PositiveIdsStep(pieces, i);
      var id := PieceId(pieces[i]);
      if id > 0 {
        clean := clean + [id];
      }
      i := i + 1;
    }
    assert pieces[..i] == pieces;
  }

  lemma PositiveIdsStep(pieces: seq<string>, i: nat)
    requires i < |pieces|
    ensures PositiveIds(pieces[..i + 1])
      == PositiveIds(pieces[..i]) + (if PieceId(pieces[i]) > 0 then [PieceId(pieces[i])] else [])
  {
    assert pieces[..i + 1][..i] == pieces[..i];
  }

  /** Every piece written by a positive id reads back as that id. */
  lemma {:induction false} PositiveIdsOfStrings(ids: seq<int>)
    requires forall i :: 0 <= i < |ids| ==> 0 < ids[i] <= MaxInt
    ensures PositiveIds(IntStrings(ids)) == ids
  {
    if ids != [] {
      var n := |ids| - 1;
      PositiveIdsOfStrings(ids[..n]);
      LastIdReadsBack(ids);
      DropLastAppend(ids);
    }
  }

  lemma DropLastAppend(ids: seq<int>)
    requires ids != []
    ensures ids[..|ids| - 1] + [ids[|ids| - 1]] == ids
  {
  }

  lemma LastIdReadsBack(ids: seq<int>)
    requires ids != [] && 0 < ids[|ids| - 1] <= MaxInt
    ensures PositiveIds(IntStrings(ids)) == PositiveIds(IntStrings(ids[..|ids| - 1])) + [ids[|ids| - 1]]
  {
    var n := |ids| - 1;
    var strs := IntStrings(ids);
    assert strs[..n] == IntStrings(ids[..n]);
    IntStringsAt(ids, n);
    PositiveIdOfDecimal(ids[n]);
    assert PieceId(strs[n]) == ids[n];
  }

  lemma PositiveIdOfDecimal(n: nat)
    requires 0 < n <= MaxInt
    ensures PieceId(IntToString(n)) == n
  {
    var s := NatToString(n);
    assert IsDigit(s[0]) && IsDigit(s[|s| - 1]);
    TrimNoop(s);
    IntvalOfNatToString(n);
  }

  /** The text `validate_scope_ids` returns is already clean: a second pass leaves it as it is. */
  lemma ScopeIdsIdempotent(input: string)
    ensures ScopeIdsSpec(ScopeIdsSpec(input)) == ScopeIdsSpec(input)
  {
    var out := ScopeIdsSpec(input);
    if !EmptyString(input) {
      var ids := PositiveIds(Explode(',', input));
      if ids != [] {
        var strs := IntStrings(ids);
        forall i | 0 <= i < |strs| ensures ',' !in strs[i] {
          IntStringsAt(ids, i);
          assert strs[i] == NatToString(ids[i]);
        }
        ExplodeImplode(',', strs);
        PositiveIdsOfStrings(ids);
        assert !EmptyString(out) by {
          var first := NatToString(ids[0]);
          ImplodeStartsWithFirst(",", strs);
          IntStringsAt(ids, 0);
          assert strs[0] == first && |first| >= 1;
          assert out[0] == first[0];
          if ids[0] < 10 {
            assert first == [DigitChar(ids[0])];
          }
          assert out[0] != '0' || |out| > 1;
        }
      }
    }
  }

  lemma ImplodeStartsWithFirst(sep: string, parts: seq<string>)
    requires |parts| >= 1
    ensures StartsWith(Implode(sep, parts), parts[0])
  {
  }

  // ---------------------------------------------------------------------
  // create_campaign (the admin form's handler)

  /** The posted admin form, after `floatval` on the discount. */
  datatype CampaignForm = CampaignForm(
    name: string,
    discountType: string,
    discountValue: real,
    totalCodes: string,
    expiryHours: string,
    scopeType: string,
    scopeIds: string)

  /** `intval` on a posted field. */
  function FormInt(field: string): (i: int)
    ensures MinInt <= i <= MaxInt
  {
    Intval(field)
  }

  /**
   * The row the form inserts, `scopeIds` being what `validate_scope_ids`
   * made of the posted list: no validation beyond `intval`; the columns the
   * form does not send take their defaults.
   */
  function FormRow(f: CampaignForm, scopeIds: string, sanitize: string -> string): (c: Campaign)
    ensures c.totalCodes == c.codesRemaining == FormInt(f.totalCodes)
    ensures c.status == "active" && !c.enableIpLimit
  {
    Campaign(sanitize(f.name), sanitize(f.discountType), f.discountValue,
             FormInt(f.totalCodes), FormInt(f.totalCodes), FormInt(f.expiryHours),
             false, 1, sanitize(f.scopeType), scopeIds, "", "active")
  }

  /**
   * `create_campaign`. Nothing happens unless the nonce checks; the insert's
   * result is not looked at, so the success notice is shown either way.
   */
  method CreateCampaignFromForm(db: Store, f: CampaignForm, nonceOk: bool, insertOk: bool,
                                sanitize: string -> string)
    returns (noticeShown: bool)
    modifies db
    ensures noticeShown == nonceOk
    ensures nonceOk && insertOk ==>
      db.campaigns == old(db.campaigns)[old(db.nextCampaignId) := FormRow(f, ScopeIdsSpec(f.scopeIds), sanitize)]
      && db.nextCampaignId == old(db.nextCampaignId) + 1
    ensures !(nonceOk && insertOk) ==> db.campaigns == old(db.campaigns) && db.nextCampaignId == old(db.nextCampaignId)
    ensures db.claims == old(db.claims) && db.verifications == old(db.verifications) && db.waitlist == old(db.waitlist)
    ensures db.cache == old(db.cache)
  {
    if !nonceOk {
      return false;
    }
    var scopeIds := ValidateScopeIds(f.scopeIds);
    if insertOk {
      db.campaigns := db.campaigns[db.nextCampaignId := FormRow(f, scopeIds, sanitize)];
      db.nextCampaignId := db.nextCampaignId + 1;
    }
    return true;
  }

  /** A form whose code count does not read as a positive number creates a campaign nobody can claim from. */
  lemma UnvalidatedFormCreatesDeadCampaign(t: Tables, id: int, f: CampaignForm, sanitize: string -> string)
    requires FormInt(f.totalCodes) <= 0
    ensures forall scopeIds :: !Available(t.(campaigns := t.campaigns[id := FormRow(f, scopeIds, sanitize)]), id)
  {
  }

  // ---------------------------------------------------------------------
  // is_rate_limited

  /** A claim row from this address for this campaign made within the last hour. */
  predicate RecentFrom(c: Claim, ip: string, campaignId: int, now: int) {
    c.ip == ip && c.campaignId == campaignId && c.claimedAt > now - 3600
  }

  function CountRecent(claims: seq<Claim>, ip: string, campaignId: int, now: int): (n: nat)
    ensures n <= |claims|
  {
    if claims == [] then 0
    else
      var last := if RecentFrom(claims[|claims| - 1], ip, campaignId, now) then 1 else 0;
      CountRecent(claims[..|claims| - 1], ip, campaignId, now) + last
  }

  /** `is_rate_limited`: five or more such rows, verified or not. */
  predicate IsRateLimited(t: Tables, ip: string, campaignId: int, now: int): (b: bool)
    ensures b ==> |t.claims| >= 5
  {
    CountRecent(t.claims, ip, campaignId, now) >= 5
  }

  /** The count is the number of matching rows. */
  lemma {:induction false} CountRecentIsCardinality(claims: seq<Claim>, ip: string, campaignId: int, now: int)
    ensures CountRecent(claims, ip, campaignId, now)
      == |set i | 0 <= i < |claims| && RecentFrom(claims[i], ip, campaignId, now)|
  {
    if claims != [] {
      var n := |claims| - 1;
      var init := claims[..n];
      CountRecentIsCardinality(init, ip, campaignId, now);
      var before := set i | 0 <= i < |init| && RecentFrom(init[i], ip, campaignId, now);
      var all := set i | 0 <= i < |claims| && RecentFrom(claims[i], ip, campaignId, now);
      if RecentFrom(claims[n], ip, campaignId, now) {
        assert all == before + {n};
        assert n !in before;
      } else {
        assert all == before;
      }
    }
  }

  /** A request is limited exactly when at least five matching rows exist. */
  lemma RateLimitMeaning(t: Tables, ip: string, campaignId: int, now: int)
    ensures IsRateLimited(t, ip, campaignId, now)
      <==> |set i | 0 <= i < |t.claims| && RecentFrom(t.claims[i], ip, campaignId, now)| >= 5
  {
    CountRecentIsCardinality(t.claims, ip, campaignId, now);
  }

  // ---------------------------------------------------------------------
  // process_discount_claim

  /** What the code around the transaction does on this call. */
  datatype V1Fault =
    | Unhindered
    | CouponNotSaved    // `$coupon->save()` returns 0
    | ClaimNotInserted  // the claim insert returns false
    | CountNotUpdated   // the `codes_remaining` update returns false
    | Throws            // an exception inside the `try` before COMMIT
    | MarkNotUpdated    // the unchecked `verified_at` update returns false
  {
    /** The faults after which the transaction still commits. */
    predicate Commits() {
      Unhindered? || MarkNotUpdated?
    }
  }

  /** The refusals of `process_discount_claim`. */
  datatype V1Error = Unavailable | CouponFailed | SaveFailed | UpdateFailed | Errored

  /** The message shown: `wp_die` text on the link path, the AJAX error text otherwise. */
  function V1Message(e: V1Error, viaLink: bool): string {
    match e
    case Unavailable => if viaLink then "Sorry, this campaign is no longer available." else MsgUnavailable
    case CouponFailed => if viaLink then "Failed to create discount coupon. Please contact support." else "Failed to create discount coupon"
    case SaveFailed => if viaLink then "Failed to save discount code. Please contact support." else "Failed to save discount code"
    case UpdateFailed => if viaLink then "Failed to update campaign. Please contact support." else "Failed to update campaign"
    case Errored => if viaLink then "An error occurred processing your discount. Please contact support." else "An error occurred. Please try again."
  }

  /**
   * What one `process_discount_claim` call leaves in the tables and returns.
   * `verification` is the index of the confirmed record, if any; `code` is
   * the freshly generated code, used only when there is none. A negative
   * `expiry_hours` makes `new DateInterval` throw.
   */
  function ProcessSpec(t: Tables, req: ClaimRequest, verification: Option<nat>, code: string, now: int, fault: V1Fault)
    : (r: (Tables, Result<Receipt, V1Error>))
    requires verification.Some? ==> verification.value < |t.verifications|
    ensures r.1 == Failure(Unavailable) <==> !Available(t, req.campaignId)
    ensures r.1.Success? ==> Available(t, req.campaignId) && fault.Commits()
    ensures Available(t, req.campaignId) && fault.Commits() ==>
      (r.1.Success? <==> t.campaigns[req.campaignId].expiryHours >= 0)
    ensures r.0.campaigns.Keys == t.campaigns.Keys && r.0.nextCampaignId == t.nextCampaignId
    ensures r.0.waitlist == t.waitlist && |r.0.verifications| == |t.verifications|
  {
    if !Available(t, req.campaignId) then (t, Failure(Unavailable))
    else
      var c := t.campaigns[req.campaignId];
      var couponCode := if verification.Some? then t.verifications[verification.value].couponCode else code;
      if fault == Throws || c.expiryHours < 0 then (t, Failure(Errored))
      else if fault == CouponNotSaved then (t, Failure(CouponFailed))
      else if fault == ClaimNotInserted then (t, Failure(SaveFailed))
      else if fault == CountNotUpdated then (t, Failure(UpdateFailed))
      else
        var expiry := ExpiryOf(c, now);
        var vs := if verification.Some? && fault == Unhindered
          then t.verifications[verification.value := t.verifications[verification.value].(verifiedAt := Some(now))]
          else t.verifications;
        (Tables(t.campaigns[req.campaignId := c.(codesRemaining := c.codesRemaining - 1)], t.nextCampaignId,
                t.claims + [NewClaim(req, couponCode, now, expiry)], vs, t.waitlist),
         Success(Receipt(couponCode, expiry, c.codesRemaining - 1)))
  }

  /** `process_discount_claim`: lock, create the coupon, insert, mark the record, decrement, commit. */
  method ProcessDiscountClaim(db: Store, req: ClaimRequest, verification: Option<nat>, code: string, now: int,
                              fault: V1Fault)
    returns (r: Result<Receipt, V1Error>)
    requires verification.Some? ==> verification.value < |db.verifications|
    modifies db
    ensures (db.Snapshot(), r) == ProcessSpec(old(db.Snapshot()), req, verification, code, now, fault)
    ensures db.cache == old(db.cache)
  {
    var start := db.Snapshot();
    // START TRANSACTION; SELECT … FOR UPDATE
    if !(req.campaignId in db.campaigns && db.campaigns[req.campaignId].status == "active"
         && db.campaigns[req.campaignId].codesRemaining > 0) {
      db.Restore(start);
      return Failure(Unavailable);
    }
    var campaign := db.campaigns[req.campaignId];
    var couponCode := if verification.Some? then db.verifications[verification.value].couponCode else code;
    if fault == Throws || campaign.expiryHours < 0 {
      db.Restore(start);
      return Failure(Errored);
    }
    var expiry := now + campaign.expiryHours * 3600;
    if fault == CouponNotSaved {
      db.Restore(start);
      return Failure(CouponFailed);
    }
    if fault == ClaimNotInserted {
      db.Restore(start);
      return Failure(SaveFailed);
    }
    db.claims := db.claims + [NewClaim(req, couponCode, now, expiry)];
    if verification.Some? && fault != MarkNotUpdated {
      var k := verification.value;
      db.verifications := db.verifications[k := db.verifications[k].(verifiedAt := Some(now))];
    }
    if fault == CountNotUpdated {
      db.Restore(start);
      return Failure(UpdateFailed);
    }
    db.campaigns := db.campaigns[req.campaignId := campaign.(codesRemaining := campaign.codesRemaining - 1)];
    // COMMIT
    return Success(Receipt(couponCode, expiry, campaign.codesRemaining - 1));
  }

  /**
   * A successful call adds one claim row carrying the passed `email_verified`
   * flag and the record's code when there is a record, and takes exactly one
   * code. It marks the record verified, so that its token cannot be used
   * again, unless that unchecked update fails; the record then stays as it was.
   */
  lemma ProcessSuccessEffect(t: Tables, req: ClaimRequest, verification: Option<nat>, code: string, now: int,
                             fault: V1Fault)
    requires verification.Some? ==> verification.value < |t.verifications|
    requires ProcessSpec(t, req, verification, code, now, fault).1.Success?
    ensures var (t', r) := ProcessSpec(t, req, verification, code, now, fault);
      var c := t.campaigns[req.campaignId];
      && Available(t, req.campaignId) && fault.Commits()
      && |t'.claims| == |t.claims| + 1 && t'.claims[..|t.claims|] == t.claims
      && t'.claims[|t.claims|].emailVerified == req.emailVerified
      && t'.claims[|t.claims|].couponCode == r.value.code
      && (verification.Some? ==>
            r.value.code == t.verifications[verification.value].couponCode
            && (fault == Unhindered ==> t'.verifications[verification.value].verifiedAt == Some(now))
            && (fault == MarkNotUpdated ==> t'.verifications == t.verifications))
      && (verification.None? ==> r.value.code == code && t'.verifications == t.verifications)
      && t'.campaigns == t.campaigns[req.campaignId := c.(codesRemaining := c.codesRemaining - 1)]
      && r.value.codesRemaining == c.codesRemaining - 1
  {
    var t' := ProcessSpec(t, req, verification, code, now, fault).0;
    assert t'.claims[..|t.claims|] == t.claims;
  }

  /** Every refusal rolls the whole transaction back. */
  lemma ProcessFailureUnchanged(t: Tables, req: ClaimRequest, verification: Option<nat>, code: string, now: int,
                                fault: V1Fault)
    requires verification.Some? ==> verification.value < |t.verifications|
    requires ProcessSpec(t, req, verification, code, now, fault).1.Failure?
    ensures ProcessSpec(t, req, verification, code, now, fault).0 == t
  {
  }

  /** Codes left plus claims recorded stays the same for every campaign, and stays at least zero. */
  lemma ProcessConserves(t: Tables, req: ClaimRequest, verification: Option<nat>, code: string, now: int,
                         fault: V1Fault, id: int)
    requires verification.Some? ==> verification.value < |t.verifications|
    requires id in t.campaigns
    ensures var t' := ProcessSpec(t, req, verification, code, now, fault).0;
      id in t'.campaigns
      && t'.campaigns[id].codesRemaining + CountCampaign(t'.claims, id)
         == t.campaigns[id].codesRemaining + CountCampaign(t.claims, id)
      && (t.campaigns[id].codesRemaining >= 0 ==> t'.campaigns[id].codesRemaining >= 0)
  {
    var (t', r) := ProcessSpec(t, req, verification, code, now, fault);
    if r.Success? {
      var c := t.campaigns[req.campaignId];
      var couponCode := if verification.Some? then t.verifications[verification.value].couponCode else code;
      DecrementAndRecordConserves(t, NewClaim(req, couponCode, now, ExpiryOf(c, now)), id);
    }
  }

  /** One code taken from a campaign with codes left, and its claim row appended. */
  lemma DecrementAndRecordConserves(t: Tables, claim: Claim, id: int)
    requires claim.campaignId in t.campaigns && t.campaigns[claim.campaignId].codesRemaining > 0
    requires id in t.campaigns
    ensures var c := t.campaigns[claim.campaignId];
      var cs := t.campaigns[claim.campaignId := c.(codesRemaining := c.codesRemaining - 1)];
      && cs[id].codesRemaining + CountCampaign(t.claims + [claim], id)
         == t.campaigns[id].codesRemaining + CountCampaign(t.claims, id)
      && (t.campaigns[id].codesRemaining >= 0 ==> cs[id].codesRemaining >= 0)
  {
    CountCampaignAppend(t.claims, claim, id);
  }

  // ---------------------------------------------------------------------
  // send_verification_email

  /** The reply to a visitor's claim request. */
  datatype V1Response = CodeIssued(receipt: Receipt) | VerificationSent | Refused(message: string)

  /** Thirty minutes, the lifetime of a verification link. */
  const LinkLifetime: int := 1800

  function NewVerification(campaignId: int, email: string, ip: string, token: string, code: string, now: int)
    : Verification
  {
    Verification(campaignId, email, token, code, ip, now, now + LinkLifetime, None)
  }

  /**
   * What `send_verification_email` leaves and returns. The record is
   * inserted before the mail goes out and stays when sending fails.
   */
  function SendSpec(t: Tables, campaignId: int, email: string, ip: string, token: string, code: string, now: int,
                    insertOk: bool, mailOk: bool): (r: (Tables, V1Response))
    ensures r.0.campaigns == t.campaigns && r.0.claims == t.claims && r.0.waitlist == t.waitlist
    ensures r.0.nextCampaignId == t.nextCampaignId && !r.1.CodeIssued?
    ensures r.1 != VerificationSent || r.0.verifications == t.verifications + [NewVerification(campaignId, email, ip, token, code, now)]
  {
    if !Available(t, campaignId) then (t, Refused(MsgUnavailable))
    else if !insertOk then (t, Refused(MsgRecordFailed))
    else
      var t' := t.(verifications := t.verifications + [NewVerification(campaignId, email, ip, token, code, now)]);
      if !mailOk then (t', Refused(MsgMailFailed))
      else (t', VerificationSent)
  }

  method SendVerificationEmail(db: Store, campaignId: int, email: string, ip: string, token: string, code: string,
                               now: int, insertOk: bool, mailOk: bool)
    returns (r: V1Response)
    modifies db
    ensures (db.Snapshot(), r) == SendSpec(old(db.Snapshot()), campaignId, email, ip, token, code, now, insertOk, mailOk)
    ensures db.cache == old(db.cache)
  {
    if !(campaignId in db.campaigns && db.campaigns[campaignId].status == "active"
         && db.campaigns[campaignId].codesRemaining > 0) {
      return Refused(MsgUnavailable);
    }
    if !insertOk {
      return Refused(MsgRecordFailed);
    }
    db.verifications := db.verifications + [NewVerification(campaignId, email, ip, token, code, now)];
    if !mailOk {
      return Refused(MsgMailFailed);
    }
    return VerificationSent;
  }

  // ---------------------------------------------------------------------
  // ajax_claim_discount

  /** Who sends the request: a logged-in account with its e-mail, or a visitor with the posted one. */
  datatype Visitor = Member(userId: int, accountEmail: string) | Guest(postedEmail: string)

  /** An unconfirmed record for this campaign and e-mail whose link has not expired. */
  predicate PendingVerification(t: Tables, campaignId: int, email: string, now: int) {
    exists i :: 0 <= i < |t.verifications| && IsPending(t.verifications[i], campaignId, email, now)
  }

  predicate IsPending(v: Verification, campaignId: int, email: string, now: int) {
    v.campaignId == campaignId && v.email == email && v.verifiedAt.None? && v.expiresAt > now
  }

  /** The environment of a request: PHP helpers, randomness, and what the outside world does. */
  datatype Env = Env(
    sanitizeEmail: string -> string,
    isEmail: string -> bool,
    tokenRnd: Random,
    codeRnd: Random,
    fault: V1Fault,
    insertOk: bool,
    mailOk: bool)

  function RequestEmail(visitor: Visitor, env: Env): string {
    match visitor
    case Member(_, accountEmail) => accountEmail
    case Guest(posted) => env.sanitizeEmail(posted)
  }

  const DuplicateMessage := "You have already claimed a discount from this campaign"
  const PendingMessage := "A verification email was already sent. Please check your inbox and spam folder."

  /** The refusal `ajax_claim_discount` gives before touching any table, if any. */
  function RequestRefusal(t: Tables, campaignId: int, visitor: Visitor, ip: string, now: int, env: Env): Option<string> {
    var email := RequestEmail(visitor, env);
    if EmptyString(email) then
      Some(if visitor.Member? then "Your account does not have an email address. Please add one in your profile."
           else "Email address is required")
    else if !env.isEmail(email) then Some("Please provide a valid email address")
    else if IsRateLimited(t, ip, campaignId, now) then Some("Too many requests. Please try again later.")
    else if visitor.Member? then None
    else if HasClaimedCode(t.claims, campaignId, email) then Some(DuplicateMessage)
    else if PendingVerification(t, campaignId, email, now) then Some(PendingMessage)
    else None
  }

  /**
   * What `ajax_claim_discount` does: members claim at once with
   * `email_verified = true`; visitors get a verification record with a
   * 64-digit hexadecimal token and a fresh code.
   */
  function AjaxClaimSpec(t: Tables, campaignId: int, visitor: Visitor, ip: string, now: int, env: Env)
    : (r: (Tables, V1Response))
    ensures RequestRefusal(t, campaignId, visitor, ip, now, env).Some? ==>
      r == (t, Refused(RequestRefusal(t, campaignId, visitor, ip, now, env).value))
    ensures r.1.CodeIssued? ==> visitor.Member?
    ensures r.1.VerificationSent? ==> visitor.Guest?
    ensures r.0.campaigns.Keys == t.campaigns.Keys && r.0.nextCampaignId == t.nextCampaignId
    ensures r.0.waitlist == t.waitlist
  {
    var email := RequestEmail(visitor, env);
    match RequestRefusal(t, campaignId, visitor, ip, now, env)
    case Some(m) => (t, Refused(m))
    case None =>
      match visitor
      case Member(userId, _) =>
        var (t', r) := ProcessSpec(t, ClaimRequest(campaignId, email, ip, true, userId), None,
                                   GenerateCouponCode(env.codeRnd), now, env.fault);
        (t', if r.Success? then CodeIssued(r.value) else Refused(V1Message(r.error, false)))
      case Guest(_) =>
        SendSpec(t, campaignId, email, ip, RandomHex(32, env.tokenRnd), GenerateCouponCode(env.codeRnd), now,
                 env.insertOk, env.mailOk)
  }

  method AjaxClaimDiscount(db: Store, campaignId: int, visitor: Visitor, ip: string, now: int, env: Env)
    returns (r: V1Response)
    modifies db
    ensures (db.Snapshot(), r) == AjaxClaimSpec(old(db.Snapshot()), campaignId, visitor, ip, now, env)
    ensures db.cache == old(db.cache)
  {
    var refusal := RequestRefusal(db.Snapshot(), campaignId, visitor, ip, now, env);
    if refusal.Some? {
      return Refused(refusal.value);
    }
    var email := RequestEmail(visitor, env);
    if visitor.Member? {
      var claimed := ProcessDiscountClaim(db, ClaimRequest(campaignId, email, ip, true, visitor.userId), None,
                                          GenerateCouponCode(env.codeRnd), now, env.fault);
      return if claimed.Success? then CodeIssued(claimed.value) else Refused(V1Message(claimed.error, false));
    }
    r := SendVerificationEmail(db, campaignId, email, ip, RandomHex(32, env.tokenRnd), GenerateCouponCode(env.codeRnd),
                               now, env.insertOk, env.mailOk);
  }

  /**
   * A visitor's request never takes a code: at most it appends one
   * thirty-minute record with a 64-digit hexadecimal token and a code
   * starting with "FOMO".
   */
  lemma GuestRequestOnlyRecords(t: Tables, campaignId: int, posted: string, ip: string, now: int, env: Env)
    ensures var (t', r) := AjaxClaimSpec(t, campaignId, Guest(posted), ip, now, env);
      && t'.campaigns == t.campaigns && t'.claims == t.claims && t'.waitlist == t.waitlist
      && (t'.verifications == t.verifications
          || (|t'.verifications| == |t.verifications| + 1
              && t'.verifications[..|t.verifications|] == t.verifications
              && var v := t'.verifications[|t.verifications|];
                 |v.token| == 64 && (forall k :: 0 <= k < 64 ==> IsDigit(v.token[k]) || 'a' <= v.token[k] <= 'f')
                 && StartsWith(v.couponCode, "FOMO") && v.expiresAt == now + LinkLifetime && v.verifiedAt.None?
                 && v.campaignId == campaignId && Available(t, campaignId)))
  {
    GuestTouchesOnlyRecords(t, campaignId, posted, ip, now, env);
    var (t', r) := AjaxClaimSpec(t, campaignId, Guest(posted), ip, now, env);
    if t'.verifications != t.verifications {
      var email := env.sanitizeEmail(posted);
      var v := NewVerification(campaignId, email, ip, RandomHex(32, env.tokenRnd), GenerateCouponCode(env.codeRnd), now);
      assert t'.verifications == t.verifications + [v];
      assert t'.verifications[..|t.verifications|] == t.verifications;
    }
  }

  /** A visitor's request leaves the campaigns, the claims and the waitlist as they were. */
  lemma GuestTouchesOnlyRecords(t: Tables, campaignId: int, posted: string, ip: string, now: int, env: Env)
    ensures var t' := AjaxClaimSpec(t, campaignId, Guest(posted), ip, now, env).0;
      t'.campaigns == t.campaigns && t'.claims == t.claims && t'.waitlist == t.waitlist
  {
  }

  /**
   * A visitor with a valid e-mail who is not rate-limited is refused as a
   * duplicate exactly when a verified claim exists, and otherwise as pending
   * exactly when an unexpired unconfirmed record exists.
   */
  lemma GuestRefusals(t: Tables, campaignId: int, posted: string, ip: string, now: int, env: Env)
    requires var email := env.sanitizeEmail(posted); !EmptyString(email) && env.isEmail(email)
    requires !IsRateLimited(t, ip, campaignId, now)
    ensures var email := env.sanitizeEmail(posted);
      var r := AjaxClaimSpec(t, campaignId, Guest(posted), ip, now, env).1;
      && ((r == Refused(DuplicateMessage))
          <==> (exists i :: 0 <= i < |t.claims| && VerifiedEmailClaim(t.claims[i], campaignId, email)))
      && (!HasClaimedCode(t.claims, campaignId, email) ==>
            ((r == Refused(PendingMessage)) <==> PendingVerification(t, campaignId, email, now)))
  {
    var email := env.sanitizeEmail(posted);
    var refusal := RequestRefusal(t, campaignId, Guest(posted), ip, now, env);
    if HasClaimedCode(t.claims, campaignId, email) {
      assert refusal == Some(DuplicateMessage);
    } else if PendingVerification(t, campaignId, email, now) {
      assert refusal == Some(PendingMessage);
    } else {
      assert refusal == None;
      var token := RandomHex(32, env.tokenRnd);
      var code := GenerateCouponCode(env.codeRnd);
      assert AjaxClaimSpec(t, campaignId, Guest(posted), ip, now, env)
          == SendSpec(t, campaignId, email, ip, token, code, now, env.insertOk, env.mailOk);
      SendNeverRefusesAsDuplicate(t, campaignId, email, ip, token, code, now, env.insertOk, env.mailOk);
    }
  }

  lemma SendNeverRefusesAsDuplicate(t: Tables, campaignId: int, email: string, ip: string, token: string, code: string,
                                    now: int, insertOk: bool, mailOk: bool)
    ensures var r := SendSpec(t, campaignId, email, ip, token, code, now, insertOk, mailOk).1;
      r != Refused(DuplicateMessage) && r != Refused(PendingMessage)
  {
  }

  /** A member who passes the checks goes through the claim with `email_verified = true`. */
  lemma MemberClaimsVerified(t: Tables, campaignId: int, userId: int, email: string, ip: string, now: int, env: Env)
    requires !EmptyString(email) && env.isEmail(email) && !IsRateLimited(t, ip, campaignId, now)
    requires AjaxClaimSpec(t, campaignId, Member(userId, email), ip, now, env).1.CodeIssued?
    ensures var t' := AjaxClaimSpec(t, campaignId, Member(userId, email), ip, now, env).0;
      |t'.claims| == |t.claims| + 1 && t'.claims[|t.claims|].emailVerified
      && HasClaimedCode(t'.claims, campaignId, email)
  {
    var req := ClaimRequest(campaignId, email, ip, true, userId);
    var code := GenerateCouponCode(env.codeRnd);
    ProcessSuccessEffect(t, req, None, code, now, env.fault);
    var t' := AjaxClaimSpec(t, campaignId, Member(userId, email), ip, now, env).0;
    assert VerifiedEmailClaim(t'.claims[|t.claims|], campaignId, email);
  }

  /**
   * The record stays even when the mail is not sent, so the same visitor is
   * refused as pending for the next thirty minutes.
   */
  lemma UnsentMailStillBlocks(t: Tables, campaignId: int, email: string, ip: string, token: string, code: string,
                              now: int, later: int)
    requires Available(t, campaignId)
    requires now <= later < now + LinkLifetime
    ensures var t' := SendSpec(t, campaignId, email, ip, token, code, now, true, false).0;
      PendingVerification(t', campaignId, email, later)
  {
    var t' := SendSpec(t, campaignId, email, ip, token, code, now, true, false).0;
    assert IsPending(t'.verifications[|t.verifications|], campaignId, email, later);
  }

  // ---------------------------------------------------------------------
  // ajax_verify_email

  /** `SELECT … WHERE verification_token = %s AND campaign_id = %d AND verified_at IS NULL`: the first match. */
  function FindVerification(vs: seq<Verification>, token: string, campaignId: int): (r: Option<nat>)
    ensures r.Some? ==>
      r.value < |vs| && Unused(vs[r.value], token, campaignId)
      && forall j :: 0 <= j < r.value ==> !Unused(vs[j], token, campaignId)
    ensures r.None? <==> forall j :: 0 <= j < |vs| ==> !Unused(vs[j], token, campaignId)
  {
    if vs == [] then None
    else if Unused(vs[0], token, campaignId) then Some(0)
    else
      var rest := FindVerification(vs[1..], token, campaignId);
      if rest.Some? then Some(rest.value + 1) else None
  }

  predicate Unused(v: Verification, token: string, campaignId: int) {
    v.token == token && v.campaignId == campaignId && v.verifiedAt.None?
  }

  /**
   * What following a verification link does, with the `email_verified`
   * flag handed to `process_discount_claim` as a parameter. `currentUser` is
   * whoever is logged in when the link is opened (0 for nobody).
   */
  function VerifyWithFlag(t: Tables, token: string, campaignId: int, currentUser: int, now: int, fault: V1Fault,
                          flag: bool): (r: (Tables, V1Response))
    ensures EmptyString(token) || campaignId == 0 ==> r == (t, Refused(MsgInvalidLink))
    ensures FindVerification(t.verifications, token, campaignId).None? ==> r.0 == t && !r.1.CodeIssued?
    ensures !r.1.CodeIssued? ==> r.0 == t
    ensures r.1.CodeIssued? ==> (|r.0.claims| == |t.claims| + 1 && r.0.claims[..|t.claims|] == t.claims
      && r.0.claims[|t.claims|].emailVerified == flag
      && r.0.claims[|t.claims|].couponCode == r.1.receipt.code)
  {
    if EmptyString(token) || campaignId == 0 then (t, Refused(MsgInvalidLink))
    else
      match FindVerification(t.verifications, token, campaignId)
      case None => (t, Refused(MsgUsedLink))
      case Some(i) =>
        var v := t.verifications[i];
        if v.expiresAt < now then (t, Refused(MsgExpiredLink))
        else
          // Nothing is generated on this path: the record's code is used.
          var req := ClaimRequest(campaignId, v.email, v.ip, flag, currentUser);
          var (t', r) := ProcessSpec(t, req, Some(i), "", now, fault);
          if r.Success? then
            ProcessSuccessEffect(t, req, Some(i), "", now, fault);
            (t', CodeIssued(r.value))
          else
            ProcessFailureUnchanged(t, req, Some(i), "", now, fault);
            (t', Refused(V1Message(r.error, true)))
  }

  /** `ajax_verify_email` as written: the claim is stored with `email_verified = 0`. */
  function VerifyEmailAsWritten(t: Tables, token: string, campaignId: int, currentUser: int, now: int, fault: V1Fault)
    : (r: (Tables, V1Response))
    ensures r.1.CodeIssued? ==> |r.0.claims| == |t.claims| + 1 && !r.0.claims[|t.claims|].emailVerified
  {
    VerifyWithFlag(t, token, campaignId, currentUser, now, fault, false)
  }

  /** `ajax_verify_email` with the confirmed e-mail recorded as verified. */
  function VerifyEmailSpec(t: Tables, token: string, campaignId: int, currentUser: int, now: int, fault: V1Fault)
    : (r: (Tables, V1Response))
    ensures r.1.CodeIssued? ==> |r.0.claims| == |t.claims| + 1 && r.0.claims[|t.claims|].emailVerified
  {
    VerifyWithFlag(t, token, campaignId, currentUser, now, fault, true)
  }

  method AjaxVerifyEmail(db: Store, token: string, campaignId: int, currentUser: int, now: int, fault: V1Fault)
    returns (r: V1Response)
    modifies db
    ensures (db.Snapshot(), r) == VerifyEmailSpec(old(db.Snapshot()), token, campaignId, currentUser, now, fault)
    ensures db.cache == old(db.cache)
  {
    if EmptyString(token) || campaignId == 0 {
      return Refused(MsgInvalidLink);
    }
    var found := FindVerification(db.verifications, token, campaignId);
    if found.None? {
      return Refused(MsgUsedLink);
    }
    var v := db.verifications[found.value];
    if v.expiresAt < now {
      return Refused(MsgExpiredLink);
    }
    var claimed := ProcessDiscountClaim(db, ClaimRequest(campaignId, v.email, v.ip, true, currentUser), found, "",
                                        now, fault);
    return if claimed.Success? then CodeIssued(claimed.value) else Refused(V1Message(claimed.error, true));
  }

  /**
   * A link works once: after it has issued a code and marked its record,
   * following it again is refused as used.
   */
  lemma VerifyLinkSingleUse(t: Tables, token: string, campaignId: int, user: int, now: int, fault: V1Fault,
                            user2: int, now2: int, fault2: V1Fault)
    requires VerifyEmailSpec(t, token, campaignId, user, now, fault).1.CodeIssued?
    requires fault != MarkNotUpdated
    requires forall j, k :: 0 <= j < k < |t.verifications| ==> t.verifications[j].token != t.verifications[k].token
    ensures var t' := VerifyEmailSpec(t, token, campaignId, user, now, fault).0;
      VerifyEmailSpec(t', token, campaignId, user2, now2, fault2).1
        == Refused(MsgUsedLink)
  {
    var i := FindVerification(t.verifications, token, campaignId).value;
    var v := t.verifications[i];
    var req := ClaimRequest(campaignId, v.email, v.ip, true, user);
    ProcessSuccessEffect(t, req, Some(i), "", now, fault);
    var t' := VerifyEmailSpec(t, token, campaignId, user, now, fault).0;
    assert |t'.verifications| == |t.verifications|;
    forall j | 0 <= j < |t'.verifications| ensures !Unused(t'.verifications[j], token, campaignId) {
      if j != i {
        assert t'.verifications[j] == t.verifications[j];
      }
    }
  }

  /**
   * When the unchecked `verified_at` update fails, the transaction still
   * commits and the record stays unused: the same link, followed again while
   * codes are left, issues the record's code a second time and takes a
   * second code from the pool.
   */
  lemma UnmarkedLinkClaimsAgain(t: Tables, token: string, campaignId: int, user: int, now: int,
                                user2: int, now2: int)
    requires VerifyEmailSpec(t, token, campaignId, user, now, MarkNotUpdated).1.CodeIssued?
    requires t.campaigns[campaignId].codesRemaining >= 2
    requires now2 <= t.verifications[FindVerification(t.verifications, token, campaignId).value].expiresAt
    ensures var (t', r) := VerifyEmailSpec(t, token, campaignId, user, now, MarkNotUpdated);
      var (t'', r2) := VerifyEmailSpec(t', token, campaignId, user2, now2, Unhindered);
      && r2.CodeIssued? && r2.receipt.code == r.receipt.code
      && |t''.claims| == |t.claims| + 2
      && t''.claims[|t.claims|].couponCode == t''.claims[|t.claims| + 1].couponCode
      && t''.campaigns[campaignId].codesRemaining == t.campaigns[campaignId].codesRemaining - 2
  {
    var i := FindVerification(t.verifications, token, campaignId).value;
    var v := t.verifications[i];
    var req := ClaimRequest(campaignId, v.email, v.ip, true, user);
    ProcessSuccessEffect(t, req, Some(i), "", now, MarkNotUpdated);
    var (t', r) := VerifyEmailSpec(t, token, campaignId, user, now, MarkNotUpdated);
    assert t'.verifications == t.verifications;
    assert Available(t', campaignId);
    var req2 := ClaimRequest(campaignId, v.email, v.ip, true, user2);
    ProcessSuccessEffect(t', req2, Some(i), "", now2, Unhindered);
  }

  /** The as-written confirmation never makes the e-mail a duplicate. */
  lemma AsWrittenVerifyKeepsEmailFresh(t: Tables, token: string, campaignId: int, user: int, now: int, fault: V1Fault)
    requires VerifyEmailAsWritten(t, token, campaignId, user, now, fault).1.CodeIssued?
    ensures var t' := VerifyEmailAsWritten(t, token, campaignId, user, now, fault).0;
      var email := t.verifications[FindVerification(t.verifications, token, campaignId).value].email;
      HasClaimedCode(t'.claims, campaignId, email) == HasClaimedCode(t.claims, campaignId, email)
  {
    var i := FindVerification(t.verifications, token, campaignId).value;
    var v := t.verifications[i];
    var req := ClaimRequest(campaignId, v.email, v.ip, false, user);
    ProcessSuccessEffect(t, req, Some(i), "", now, fault);
    var t' := VerifyEmailAsWritten(t, token, campaignId, user, now, fault).0;
    assert t'.claims == t.claims + [t'.claims[|t.claims|]];
    CountEmailAppend(t.claims, t'.claims[|t.claims|], campaignId, v.email);
    CountEmailPositive(t.claims, campaignId, v.email);
    CountEmailPositive(t'.claims, campaignId, v.email);
  }

  /**
   * With the flag as written, a visitor who has just received a code
   * through the link passes the duplicate check on the next request and is
   * sent a new link.
   */
  lemma AsWrittenRepeatClaim(t: Tables, token: string, campaignId: int, user: int, now: int, fault: V1Fault,
                             posted: string, ip: string, later: int, env: Env)
    requires VerifyEmailAsWritten(t, token, campaignId, user, now, fault).1.CodeIssued?
    requires var email := t.verifications[FindVerification(t.verifications, token, campaignId).value].email;
      env.sanitizeEmail(posted) == email && !EmptyString(email) && env.isEmail(email)
      && !HasClaimedCode(t.claims, campaignId, email)
    requires var t' := VerifyEmailAsWritten(t, token, campaignId, user, now, fault).0;
      var email := t.verifications[FindVerification(t.verifications, token, campaignId).value].email;
      !IsRateLimited(t', ip, campaignId, later) && !PendingVerification(t', campaignId, email, later)
      && Available(t', campaignId) && env.insertOk && env.mailOk
    ensures var t' := VerifyEmailAsWritten(t, token, campaignId, user, now, fault).0;
      AjaxClaimSpec(t', campaignId, Guest(posted), ip, later, env).1 == VerificationSent
  {
    AsWrittenVerifyKeepsEmailFresh(t, token, campaignId, user, now, fault);
  }

  /** With the e-mail recorded as verified, that visitor's next request is refused as a duplicate. */
  lemma VerifiedClaimBlocksRepeat(t: Tables, token: string, campaignId: int, user: int, now: int, fault: V1Fault,
                                  posted: string, ip: string, later: int, env: Env)
    requires VerifyEmailSpec(t, token, campaignId, user, now, fault).1.CodeIssued?
    requires var email := t.verifications[FindVerification(t.verifications, token, campaignId).value].email;
      env.sanitizeEmail(posted) == email && !EmptyString(email) && env.isEmail(email)
    requires var t' := VerifyEmailSpec(t, token, campaignId, user, now, fault).0;
      !IsRateLimited(t', ip, campaignId, later)
    ensures var t' := VerifyEmailSpec(t, token, campaignId, user, now, fault).0;
      AjaxClaimSpec(t', campaignId, Guest(posted), ip, later, env).1
        == Refused(DuplicateMessage)
  {
    var i := FindVerification(t.verifications, token, campaignId).value;
    var v := t.verifications[i];
    var req := ClaimRequest(campaignId, v.email, v.ip, true, user);
    ProcessSuccessEffect(t, req, Some(i), "", now, fault);
    var t' := VerifyEmailSpec(t, token, campaignId, user, now, fault).0;
    assert VerifiedEmailClaim(t'.claims[|t.claims|], campaignId, v.email);
  }

  // ---------------------------------------------------------------------
  // cleanup_expired_codes

  /** A code past its expiry that has not been used or cleaned up. */
  predicate ExpiredUnused(c: Claim, now: int) {
    c.expiresAt < now && c.usedAt.None?
  }

  /** The `UPDATE … SET used_at = NOW() WHERE expires_at < NOW() AND used_at IS NULL`. */
  function MarkExpired(claims: seq<Claim>, now: int): (r: seq<Claim>)
    ensures |r| == |claims|
  {
    if claims == [] then []
    else
      var c := claims[|claims| - 1];
      MarkExpired(claims[..|claims| - 1], now) + [if ExpiredUnused(c, now) then c.(usedAt := Some(now)) else c]
  }

  /** The codes whose WooCommerce coupons the loop looks up and deletes. */
  function ExpiredCodes(claims: seq<Claim>, now: int): (r: seq<string>)
    ensures |r| <= |claims|
  {
    if claims == [] then []
    else
      var c := claims[|claims| - 1];
      ExpiredCodes(claims[..|claims| - 1], now) + (if ExpiredUnused(c, now) then [c.couponCode] else [])
  }

  /** The deleted coupons are exactly those of the expired unused claims. */
  lemma {:induction false} ExpiredCodesMeaning(claims: seq<Claim>, now: int)
    ensures forall i :: 0 <= i < |claims| && ExpiredUnused(claims[i], now) ==> claims[i].couponCode in ExpiredCodes(claims, now)
    ensures forall k :: 0 <= k < |ExpiredCodes(claims, now)| ==>
      exists i :: 0 <= i < |claims| && ExpiredUnused(claims[i], now) && claims[i].couponCode == ExpiredCodes(claims, now)[k]
  {
    if claims != [] {
      var n := |claims| - 1;
      var init := claims[..n];
      ExpiredCodesMeaning(init, now);
      var before := ExpiredCodes(init, now);
      var r := ExpiredCodes(claims, now);
      assert forall i :: 0 <= i < n ==> init[i] == claims[i];
      forall k | 0 <= k < |r|
        ensures exists i :: 0 <= i < |claims| && ExpiredUnused(claims[i], now) && claims[i].couponCode == r[k]
      {
        if k < |before| {
          assert r[k] == before[k];
          var i :| 0 <= i < |init| && ExpiredUnused(init[i], now) && init[i].couponCode == before[k];
          assert claims[i] == init[i];
        } else {
          assert ExpiredUnused(claims[n], now) && r[k] == claims[n].couponCode;
        }
      }
      if ExpiredUnused(claims[n], now) {
        assert r[|before|] == claims[n].couponCode;
      }
      forall i | 0 <= i < n && ExpiredUnused(claims[i], now) ensures claims[i].couponCode in r {
        assert init[i] == claims[i];
        var k :| 0 <= k < |before| && before[k] == claims[i].couponCode;
        assert r[k] == before[k];
      }
    } else {
      assert ExpiredCodes(claims, now) == [];
    }
  }

  /** Row by row: exactly the expired unused claims get `used_at = now`; nothing else changes. */
  lemma {:induction false} MarkExpiredRows(claims: seq<Claim>, now: int)
    ensures forall i :: 0 <= i < |claims| ==>
      MarkExpired(claims, now)[i] == if ExpiredUnused(claims[i], now) then claims[i].(usedAt := Some(now)) else claims[i]
  {
    if claims != [] {
      var n := |claims| - 1;
      MarkExpiredRows(claims[..n], now);
      assert forall i :: 0 <= i < n ==> claims[..n][i] == claims[i];
    }
  }

  /** Clean-up changes only `used_at`, so no count moves, and a second run at the same time does nothing more. */
  lemma MarkExpiredKeepsCounts(claims: seq<Claim>, now: int, campaignId: int)
    ensures SameExceptUsedAt(claims, MarkExpired(claims, now))
    ensures CountCampaign(MarkExpired(claims, now), campaignId) == CountCampaign(claims, campaignId)
    ensures MarkExpired(MarkExpired(claims, now), now) == MarkExpired(claims, now)
  {
    MarkExpiredRows(claims, now);
    var m := MarkExpired(claims, now);
    MarkExpiredRows(m, now);
    CountCampaignUsedAt(claims, m, campaignId);
  }

  /**
   * `cleanup_expired_codes`: the coupons of expired unused codes are
   * deleted (returned here, in row order), then those rows are marked used.
   * `codes_remaining` is never given back.
   */
  method CleanupExpiredCodes(db: Store, now: int) returns (deleted: seq<string>)
    modifies db
    ensures deleted == ExpiredCodes(old(db.claims), now)
    ensures db.Snapshot() == old(db.Snapshot()).(claims := MarkExpired(old(db.claims), now))
    ensures db.cache == old(db.cache)
  {
    deleted := [];
    var i := 0;
    var claims := db.claims;
    while i < |claims|
      invariant 0 <= i <= |claims|
      invariant deleted == ExpiredCodes(claims[..i], now)
    {
      if ExpiredUnused(claims[i], now) {
        deleted := deleted + [claims[i].couponCode];
      }
      assert claims[..i + 1][..i] == claims[..i];
      i := i + 1;
    }
    assert claims[..|claims|] == claims;
    MarkExpiredRows(claims, now);
    i := 0;
    while i < |claims|
      invariant 0 <= i <= |claims| && |db.claims| == |claims|
      invariant forall k :: 0 <= k < i ==> db.claims[k] == MarkExpired(claims, now)[k]
      invariant forall k :: i <= k < |claims| ==> db.claims[k] == claims[k]
      invariant db.Snapshot() == old(db.Snapshot()).(claims := db.claims) && db.cache == old(db.cache)
    {
      var c := db.claims[i];
      if ExpiredUnused(c, now) {
        db.claims := db.claims[i := c.(usedAt := Some(now))];
      }
      i := i + 1;
    }
    assert db.claims == MarkExpired(claims, now);
  }
}
