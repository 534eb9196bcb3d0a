/**
 * `WCFD\Frontend\Frontend_Handler`: the shortcode and widget gating, the
 * AJAX claim routing (members claim at once, visitors get a verification
 * link), the link that confirms the e-mail, and the waitlist.
 *
 * The handler keeps no state of its own: each AJAX call is a method over the
 * store and the handler's validator, proved equal to a function of the old
 * tables and the old error map.
 */
module FrontendHandler {
  import opened Php
  import opened Tables
  import opened Validation
  import opened CampaignManager

  // ---------------------------------------------------------------------
  // Shortcode and widget

  /** `intval($atts['id']) ?: intval($atts['campaign_id'])`; `None` when both are 0. */
  function ShortcodeTarget(idAttr: string, campaignIdAttr: string): (r: Option<int>)
    ensures Intval(idAttr) != 0 ==> r == Some(Intval(idAttr))
    ensures Intval(idAttr) == 0 ==> r == (if Intval(campaignIdAttr) == 0 then None else Some(Intval(campaignIdAttr)))
  {
    var id := Intval(idAttr);
    var fallback := Intval(campaignIdAttr);
    if id != 0 then Some(id) else if fallback != 0 then Some(fallback) else None
  }

  /** What the page shows. */
  datatype Widget =
    | ErrorMarkup(html: string)
    | SoldOut(html: string)
    | WidgetShown(campaign: Campaign)

  const MissingIdMarkup := "<div class=\"wcfd-error\">Error: Campaign ID is required. Usage: [fomo_discount id=\"123\"]</div>"
  const InactiveMarkup := "<div class=\"wcfd-error\">Campaign not found or inactive.</div>"
  const SoldOutMarkup := "<div class=\"wcfd-sold-out\">All discount codes have been claimed!</div>"

  /** `render_widget`'s gate over what `get_campaign` returned. */
  function WidgetFor(c: Option<Campaign>): (w: Widget)
    ensures w.WidgetShown? <==> c.Some? && c.value.status == "active" && c.value.codesRemaining > 0
    ensures w == ErrorMarkup(InactiveMarkup) <==> c.None? || c.value.status != "active"
    ensures w.WidgetShown? ==> w.campaign == c.value
  {
    if c.None? || c.value.status != "active" then ErrorMarkup(InactiveMarkup)
    else if c.value.codesRemaining <= 0 then SoldOut(SoldOutMarkup)
    else WidgetShown(c.value)
  }

  method RenderWidget(db: Store, id: int) returns (w: Widget)
    modifies db`cache
    ensures w == WidgetFor(CampaignLookup(old(db.cache), db.campaigns, id))
    ensures db.cache == CacheAfterLookup(old(db.cache), db.campaigns, id)
  {
    var c := GetCampaign(db, id);
    w := WidgetFor(c);
  }

  /** `render_shortcode`: the error markup without an id, else the widget. */
  method RenderShortcode(db: Store, idAttr: string, campaignIdAttr: string) returns (w: Widget)
    modifies db`cache
    ensures ShortcodeTarget(idAttr, campaignIdAttr).None? ==> w == ErrorMarkup(MissingIdMarkup) && db.cache == old(db.cache)
    ensures ShortcodeTarget(idAttr, campaignIdAttr).Some? ==>
      w == WidgetFor(CampaignLookup(old(db.cache), db.campaigns, ShortcodeTarget(idAttr, campaignIdAttr).value))
      && db.cache == CacheAfterLookup(old(db.cache), db.campaigns, ShortcodeTarget(idAttr, campaignIdAttr).value)
  {
    var target := ShortcodeTarget(idAttr, campaignIdAttr);
    if target.None? {
      return ErrorMarkup(MissingIdMarkup);
    }
    w := RenderWidget(db, target.value);
  }

  /** The page never offers the claim form for a campaign that has no codes left. */
  lemma NoFormWhenSoldOut(c: Option<Campaign>)
    requires c.Some? && c.value.codesRemaining <= 0
    ensures !WidgetFor(c).WidgetShown?
  {
  }

  // ---------------------------------------------------------------------
  // The AJAX replies

  datatype Reply =
    | Sent(message: string)        // wp_send_json_success with a message
    | Issued(receipt: Receipt)     // wp_send_json_success with the code
    | JsonError(message: string)   // wp_send_json_error
    | Died(message: string)        // wp_die
    | Quiet                        // the request ends without output
    | Fatal                        // an uncaught PHP Error

  /** A logged-in account. */
  datatype Account = Account(userId: int, email: string)

  /** The posted claim form and the request headers. */
  datatype ClaimPost = ClaimPost(
    nonceOk: bool,
    campaignId: string,
    email: string,
    remoteAddr: string,
    forwardedFor: string,
    realIp: string,
    user: Option<Account>)

  /**
   * PHP helpers, the ban list and the range test it is read with (`AsWritten`
   * is the plugin), randomness and what the outside world does on this request.
   */
  datatype HandlerEnv = HandlerEnv(
    sanitizeEmail: string -> string,
    isEmail: string -> bool,
    validIp: string -> bool,
    banned: seq<string>,
    rangeTest: RangeTest,
    tokenRnd: Random,
    codeRnd: Random,
    insertOk: bool,
    fault: ClaimFault)

  const MsgNonceFailed := "Security check failed"
  const MsgInvalidLink := "Invalid verification link"
  const MsgLinkExpired := "Verification link expired or invalid"

  const SentMessage := "Please check your email to verify your address and claim your discount code."

  /** One hour, the lifetime of a verification link. */
  const LinkLifetime: int := 3600

  /** The record `send_verification_email` inserts. */
  function LinkRecord(campaignId: int, email: string, ip: string, env: HandlerEnv, now: int): (v: Verification)
    ensures |v.token| == 32 && forall k :: 0 <= k < 32 ==> IsAlnum(v.token[k])
    ensures |v.couponCode| == 12 && StartsWith(v.couponCode, "FOMO")
    ensures v.expiresAt == now + LinkLifetime && v.verifiedAt.None?
  {
    Verification(campaignId, email, GeneratePassword(32, env.tokenRnd), GenerateCouponCode(env.codeRnd), ip, now,
                 now + LinkLifetime, None)
  }

  /**
   * `send_verification_email`: the insert's result is not checked, and
   * neither is the campaign (it is only read for the mail's subject).
   */
  function SendSpec(t: Tables, campaignId: int, email: string, ip: string, env: HandlerEnv, now: int): (r: Tables)
    ensures r.campaigns == t.campaigns && r.claims == t.claims && r.waitlist == t.waitlist
    ensures r.nextCampaignId == t.nextCampaignId
    ensures env.insertOk ==> r.verifications == t.verifications + [LinkRecord(campaignId, email, ip, env, now)]
    ensures !env.insertOk ==> r == t
  {
    if env.insertOk then t.(verifications := t.verifications + [LinkRecord(campaignId, email, ip, env, now)]) else t
  }

  /** The e-mail the request is for and whether it counts as verified, before any check. */
  function RequestEmail(q: ClaimPost, env: HandlerEnv): string {
    if q.user.Some? then q.user.value.email else env.sanitizeEmail(q.email)
  }

  /**
   * What one `ajax_claim_discount` call leaves in the tables and in the
   * validator's error map, and what it replies. Checks run in order: nonce,
   * campaign id, e-mail (visitors only), IP address.
   */
  function HandlerClaimSpec(t: Tables, errs: ErrorMap, q: ClaimPost, env: HandlerEnv, now: int)
    : (r: (Tables, ErrorMap, Reply))
    ensures !q.nonceOk ==> r == (t, errs, JsonError(MsgNonceFailed))
    ensures r.0 != t ==>
      IpCheck(env.rangeTest, q.remoteAddr, q.forwardedFor, q.realIp, env.banned, env.validIp).IpAccepted?
    ensures r.2.Issued? ==> q.user.Some?
    ensures r.2.Sent? ==> q.user.None?
    ensures q.user.None? ==> r.0.campaigns == t.campaigns && r.0.claims == t.claims
    ensures r.0.campaigns.Keys == t.campaigns.Keys && r.0.nextCampaignId == t.nextCampaignId
    ensures r.0.waitlist == t.waitlist
  {
    if !q.nonceOk then (t, errs, JsonError(MsgNonceFailed))
    else
      var id := Intval(q.campaignId);
      match CampaignIdCheck(Int(id))
      case Failure(m) =>
        var errs1 := Put(errs, CampaignIdField, m);
        (t, errs1, JsonError(ErrorMessage(errs1)))
      case Success(_) =>
        var email := RequestEmail(q, env);
        var emailCheck := if q.user.Some? then Success(email) else EmailCheck(email, env.sanitizeEmail, env.isEmail);
        if emailCheck.Failure? then
          var errs2 := Put(errs, EmailField, emailCheck.error);
          (t, errs2, JsonError(ErrorMessage(errs2)))
        else
          match IpCheck(env.rangeTest, q.remoteAddr, q.forwardedFor, q.realIp, env.banned, env.validIp)
          case IpError => (t, errs, Fatal)
          case IpRejected(m) =>
            var errs3 := Put(errs, IpField, m);
            (t, errs3, JsonError(ErrorMessage(errs3)))
          case IpAccepted(ip) =>
            if q.user.None? then (SendSpec(t, id, email, ip, env, now), errs, Sent(SentMessage))
            else
              var (t', r) := ClaimSpec(t, ClaimRequest(id, email, ip, true, q.user.value.userId),
                                       GenerateCouponCode(env.codeRnd), now, env.fault);
              (t', errs, if r.Success? then Issued(r.value) else JsonError(ClaimErrorMessage(r.error)))
  }

  /**
   * The object cache after `ajax_claim_discount`: a visitor's request reads
   * the campaign through `get_campaign` for the mail's subject, and a
   * member's claim that commits drops the campaign's entry.
   */
  function HandlerClaimCache(t: Tables, cache: map<int, Campaign>, errs: ErrorMap, q: ClaimPost, env: HandlerEnv,
                             now: int): (r: map<int, Campaign>)
    ensures !q.nonceOk ==> r == cache
    ensures q.user.Some? && HandlerClaimSpec(t, errs, q, env, now).0 == t ==> r == cache
    ensures q.user.Some? ==> r == cache || r == cache - {Intval(q.campaignId)}
    ensures q.user.None? ==> r == cache || r == CacheAfterLookup(cache, t.campaigns, Intval(q.campaignId))
  {
    if !q.nonceOk then cache
    else
      var id := Intval(q.campaignId);
      var email := RequestEmail(q, env);
      if CampaignIdCheck(Int(id)).Failure? then cache
      else if q.user.None? && EmailCheck(email, env.sanitizeEmail, env.isEmail).Failure? then cache
      else
        match IpCheck(env.rangeTest, q.remoteAddr, q.forwardedFor, q.realIp, env.banned, env.validIp)
        case IpAccepted(ip) =>
          if q.user.None? then CacheAfterLookup(cache, t.campaigns, id)
          else if Committed(t, ClaimRequest(id, email, ip, true, q.user.value.userId), env.fault) then
            ClaimChangesTables(t, ClaimRequest(id, email, ip, true, q.user.value.userId),
                               GenerateCouponCode(env.codeRnd), now, env.fault);
            cache - {id}
          else cache
        case _ => cache
  }

  method AjaxClaimDiscount(db: Store, v: Validator, q: ClaimPost, env: HandlerEnv, now: int) returns (reply: Reply)
    requires v.Valid()
    modifies db, v
    ensures v.Valid()
    ensures (db.Snapshot(), v.errors, reply) == HandlerClaimSpec(old(db.Snapshot()), old(v.errors), q, env, now)
    ensures db.cache == HandlerClaimCache(old(db.Snapshot()), old(db.cache), old(v.errors), q, env, now)
  {
    if !q.nonceOk {
      return JsonError(MsgNonceFailed);
    }
    var id := Intval(q.campaignId);
    var validId := v.ValidateCampaignId(Int(id));
    if validId.None? {
      return JsonError(v.GetErrorMessage());
    }
    var email := RequestEmail(q, env);
    if q.user.None? {
      var ok := v.ValidateEmail(email, env.sanitizeEmail, env.isEmail);
      if !ok {
        return JsonError(v.GetErrorMessage());
      }
    }
    var verdict := v.ValidateIpAddress(env.rangeTest, q.remoteAddr, q.forwardedFor, q.realIp, env.banned, env.validIp);
    if verdict.IpError? {
      return Fatal;
    }
    if verdict.IpRejected? {
      return JsonError(v.GetErrorMessage());
    }
    var ip := verdict.ip;
    if q.user.None? {
      SendVerificationEmail(db, id, email, ip, env, now);
      return Sent(SentMessage);
    }
    var r := ClaimDiscount(db, ClaimRequest(id, email, ip, true, q.user.value.userId), GenerateCouponCode(env.codeRnd),
                           now, env.fault);
    return if r.Success? then Issued(r.value) else JsonError(ClaimErrorMessage(r.error));
  }

  method SendVerificationEmail(db: Store, campaignId: int, email: string, ip: string, env: HandlerEnv, now: int)
    modifies db
    ensures db.Snapshot() == SendSpec(old(db.Snapshot()), campaignId, email, ip, env, now)
    ensures db.cache == CacheAfterLookup(old(db.cache), old(db.campaigns), campaignId)
  {
    if env.insertOk {
      db.verifications := db.verifications + [LinkRecord(campaignId, email, ip, env, now)];
    }
    // The subject line reads the campaign through the cache.
    var _ := GetCampaign(db, campaignId);
  }

  /**
   * A visitor never takes a code from the claim form: at most one record is
   * added, with a 32-character token, a "FOMO" code and a one-hour expiry,
   * whether or not the campaign is open.
   */
  lemma VisitorOnlyGetsLink(t: Tables, errs: ErrorMap, q: ClaimPost, env: HandlerEnv, now: int)
    requires q.user.None?
    ensures var (t', _, reply) := HandlerClaimSpec(t, errs, q, env, now);
      && t'.campaigns == t.campaigns && t'.claims == t.claims && t'.waitlist == t.waitlist
      && (t'.verifications == t.verifications
          || (reply == Sent(SentMessage)
              && exists ip :: t'.verifications == t.verifications
                   + [LinkRecord(Intval(q.campaignId), env.sanitizeEmail(q.email), ip, env, now)]))
  {
    var (t', _, reply) := HandlerClaimSpec(t, errs, q, env, now);
    if t' != t {
      var v := IpCheck(env.rangeTest, q.remoteAddr, q.forwardedFor, q.realIp, env.banned, env.validIp);
      assert v.IpAccepted?;
      var sent := SendSpec(t, Intval(q.campaignId), env.sanitizeEmail(q.email), v.ip, env, now);
      assert HandlerClaimSpec(t, errs, q, env, now) == (sent, errs, Sent(SentMessage));
    }
  }

  /** A visitor whose e-mail fails validation gets the validator's message and nothing is stored. */
  lemma VisitorNeedsValidEmail(t: Tables, errs: ErrorMap, q: ClaimPost, env: HandlerEnv, now: int)
    requires q.nonceOk && q.user.None? && CampaignIdCheck(Int(Intval(q.campaignId))).Success?
    requires EmailCheck(env.sanitizeEmail(q.email), env.sanitizeEmail, env.isEmail).Failure?
    ensures var (t', errs', reply) := HandlerClaimSpec(t, errs, q, env, now);
      t' == t && errs' == Put(errs, EmailField, EmailCheck(env.sanitizeEmail(q.email), env.sanitizeEmail, env.isEmail).error)
      && reply == JsonError(ErrorMessage(errs'))
  {
  }

  /**
   * A member who passes the id and address checks goes straight to
   * `claim_discount` with `email_verified = true`, with the account's e-mail
   * and no e-mail validation.
   */
  lemma MemberClaimsAtOnce(t: Tables, errs: ErrorMap, q: ClaimPost, env: HandlerEnv, now: int)
    requires q.nonceOk && q.user.Some? && CampaignIdCheck(Int(Intval(q.campaignId))).Success?
    requires IpCheck(env.rangeTest, q.remoteAddr, q.forwardedFor, q.realIp, env.banned, env.validIp).IpAccepted?
    ensures var (t', _, reply) := HandlerClaimSpec(t, errs, q, env, now);
      var ip := IpCheck(env.rangeTest, q.remoteAddr, q.forwardedFor, q.realIp, env.banned, env.validIp).ip;
      var (t2, r) := ClaimSpec(t, ClaimRequest(Intval(q.campaignId), q.user.value.email, ip, true, q.user.value.userId),
                               GenerateCouponCode(env.codeRnd), now, env.fault);
      t' == t2 && (reply.Issued? <==> r.Success?)
  {
  }

  /** A request that fails the nonce or the campaign id check changes no table. */
  lemma EarlyRefusalsChangeNothing(t: Tables, errs: ErrorMap, q: ClaimPost, env: HandlerEnv, now: int)
    requires !q.nonceOk || CampaignIdCheck(Int(Intval(q.campaignId))).Failure?
    ensures HandlerClaimSpec(t, errs, q, env, now).0 == t
    ensures HandlerClaimSpec(t, errs, q, env, now).2.JsonError?
  {
  }

  // ---------------------------------------------------------------------
  // ajax_verify_email

  /** `… WHERE verification_token = %s AND user_email = %s AND verified_at IS NULL AND expires_at > NOW()`. */
  predicate OpenRecord(v: Verification, token: string, email: string, now: int) {
    v.token == token && v.email == email && v.verifiedAt.None? && v.expiresAt > now
  }

  /** The first record the query returns. */
  function FindOpenRecord(vs: seq<Verification>, token: string, email: string, now: int): (r: Option<nat>)
    ensures r.Some? ==> r.value < |vs| && OpenRecord(vs[r.value], token, email, now)
    ensures r.None? <==> forall j :: 0 <= j < |vs| ==> !OpenRecord(vs[j], token, email, now)
  {
    if vs == [] then None
    else if OpenRecord(vs[0], token, email, now) then Some(0)
    else
      var rest := FindOpenRecord(vs[1..], token, email, now);
      if rest.Some? then Some(rest.value + 1) else None
  }

  /** The link's query string after the sanitizers, and what the outside world does. */
  datatype VerifyEnv = VerifyEnv(
    sanitizeText: string -> string,
    sanitizeEmail: string -> string,
    codeRnd: Random,
    fault: ClaimFault)

  /**
   * `ajax_verify_email`: the campaign and address come from the record; the
   * claim is made with `email_verified = true` and a freshly generated code.
   * The record itself is left as it is.
   */
  function VerifySpec(t: Tables, tokenParam: string, emailParam: string, currentUser: int, env: VerifyEnv, now: int)
    : (r: (Tables, Reply))
    ensures EmptyString(env.sanitizeText(tokenParam)) || EmptyString(env.sanitizeEmail(emailParam)) ==>
      r == (t, Died(MsgInvalidLink))
    ensures r.0.verifications == t.verifications && r.0.waitlist == t.waitlist
    ensures r.0.campaigns.Keys == t.campaigns.Keys && r.0.nextCampaignId == t.nextCampaignId
    ensures r.1 == Quiet ==> (|r.0.claims| == |t.claims| + 1 && r.0.claims[|t.claims|].emailVerified
      && r.0.claims[|t.claims|].email == env.sanitizeEmail(emailParam))
  {
    var token := env.sanitizeText(tokenParam);
    var email := env.sanitizeEmail(emailParam);
    if EmptyString(token) || EmptyString(email) then (t, Died(MsgInvalidLink))
    else
      match FindOpenRecord(t.verifications, token, email, now)
      case None => (t, Died(MsgLinkExpired))
      case Some(i) =>
        var rec := t.verifications[i];
        var (t', r) := ClaimSpec(t, ClaimRequest(rec.campaignId, email, rec.ip, true, currentUser),
                                 GenerateCouponCode(env.codeRnd), now, env.fault);
        (t', if r.Success? then Quiet else Died(ClaimErrorMessage(r.error)))
  }

  /**
   * The object cache after `ajax_verify_email`: the claim drops the
   * campaign's entry when it commits; nothing else touches the cache.
   */
  function VerifyCache(t: Tables, cache: map<int, Campaign>, tokenParam: string, emailParam: string, currentUser: int,
                       env: VerifyEnv, now: int): (r: map<int, Campaign>)
    ensures VerifySpec(t, tokenParam, emailParam, currentUser, env, now).0 == t ==> r == cache
    ensures r == cache || exists i :: 0 <= i < |t.verifications| && r == cache - {t.verifications[i].campaignId}
  {
    var token := env.sanitizeText(tokenParam);
    var email := env.sanitizeEmail(emailParam);
    if EmptyString(token) || EmptyString(email) then cache
    else
      match FindOpenRecord(t.verifications, token, email, now)
      case None => cache
      case Some(i) =>
        var rec := t.verifications[i];
        var req := ClaimRequest(rec.campaignId, email, rec.ip, true, currentUser);
        if Committed(t, req, env.fault) then
          ClaimChangesTables(t, req, GenerateCouponCode(env.codeRnd), now, env.fault);
          cache - {rec.campaignId}
        else cache
  }

  method AjaxVerifyEmail(db: Store, tokenParam: string, emailParam: string, currentUser: int, env: VerifyEnv, now: int)
    returns (reply: Reply)
    modifies db
    ensures (db.Snapshot(), reply) == VerifySpec(old(db.Snapshot()), tokenParam, emailParam, currentUser, env, now)
    ensures db.cache == VerifyCache(old(db.Snapshot()), old(db.cache), tokenParam, emailParam, currentUser, env, now)
  {
    var token := env.sanitizeText(tokenParam);
    var email := env.sanitizeEmail(emailParam);
    if EmptyString(token) || EmptyString(email) {
      return Died(MsgInvalidLink);
    }
    var found := FindOpenRecord(db.verifications, token, email, now);
    if found.None? {
      return Died(MsgLinkExpired);
    }
    var rec := db.verifications[found.value];
    var r := ClaimDiscount(db, ClaimRequest(rec.campaignId, email, rec.ip, true, currentUser),
                           GenerateCouponCode(env.codeRnd), now, env.fault);
    return if r.Success? then Quiet else Died(ClaimErrorMessage(r.error));
  }

  /**
   * A link that worked once is refused the second time by the duplicate
   * guard (or because the campaign has closed), although the record stays
   * open until it expires.
   */
  lemma RepeatedVerifyRefused(t: Tables, tokenParam: string, emailParam: string, user: int, env: VerifyEnv, now: int,
                              user2: int, env2: VerifyEnv, now2: int)
    requires VerifySpec(t, tokenParam, emailParam, user, env, now).1 == Quiet
    requires env2.sanitizeText == env.sanitizeText && env2.sanitizeEmail == env.sanitizeEmail
    requires forall j, k :: 0 <= j < k < |t.verifications| ==> t.verifications[j].token != t.verifications[k].token
    ensures var t' := VerifySpec(t, tokenParam, emailParam, user, env, now).0;
      var r2 := VerifySpec(t', tokenParam, emailParam, user2, env2, now2).1;
      r2 == Died(MsgLinkExpired)
      || r2 == Died(ClaimErrorMessage(AlreadyClaimed))
      || r2 == Died(ClaimErrorMessage(CampaignUnavailable))
  {
    var token := env.sanitizeText(tokenParam);
    var email := env.sanitizeEmail(emailParam);
    var i := FindOpenRecord(t.verifications, token, email, now).value;
    var rec := t.verifications[i];
    var req := ClaimRequest(rec.campaignId, email, rec.ip, true, user);
    var code := GenerateCouponCode(env.codeRnd);
    var (t', r) := ClaimSpec(t, req, code, now, env.fault);
    ClaimAppendsVerifiedRow(t, req, code, now, env.fault);
    var j := FindOpenRecord(t'.verifications, token, email, now2);
    if j.Some? {
      assert j.value == i;
      SecondClaimRefused(t, req, code, now, env.fault,
                         ClaimRequest(rec.campaignId, email, rec.ip, true, user2), GenerateCouponCode(env2.codeRnd),
                         now2, env2.fault);
    }
  }

  lemma ClaimAppendsVerifiedRow(t: Tables, req: ClaimRequest, code: string, now: int, fault: ClaimFault)
    requires ClaimSpec(t, req, code, now, fault).1.Success?
    ensures var t' := ClaimSpec(t, req, code, now, fault).0;
      t'.verifications == t.verifications
      && t'.claims == t.claims + [NewClaim(req, code, now, ExpiryOf(t.campaigns[req.campaignId], now))]
  {
  }

  lemma SecondClaimRefused(t: Tables, req: ClaimRequest, code: string, now: int, fault: ClaimFault,
                           req2: ClaimRequest, code2: string, now2: int, fault2: ClaimFault)
    requires req.emailVerified
    requires ClaimSpec(t, req, code, now, fault).1.Success?
    requires req2.campaignId == req.campaignId && req2.email == req.email
    ensures var t' := ClaimSpec(t, req, code, now, fault).0;
      var r2 := ClaimSpec(t', req2, code2, now2, fault2).1;
      r2 == Failure(AlreadyClaimed) || r2 == Failure(CampaignUnavailable)
  {
    ClaimAppendsVerifiedRow(t, req, code, now, fault);
    var t' := ClaimSpec(t, req, code, now, fault).0;
    assert VerifiedEmailClaim(t'.claims[|t.claims|], req.campaignId, req.email);
  }

  // ---------------------------------------------------------------------
  // ajax_join_waitlist

  const MsgAlreadyWaiting := "You are already on the waitlist"
  const MsgJoinFailed := "Failed to join waitlist"
  const MsgJoined := "Thanks! You've been added to the waitlist and will be notified when new codes are available."

  /** What `ajax_join_waitlist` leaves in the tables and the error map, and replies. */
  function WaitlistSpec(t: Tables, errs: ErrorMap, nonceOk: bool, campaignIdParam: string, emailParam: string,
                        sanitizeEmail: string -> string, isEmail: string -> bool, insertOk: bool)
    : (r: (Tables, ErrorMap, Reply))
    ensures r.0 == t.(waitlist := r.0.waitlist)
  {
    if !nonceOk then (t, errs, JsonError(MsgNonceFailed))
    else
      var id := Intval(campaignIdParam);
      var email := sanitizeEmail(emailParam);
      match EmailCheck(email, sanitizeEmail, isEmail)
      case Failure(m) =>
        var errs1 := Put(errs, EmailField, m);
        (t, errs1, JsonError(ErrorMessage(errs1)))
      case Success(_) =>
        if WaitlistEntry(id, email) in t.waitlist then (t, errs, JsonError(MsgAlreadyWaiting))
        else if !insertOk then (t, errs, JsonError(MsgJoinFailed))
        else
          (t.(waitlist := t.waitlist + [WaitlistEntry(id, email)]), errs,
           Sent(MsgJoined))
  }

  method AjaxJoinWaitlist(db: Store, v: Validator, nonceOk: bool, campaignIdParam: string, emailParam: string,
                          sanitizeEmail: string -> string, isEmail: string -> bool, insertOk: bool)
    returns (reply: Reply)
    requires v.Valid()
    modifies db, v
    ensures v.Valid()
    ensures (db.Snapshot(), v.errors, reply)
      == WaitlistSpec(old(db.Snapshot()), old(v.errors), nonceOk, campaignIdParam, emailParam, sanitizeEmail, isEmail, insertOk)
    ensures db.cache == old(db.cache)
  {
    if !nonceOk {
      return JsonError(MsgNonceFailed);
    }
    var id := Intval(campaignIdParam);
    var email := sanitizeEmail(emailParam);
    var ok := v.ValidateEmail(email, sanitizeEmail, isEmail);
    if !ok {
      return JsonError(v.GetErrorMessage());
    }
    if WaitlistEntry(id, email) in db.waitlist {
      return JsonError(MsgAlreadyWaiting);
    }
    if !insertOk {
      return JsonError(MsgJoinFailed);
    }
    db.waitlist := db.waitlist + [WaitlistEntry(id, email)];
    return Sent(MsgJoined);
  }

  /** No entry of the list appears twice. */
  predicate NoDuplicateEntries(w: seq<WaitlistEntry>) {
    forall i, j :: 0 <= i < j < |w| ==> w[i] != w[j]
  }

  /**
   * Joining adds exactly one new entry or nothing, only other tables are left
   * alone, and the list never holds the same (campaign, e-mail) twice.
   */
  lemma JoinKeepsWaitlistDistinct(t: Tables, errs: ErrorMap, nonceOk: bool, campaignIdParam: string, emailParam: string,
                                  sanitizeEmail: string -> string, isEmail: string -> bool, insertOk: bool)
    requires NoDuplicateEntries(t.waitlist)
    ensures var (t', _, reply) := WaitlistSpec(t, errs, nonceOk, campaignIdParam, emailParam, sanitizeEmail, isEmail, insertOk);
      && NoDuplicateEntries(t'.waitlist)
      && t'.campaigns == t.campaigns && t'.claims == t.claims && t'.verifications == t.verifications
      && (t'.waitlist == t.waitlist
          || (reply.Sent? && t'.waitlist == t.waitlist + [WaitlistEntry(Intval(campaignIdParam), sanitizeEmail(emailParam))]))
  {
    var (t', _, reply) := WaitlistSpec(t, errs, nonceOk, campaignIdParam, emailParam, sanitizeEmail, isEmail, insertOk);
    if t'.waitlist != t.waitlist {
      var e := WaitlistEntry(Intval(campaignIdParam), sanitizeEmail(emailParam));
      assert e !in t.waitlist && t'.waitlist == t.waitlist + [e];
      AppendFreshKeepsDistinct(t.waitlist, e);
    }
  }

  lemma AppendFreshKeepsDistinct(w: seq<WaitlistEntry>, e: WaitlistEntry)
    requires NoDuplicateEntries(w) && e !in w
    ensures NoDuplicateEntries(w + [e])
  {
    var w' := w + [e];
    forall i, j | 0 <= i < j < |w'| ensures w'[i] != w'[j] {
      if j == |w| {
        assert w'[i] == w[i];
      } else {
        assert w'[i] == w[i] && w'[j] == w[j];
      }
    }
  }

  /** Joining twice with the same address: the second call is refused as already on the list. */
  lemma JoinTwiceRefused(t: Tables, errs: ErrorMap, campaignIdParam: string, emailParam: string,
                         sanitizeEmail: string -> string, isEmail: string -> bool, errs2: ErrorMap, insertOk2: bool)
    requires WaitlistSpec(t, errs, true, campaignIdParam, emailParam, sanitizeEmail, isEmail, true).2.Sent?
    ensures var t' := WaitlistSpec(t, errs, true, campaignIdParam, emailParam, sanitizeEmail, isEmail, true).0;
      WaitlistSpec(t', errs2, true, campaignIdParam, emailParam, sanitizeEmail, isEmail, insertOk2).2
        == JsonError(MsgAlreadyWaiting)
  {
    var t' := WaitlistSpec(t, errs, true, campaignIdParam, emailParam, sanitizeEmail, isEmail, true).0;
    assert t'.waitlist[|t.waitlist|] == WaitlistEntry(Intval(campaignIdParam), sanitizeEmail(emailParam));
  }
}
