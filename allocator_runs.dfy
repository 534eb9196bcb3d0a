/**
 * Arbitrary sequences of visitor-facing requests against both allocators,
 * each request one atomic step, as the campaign row lock makes it. Over any
 * such run no campaign's `codes_remaining` drops below zero, codes left plus
 * claims recorded stays constant per campaign (unless the version-2
 * decrement failed), and so no campaign hands out more codes than it had.
 *
 * The admin's `update_campaign` is not among the steps: it may write any
 * `codes_remaining`, including a negative one.
 */
module AllocatorRuns {
  import opened Php
  import opened Tables
  import opened Validation
  import opened CampaignManager
  import Monolith
  import FrontendHandler

  /** One request. */
  datatype Step =
    | V2Request(q: FrontendHandler.ClaimPost, env: FrontendHandler.HandlerEnv, now: int)
    | V2Confirm(token: string, email: string, user: int, venv: FrontendHandler.VerifyEnv, now: int)
    | V2Waitlist(nonceOk: bool, campaignId: string, address: string, sanitizeEmail: string -> string,
                 isEmail: string -> bool, insertOk: bool)
    | V1Request(campaign: int, visitor: Monolith.Visitor, ip: string, now: int, env1: Monolith.Env)
    // `flag` is the `email_verified` value stored: false as written, true once corrected
    | V1Confirm(token: string, campaign: int, user: int, now: int, fault: Monolith.V1Fault, flag: bool)
    | Cleanup(now: int)

  /** The tables after one request; each request starts with an empty error map. */
  function Next(t: Tables, s: Step): Tables {
    match s
    case V2Request(q, env, now) => FrontendHandler.HandlerClaimSpec(t, [], q, env, now).0
    case V2Confirm(token, email, user, venv, now) => FrontendHandler.VerifySpec(t, token, email, user, venv, now).0
    case V2Waitlist(nonceOk, id, address, sanitizeEmail, isEmail, insertOk) =>
      FrontendHandler.WaitlistSpec(t, [], nonceOk, id, address, sanitizeEmail, isEmail, insertOk).0
    case V1Request(id, visitor, ip, now, env1) => Monolith.AjaxClaimSpec(t, id, visitor, ip, now, env1).0
    case V1Confirm(token, id, user, now, fault, flag) => Monolith.VerifyWithFlag(t, token, id, user, now, fault, flag).0
    case Cleanup(now) => t.(claims := Monolith.MarkExpired(t.claims, now))
  }

  function Run(t: Tables, steps: seq<Step>): Tables
    decreases |steps|
  {
    if steps == [] then t else Run(Next(t, steps[0]), steps[1..])
  }

  /** The version-2 unchecked decrement did not fail on this step. */
  predicate DecrementHeld(s: Step) {
    match s
    case V2Request(_, env, _) => env.fault != DecrementFails
    case V2Confirm(_, _, _, venv, _) => venv.fault != DecrementFails
    case _ => true
  }

  /** The amount the invariant keeps: codes left plus claim rows of the campaign. */
  function Stock(t: Tables, id: int): int
    requires id in t.campaigns
  {
    t.campaigns[id].codesRemaining + CountCampaign(t.claims, id)
  }

  /** Every version-2 step either leaves the tables, adds a link record, or is one `claim_discount`. */
  lemma V2RequestShape(t: Tables, q: FrontendHandler.ClaimPost, env: FrontendHandler.HandlerEnv, now: int)
    ensures var t' := FrontendHandler.HandlerClaimSpec(t, [], q, env, now).0;
      || (t'.campaigns == t.campaigns && t'.claims == t.claims)
      || exists req: ClaimRequest, code :: t' == ClaimSpec(t, req, code, now, env.fault).0
  {
    if !q.nonceOk || CampaignIdCheck(Int(Intval(q.campaignId))).Failure? {
      FrontendHandler.EarlyRefusalsChangeNothing(t, [], q, env, now);
    } else if q.user.None? {
      FrontendHandler.VisitorOnlyGetsLink(t, [], q, env, now);
    } else if IpCheck(env.rangeTest, q.remoteAddr, q.forwardedFor, q.realIp, env.banned, env.validIp).IpAccepted? {
      FrontendHandler.MemberClaimsAtOnce(t, [], q, env, now);
      var ip := IpCheck(env.rangeTest, q.remoteAddr, q.forwardedFor, q.realIp, env.banned, env.validIp).ip;
      var req := ClaimRequest(Intval(q.campaignId), q.user.value.email, ip, true, q.user.value.userId);
      assert FrontendHandler.HandlerClaimSpec(t, [], q, env, now).0
        == ClaimSpec(t, req, GenerateCouponCode(env.codeRnd), now, env.fault).0;
    } else {
      MemberIpRefusedKeeps(t, q, env, now);
    }
  }

  /** A member whose client IP is refused or unreadable changes nothing. */
  lemma MemberIpRefusedKeeps(t: Tables, q: FrontendHandler.ClaimPost, env: FrontendHandler.HandlerEnv, now: int)
    requires q.nonceOk && q.user.Some? && CampaignIdCheck(Int(Intval(q.campaignId))).Success?
    requires !IpCheck(env.rangeTest, q.remoteAddr, q.forwardedFor, q.realIp, env.banned, env.validIp).IpAccepted?
    ensures FrontendHandler.HandlerClaimSpec(t, [], q, env, now).0 == t
  {
  }

  lemma V2ConfirmShape(t: Tables, token: string, email: string, user: int, venv: FrontendHandler.VerifyEnv, now: int)
    ensures var t' := FrontendHandler.VerifySpec(t, token, email, user, venv, now).0;
      t' == t || exists req: ClaimRequest, code :: t' == ClaimSpec(t, req, code, now, venv.fault).0
  {
    var t' := FrontendHandler.VerifySpec(t, token, email, user, venv, now).0;
    if t' != t {
      var tok := venv.sanitizeText(token);
      var mail := venv.sanitizeEmail(email);
      var rec := t.verifications[FrontendHandler.FindOpenRecord(t.verifications, tok, mail, now).value];
      var req := ClaimRequest(rec.campaignId, mail, rec.ip, true, user);
      assert t' == ClaimSpec(t, req, GenerateCouponCode(venv.codeRnd), now, venv.fault).0;
    }
  }

  /** A refused request changes nothing. */
  lemma V1RefusedKeeps(t: Tables, cid: int, visitor: Monolith.Visitor, ip: string, now: int, env1: Monolith.Env, id: int)
    requires Monolith.RequestRefusal(t, cid, visitor, ip, now, env1).Some?
    requires id in t.campaigns
    ensures Keeps(t, Monolith.AjaxClaimSpec(t, cid, visitor, ip, now, env1).0, id, true)
  {
    assert Monolith.AjaxClaimSpec(t, cid, visitor, ip, now, env1).0 == t;
  }

  /** A member's request is one `process_discount_claim`. */
  lemma V1MemberKeeps(t: Tables, cid: int, visitor: Monolith.Visitor, ip: string, now: int, env1: Monolith.Env, id: int)
    requires Monolith.RequestRefusal(t, cid, visitor, ip, now, env1).None? && visitor.Member?
    requires id in t.campaigns
    ensures Keeps(t, Monolith.AjaxClaimSpec(t, cid, visitor, ip, now, env1).0, id, true)
  {
    var req := ClaimRequest(cid, Monolith.RequestEmail(visitor, env1), ip, true, visitor.userId);
    assert Monolith.AjaxClaimSpec(t, cid, visitor, ip, now, env1).0
      == Monolith.ProcessSpec(t, req, None, GenerateCouponCode(env1.codeRnd), now, env1.fault).0;
    Monolith.ProcessConserves(t, req, None, GenerateCouponCode(env1.codeRnd), now, env1.fault, id);
  }

  /** A visitor's request only adds a verification record. */
  lemma V1GuestKeeps(t: Tables, cid: int, visitor: Monolith.Visitor, ip: string, now: int, env1: Monolith.Env, id: int)
    requires visitor.Guest?
    requires id in t.campaigns
    ensures Keeps(t, Monolith.AjaxClaimSpec(t, cid, visitor, ip, now, env1).0, id, true)
  {
    Monolith.GuestTouchesOnlyRecords(t, cid, visitor.postedEmail, ip, now, env1);
  }

  lemma V1ConfirmShape(t: Tables, token: string, id: int, user: int, now: int, fault: Monolith.V1Fault, flag: bool)
    ensures var t' := Monolith.VerifyWithFlag(t, token, id, user, now, fault, flag).0;
      t' == t || exists req: ClaimRequest, k: nat | k < |t.verifications| ::
        t' == Monolith.ProcessSpec(t, req, Some(k), "", now, fault).0
  {
    var t' := Monolith.VerifyWithFlag(t, token, id, user, now, fault, flag).0;
    if t' != t {
      var k := Monolith.FindVerification(t.verifications, token, id).value;
      var v := t.verifications[k];
      var req := ClaimRequest(id, v.email, v.ip, flag, user);
      assert t' == Monolith.ProcessSpec(t, req, Some(k), "", now, fault).0;
    }
  }

  /** What one step must keep for the run lemmas: the campaign, a non-negative count, and the stock. */
  predicate Keeps(t: Tables, t': Tables, id: int, held: bool)
    requires id in t.campaigns
  {
    && id in t'.campaigns
    && (t.campaigns[id].codesRemaining >= 0 ==> t'.campaigns[id].codesRemaining >= 0)
    && (held ==> Stock(t', id) == Stock(t, id))
  }

  lemma ClaimKeeps(t: Tables, req: ClaimRequest, code: string, now: int, fault: ClaimFault, id: int)
    requires id in t.campaigns
    ensures Keeps(t, ClaimSpec(t, req, code, now, fault).0, id, fault != DecrementFails)
  {
    if t.campaigns[id].codesRemaining >= 0 {
      ClaimKeepsRemainingNonNegative(t, req, code, now, fault, id);
    }
    if fault != DecrementFails {
      ClaimConserves(t, req, code, now, fault, id);
    }
  }

  lemma V2RequestKeeps(t: Tables, q: FrontendHandler.ClaimPost, env: FrontendHandler.HandlerEnv, now: int, id: int)
    requires id in t.campaigns
    ensures Keeps(t, FrontendHandler.HandlerClaimSpec(t, [], q, env, now).0, id, env.fault != DecrementFails)
  {
    V2RequestShape(t, q, env, now);
    var t' := FrontendHandler.HandlerClaimSpec(t, [], q, env, now).0;
    if !(t'.campaigns == t.campaigns && t'.claims == t.claims) {
      var req: ClaimRequest, code :| t' == ClaimSpec(t, req, code, now, env.fault).0;
      ClaimKeeps(t, req, code, now, env.fault, id);
    }
  }

  lemma V2ConfirmKeeps(t: Tables, token: string, email: string, user: int, venv: FrontendHandler.VerifyEnv, now: int, id: int)
    requires id in t.campaigns
    ensures Keeps(t, FrontendHandler.VerifySpec(t, token, email, user, venv, now).0, id, venv.fault != DecrementFails)
  {
    V2ConfirmShape(t, token, email, user, venv, now);
    var t' := FrontendHandler.VerifySpec(t, token, email, user, venv, now).0;
    if t' != t {
      var req: ClaimRequest, code :| t' == ClaimSpec(t, req, code, now, venv.fault).0;
      ClaimKeeps(t, req, code, now, venv.fault, id);
    }
  }

  lemma V1RequestKeeps(t: Tables, cid: int, visitor: Monolith.Visitor, ip: string, now: int, env1: Monolith.Env, id: int)
    requires id in t.campaigns
    ensures Keeps(t, Monolith.AjaxClaimSpec(t, cid, visitor, ip, now, env1).0, id, true)
  {
    if Monolith.RequestRefusal(t, cid, visitor, ip, now, env1).Some? {
      V1RefusedKeeps(t, cid, visitor, ip, now, env1, id);
    } else if visitor.Member? {
      V1MemberKeeps(t, cid, visitor, ip, now, env1, id);
    } else {
      V1GuestKeeps(t, cid, visitor, ip, now, env1, id);
    }
  }

  lemma V1ConfirmKeeps(t: Tables, token: string, cid: int, user: int, now: int, fault: Monolith.V1Fault, flag: bool,
                        id: int)
    requires id in t.campaigns
    ensures Keeps(t, Monolith.VerifyWithFlag(t, token, cid, user, now, fault, flag).0, id, true)
  {
    V1ConfirmShape(t, token, cid, user, now, fault, flag);
    var t' := Monolith.VerifyWithFlag(t, token, cid, user, now, fault, flag).0;
    if t' != t {
      var req: ClaimRequest, k: nat :| k < |t.verifications| && t' == Monolith.ProcessSpec(t, req, Some(k), "", now, fault).0;
      Monolith.ProcessConserves(t, req, Some(k), "", now, fault, id);
    }
  }

  lemma WaitlistKeeps(t: Tables, nonceOk: bool, cid: string, address: string, sanitizeEmail: string -> string,
                      isEmail: string -> bool, insertOk: bool, id: int)
    requires id in t.campaigns
    ensures Keeps(t, FrontendHandler.WaitlistSpec(t, [], nonceOk, cid, address, sanitizeEmail, isEmail, insertOk).0, id, true)
  {
    var t' := FrontendHandler.WaitlistSpec(t, [], nonceOk, cid, address, sanitizeEmail, isEmail, insertOk).0;
    assert t'.campaigns == t.campaigns && t'.claims == t.claims;
  }

  lemma CleanupKeeps(t: Tables, now: int, id: int)
    requires id in t.campaigns
    ensures Keeps(t, t.(claims := Monolith.MarkExpired(t.claims, now)), id, true)
  {
    Monolith.MarkExpiredKeepsCounts(t.claims, now, id);
  }

  /**
   * One step keeps the set of campaigns, keeps every non-negative count
   * non-negative, and, when the decrement held, keeps each campaign's stock.
   */
  lemma StepInvariant(t: Tables, s: Step, id: int)
    requires id in t.campaigns
    ensures Keeps(t, Next(t, s), id, DecrementHeld(s))
  {
    match s
    case V2Request(q, env, now) => V2RequestKeeps(t, q, env, now, id);
    case V2Confirm(token, email, user, venv, now) => V2ConfirmKeeps(t, token, email, user, venv, now, id);
    case V2Waitlist(nonceOk, cid, address, sanitizeEmail, isEmail, insertOk) =>
      WaitlistKeeps(t, nonceOk, cid, address, sanitizeEmail, isEmail, insertOk, id);
    case V1Request(cid, visitor, ip, now, env1) => V1RequestKeeps(t, cid, visitor, ip, now, env1, id);
    case V1Confirm(token, cid, user, now, fault, flag) => V1ConfirmKeeps(t, token, cid, user, now, fault, flag, id);
    case Cleanup(now) => CleanupKeeps(t, now, id);
  }

  /** Over any run, a campaign that started with a non-negative count never shows a negative one. */
  lemma {:induction false} RunKeepsRemainingNonNegative(t: Tables, steps: seq<Step>, id: int)
    requires id in t.campaigns && t.campaigns[id].codesRemaining >= 0
    ensures id in Run(t, steps).campaigns && Run(t, steps).campaigns[id].codesRemaining >= 0
    decreases |steps|
  {
    if steps != [] {
      StepInvariant(t, steps[0], id);
      RunKeepsRemainingNonNegative(Next(t, steps[0]), steps[1..], id);
    }
  }

  /** Over any run whose version-2 decrements all held, each campaign's stock is what it was. */
  lemma {:induction false} RunConserves(t: Tables, steps: seq<Step>, id: int)
    requires id in t.campaigns
    requires forall k :: 0 <= k < |steps| ==> DecrementHeld(steps[k])
    ensures id in Run(t, steps).campaigns && Stock(Run(t, steps), id) == Stock(t, id)
    decreases |steps|
  {
    if steps != [] {
      StepInvariant(t, steps[0], id);
      assert forall k :: 0 <= k < |steps[1..]| ==> DecrementHeld(steps[1..][k]) by {
        forall k | 0 <= k < |steps[1..]| ensures DecrementHeld(steps[1..][k]) {
          assert steps[1..][k] == steps[k + 1];
        }
      }
      RunConserves(Next(t, steps[0]), steps[1..], id);
    }
  }

  /** No run hands out more codes for a campaign than it had left at the start. */
  lemma RunNeverOversells(t: Tables, steps: seq<Step>, id: int)
    requires id in t.campaigns && t.campaigns[id].codesRemaining >= 0
    requires forall k :: 0 <= k < |steps| ==> DecrementHeld(steps[k])
    ensures CountCampaign(Run(t, steps).claims, id) - CountCampaign(t.claims, id) <= t.campaigns[id].codesRemaining
  {
    RunConserves(t, steps, id);
    RunKeepsRemainingNonNegative(t, steps, id);
  }
}
