/**
 * The plugin's database tables (campaigns, claimed codes, email
 * verifications, waitlist) as in-memory values, and the store object the
 * allocator updates in place. Column names follow the `wcfd_*` tables; times
 * are integer seconds.
 */
module Tables {
  import opened Php

  /** A row of `wcfd_campaigns`. `status` and `discount_type` hold whatever was written. */
  datatype Campaign = Campaign(
    name: string,
    discountType: string,
    discountValue: real,
    totalCodes: int,
    codesRemaining: int,
    expiryHours: int,
    enableIpLimit: bool,
    maxPerIp: int,
    scopeType: string,
    scopeIds: string,
    tieredDiscounts: string,
    status: string)

  /** A row of `wcfd_claimed_codes`. */
  datatype Claim = Claim(
    campaignId: int,
    email: string,
    userId: Option<int>,
    couponCode: string,
    claimedAt: int,
    expiresAt: int,
    usedAt: Option<int>,
    ip: string,
    emailVerified: bool)

  /** A row of `wcfd_email_verifications`. */
  datatype Verification = Verification(
    campaignId: int,
    email: string,
    token: string,
    couponCode: string,
    ip: string,
    createdAt: int,
    expiresAt: int,
    verifiedAt: Option<int>)

  /** A row of `wcfd_waitlist`. */
  datatype WaitlistEntry = WaitlistEntry(campaignId: int, email: string)

  /** The whole database at one moment. */
  datatype Tables = Tables(
    campaigns: map<int, Campaign>,
    nextCampaignId: int,
    claims: seq<Claim>,
    verifications: seq<Verification>,
    waitlist: seq<WaitlistEntry>)

  /** The row-locking `SELECT … WHERE id = %d AND status = 'active' AND codes_remaining > 0`. */
  predicate Available(t: Tables, campaignId: int) {
    campaignId in t.campaigns
    && t.campaigns[campaignId].status == "active"
    && t.campaigns[campaignId].codesRemaining > 0
  }

  /** `UPDATE wcfd_campaigns SET codes_remaining = … WHERE id = …`. */
  function SetRemaining(t: Tables, campaignId: int, remaining: int): (r: Tables)
    requires campaignId in t.campaigns
    ensures r.campaigns.Keys == t.campaigns.Keys
    ensures r.campaigns[campaignId].codesRemaining == remaining
    ensures r.campaigns[campaignId] == t.campaigns[campaignId].(codesRemaining := remaining)
    ensures forall id :: id in t.campaigns && id != campaignId ==> r.campaigns[id] == t.campaigns[id]
    ensures r.claims == t.claims && r.verifications == t.verifications && r.waitlist == t.waitlist
    ensures r.nextCampaignId == t.nextCampaignId
  {
    t.(campaigns := t.campaigns[campaignId := t.campaigns[campaignId].(codesRemaining := remaining)])
  }

  // ---------------------------------------------------------------------
  // Counting queries over the claims table

  /** `SELECT COUNT(*) … WHERE campaign_id = %d AND user_email = %s AND email_verified = 1`. */
  predicate VerifiedEmailClaim(c: Claim, campaignId: int, email: string) {
    c.campaignId == campaignId && c.email == email && c.emailVerified
  }

  /** `SELECT COUNT(*) … WHERE campaign_id = %d AND ip_address = %s AND email_verified = 1`. */
  predicate VerifiedIpClaim(c: Claim, campaignId: int, ip: string) {
    c.campaignId == campaignId && c.ip == ip && c.emailVerified
  }

  function CountEmail(claims: seq<Claim>, campaignId: int, email: string): (n: nat)
    ensures n <= |claims|
  {
    if claims == [] then 0
    else
      var last := if VerifiedEmailClaim(claims[|claims| - 1], campaignId, email) then 1 else 0;
      CountEmail(claims[..|claims| - 1], campaignId, email) + last
  }

  function CountIp(claims: seq<Claim>, campaignId: int, ip: string): (n: nat)
    ensures n <= |claims|
  {
    if claims == [] then 0
    else
      var last := if VerifiedIpClaim(claims[|claims| - 1], campaignId, ip) then 1 else 0;
      CountIp(claims[..|claims| - 1], campaignId, ip) + last
  }

  /** All claims of one campaign, verified or not. */
  function CountCampaign(claims: seq<Claim>, campaignId: int): (n: nat)
    ensures n <= |claims|
  {
    if claims == [] then 0
    else
      var last := if claims[|claims| - 1].campaignId == campaignId then 1 else 0;
      CountCampaign(claims[..|claims| - 1], campaignId) + last
  }

  /** The count of verified claims for an email is positive exactly when such a row exists. */
  lemma {:induction false} CountEmailPositive(claims: seq<Claim>, campaignId: int, email: string)
    ensures CountEmail(claims, campaignId, email) > 0
      <==> exists i :: 0 <= i < |claims| && VerifiedEmailClaim(claims[i], campaignId, email)
  {
    if claims != [] {
      var init := claims[..|claims| - 1];
      CountEmailPositive(init, campaignId, email);
      if exists i :: 0 <= i < |init| && VerifiedEmailClaim(init[i], campaignId, email) {
        var i :| 0 <= i < |init| && VerifiedEmailClaim(init[i], campaignId, email);
        assert claims[i] == init[i];
      }
      if exists i :: 0 <= i < |claims| && VerifiedEmailClaim(claims[i], campaignId, email) {
        var i :| 0 <= i < |claims| && VerifiedEmailClaim(claims[i], campaignId, email);
        if i < |init| {
          assert init[i] == claims[i];
        }
      }
    }
  }

  lemma CountEmailAppend(claims: seq<Claim>, c: Claim, campaignId: int, email: string)
    ensures CountEmail(claims + [c], campaignId, email)
      == CountEmail(claims, campaignId, email) + (if VerifiedEmailClaim(c, campaignId, email) then 1 else 0)
  {
    assert (claims + [c])[..|claims|] == claims;
  }

  lemma CountIpAppend(claims: seq<Claim>, c: Claim, campaignId: int, ip: string)
    ensures CountIp(claims + [c], campaignId, ip)
      == CountIp(claims, campaignId, ip) + (if VerifiedIpClaim(c, campaignId, ip) then 1 else 0)
  {
    assert (claims + [c])[..|claims|] == claims;
  }

  lemma CountCampaignAppend(claims: seq<Claim>, c: Claim, campaignId: int)
    ensures CountCampaign(claims + [c], campaignId)
      == CountCampaign(claims, campaignId) + (if c.campaignId == campaignId then 1 else 0)
  {
    assert (claims + [c])[..|claims|] == claims;
  }

  /** Changing only the `used_at` column of some rows leaves every count as it was. */
  predicate SameExceptUsedAt(a: seq<Claim>, b: seq<Claim>) {
    |a| == |b| && forall i :: 0 <= i < |a| ==> a[i].(usedAt := None) == b[i].(usedAt := None)
  }

  lemma {:induction false} CountCampaignUsedAt(a: seq<Claim>, b: seq<Claim>, campaignId: int)
    requires SameExceptUsedAt(a, b)
    ensures CountCampaign(a, campaignId) == CountCampaign(b, campaignId)
  {
    if a != [] {
      var n := |a| - 1;
      assert a[n].(usedAt := None).campaignId == a[n].campaignId;
      assert b[n].(usedAt := None).campaignId == b[n].campaignId;
      assert SameExceptUsedAt(a[..n], b[..n]) by {
        forall i | 0 <= i < n ensures a[..n][i].(usedAt := None) == b[..n][i].(usedAt := None) {
          assert a[..n][i] == a[i] && b[..n][i] == b[i];
        }
      }
      CountCampaignUsedAt(a[..n], b[..n], campaignId);
    }
  }

  // ---------------------------------------------------------------------
  // The store

  /**
   * The database connection as one mutable object. Every allocator call is a
   * single method on it, standing for one `START TRANSACTION … COMMIT` block
   * under the campaign row lock.
   */
  class Store {
    var campaigns: map<int, Campaign>
    var nextCampaignId: int
    var claims: seq<Claim>
    var verifications: seq<Verification>
    var waitlist: seq<WaitlistEntry>
    /** The `wcfd` object-cache group: `campaign_<id>` entries. */
    var cache: map<int, Campaign>

    function Snapshot(): (t: Tables)
      reads this
      ensures t.campaigns == campaigns && t.claims == claims
      ensures t.verifications == verifications && t.waitlist == waitlist
      ensures t.nextCampaignId == nextCampaignId
    {
      Tables(campaigns, nextCampaignId, claims, verifications, waitlist)
    }

    constructor (t: Tables)
      ensures Snapshot() == t && cache == map[]
    {
      campaigns := t.campaigns;
      nextCampaignId := t.nextCampaignId;
      claims := t.claims;
      verifications := t.verifications;
      waitlist := t.waitlist;
      cache := map[];
    }

    /** Puts every table back as it was (`ROLLBACK`); the cache is not transactional. */
    method Restore(t: Tables)
      modifies this
      ensures Snapshot() == t && cache == old(cache)
    {
      campaigns := t.campaigns;
      nextCampaignId := t.nextCampaignId;
      claims := t.claims;
      verifications := t.verifications;
      waitlist := t.waitlist;
    }
  }
}
