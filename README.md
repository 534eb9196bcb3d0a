# wc-fomo-discount in Dafny

This project models the core of the WooCommerce plugin *wc-fomo-discount*. The plugin runs "FOMO" campaigns: each campaign has a fixed pool of single-use coupon codes that visitors claim on the shop's front end. The model covers the following parts:

- **The code-claim allocator, in both versions the repository ships.**
  - The version-2 allocator is `Campaign_Manager::claim_discount`. It re-reads the campaign under a row lock, then checks in order: availability, a duplicate verified e-mail, and the IP quota. It then creates the WooCommerce coupon, inserts the claim row and decrements `codes_remaining`. A refusal, or a failure before COMMIT, rolls everything back, with two exceptions the model keeps:
    - the decrement's result is not checked: a decrement that fails still commits the claim, one code over the count (`CampaignManager.DecrementFailureOversells`);
    - an exception from the `wcfd_discount_claimed` hook after COMMIT leaves the claim and the decrement in place, while the caller is told the claim failed.
  - The version-1 allocator is the monolithic plugin class in `wc-fomo-discount.php`. A visitor's request only stores a 30-minute verification record. The code is taken only when the `wcfd_verify_email` AJAX handler confirms that record (`process_discount_claim`); the link in the e-mail does not itself reach that handler (see "## Left out").
  - In both versions each call is one sequential method on an in-memory store (`Tables.Store`). The method is proved equal to a specification function of the old tables. `AllocatorRuns` proves properties over arbitrary sequences of requests:
    - `codes_remaining` never goes negative, on every run;
    - on a run whose decrements all hold, codes left plus claim rows stays constant for each campaign;
    - on such a run, no campaign hands out more codes than it had.
  - A run in which a decrement fails is outside the last two: each such failure leaves one claim row more than `codes_remaining` went down.
- **The validator.** Guard chains for campaign ids, discount values, text, e-mail addresses and client IPs; the CIDR ban list on 32-bit masks, with `ip_in_range` as written and a corrected range test side by side; and the per-field error map.
- **The front-end handler.** Shortcode and widget gating, the AJAX claim routing, e-mail verification and the waitlist.
- **The database manager's migration runner.** Migrations are ordered and skip any version that is not newer. The runner stops at the first failure and the version it records only rises.
- **The logger.** Level gating, the line format, the timer map, the newest-first filtered tail, and the removal of old log files.
- **The performance monitor.** The timer map, the request snapshot and the 100-entry request history.
- **The class autoloader.**
- **The browser script's own logic.** The e-mail pattern, the "time remaining" text, the pre-send checks, the pending-coupon freshness rule and the polling cap.

A few things outside the plugin's control become plain inputs:

- **Outside effects:** time (integer seconds, or milliseconds in the script), randomness (a `nat -> nat` draw function), and the success or failure of the outside world (coupon save, insert, mail, a thrown exception).
- **WordPress/PHP helpers:** `is_email`, the sanitizers, `FILTER_VALIDATE_IP`, `preg_match`, `json_encode`, `wc_price` and `file_exists` are function-typed parameters.

### Behaviour the code does not have

These are behaviours one might expect of a FOMO allocator but that the code does not have. The model follows the code:

- **Tiered discounts.** No claim computes a tier: `tiered_discounts` is only stored and decoded.
- **Expiry release.** Expired codes never go back to the pool: clean-up only sets `used_at` and never increments `codes_remaining`.
- **When the code is taken.** In version 1 the visitor's request takes no code; the decrement happens only when the `wcfd_verify_email` handler confirms the record.
- **Coupon failure.** A coupon that cannot be saved keeps no reservation: the claim is rolled back.
- **A second confirmation.** Confirming the same token twice does not repeat the first answer: the second use is refused, provided the first one marked the record (version 1 does not check that it did).

## Model

| member | source | states |
|---|---|---|
| Php.ToLower | includes/autoloader.php:29 | `strtolower`: same length, every ASCII capital lowered, all other characters kept |
| Php.ToUpper | includes/core/class-campaign-manager.php:466 | `strtoupper`: same length, every ASCII small letter raised, all other characters kept |
| Php.ReplaceChar | includes/autoloader.php:29 | `str_replace` of one character: same length, exactly the matching positions replaced |
| Php.Intval | wc-fomo-discount.php:351 | `intval` of a string: always within PHP_INT_MIN..PHP_INT_MAX |
| Php.IntvalOfNatToString | wc-fomo-discount.php:351 | `intval` reads back the decimal text of every n ≤ PHP_INT_MAX |
| Php.IntvalOfDigitRun | includes/core/class-validator.php:106 | text starting with a digit is read as its longest leading digit run, clamped to PHP_INT_MAX |
| Php.Explode | wc-fomo-discount.php:347 | `explode` on one character never returns an empty list, and no piece contains the separator |
| Php.ExplodeImplode | wc-fomo-discount.php:357 | splitting an `implode`d list gives the list back when no piece holds the separator |
| Php.Utf8Width | includes/core/class-validator.php:245 | a character takes 1 to 4 bytes in UTF-8, and exactly 1 iff it is ASCII |
| Php.Strlen | includes/core/class-validator.php:245 | `strlen` counts UTF-8 bytes: at least one and at most four per character |
| Php.StrlenAscii | includes/core/class-validator.php:245 | the byte count equals the character count iff every character is ASCII |
| Php.GeneratePassword | includes/frontend/class-frontend-handler.php:278 | `wp_generate_password(n, false)` yields exactly n letters and digits |
| Php.RandomHex | wc-fomo-discount.php:511 | `bin2hex(random_bytes(n))` yields exactly 2n lower-case hexadecimal digits |
| Php.GenerateCouponCode | includes/core/class-campaign-manager.php:465-467 | a coupon code is 12 characters: "FOMO" then 8 capitals or digits |
| Tables.SetRemaining | includes/core/class-campaign-manager.php:380-384 | the decrement update changes only `codes_remaining` of the one campaign; every other row and table is kept |
| Tables.CountEmail | includes/core/class-campaign-manager.php:530-535 | the verified-e-mail count never exceeds the number of claim rows |
| Tables.CountEmailPositive | includes/core/class-campaign-manager.php:530-537 | the verified-e-mail count is positive exactly when a verified row for that campaign and e-mail exists |
| Tables.CountCampaignUsedAt | wc-fomo-discount.php:818-822 | changing only `used_at` of rows leaves the per-campaign claim count unchanged |
| Tables.Store.Restore | includes/core/class-campaign-manager.php:325 | `ROLLBACK` puts every table back exactly and leaves the (non-transactional) cache alone |
| Validation.Lookup | includes/core/class-validator.php:336 | a field has an entry exactly when it was keyed into the map |
| Validation.Put | includes/core/class-validator.php:335-337 | `add_error`: the field now maps to the new message (a later error overwrites), every other field is unchanged |
| Validation.PutKeepsDistinct | includes/core/class-validator.php:336 | adding an error keeps the map's keys distinct |
| Validation.ErrorMessage | includes/core/class-validator.php:369-375 | '' for an empty map, the lone message for a one-entry map |
| Validation.ErrorMessageAppend | includes/core/class-validator.php:374 | an error on a new field extends the joined message by ". " and the new message |
| Validation.CampaignIdCheck | includes/core/class-validator.php:98-115 | accepted iff not empty and `intval` > 0, returning that int; "Campaign ID is required" for empty input, "Invalid campaign ID" otherwise |
| Validation.CampaignIdOfDecimal | includes/core/class-validator.php:100-114 | the decimal text of n is accepted as n when n > 0 and refused as required when n = 0 ("0" is empty) |
| Validation.CampaignIdExamples | tests/unit/test-validator.php:75-85 | '123'→123, 1→1, '', -1 and 0 refused |
| Validation.CampaignIdNonNumeric | tests/unit/test-validator.php:82 | any text not starting with a space, digit or sign (like 'abc') is refused |
| Validation.DiscountCheck | includes/core/class-validator.php:124-156 | accepted iff a number ≥ 0, ≤ 100 for 'percent' and ≤ the fixed maximum for 'fixed'; the value is returned; a missing value gets "Discount value is required" |
| Validation.DiscountExamples | tests/unit/test-validator.php:90-104 | 10.5 and 100 percent accepted, 101 and -5 percent refused with their messages, 25.99 fixed accepted, -10 and 10001 fixed refused |
| Validation.DiscountOtherTypeUnbounded | includes/core/class-validator.php:141-153 | a type other than 'percent' or 'fixed' accepts every non-negative value |
| Validation.TextCheck | includes/core/class-validator.php:221-264 | accepted iff not (required and empty), the sanitized text's `strlen` (bytes) is within [min, max] and the pattern (if any) matches; returns the sanitized text; the required failure has its message |
| Validation.TextDefaults | includes/core/class-validator.php:222-228 | with the defaults, a clean text of at most 500 bytes is accepted unchanged |
| Validation.TextExamplesPlain | tests/unit/test-validator.php:123-129 | "Hello World" accepted; '' refused when required |
| Validation.TextExamplesLength | tests/unit/test-validator.php:131-136 | with length 5..10: "Hello" accepted, "Hi" and "This is too long" refused |
| Validation.TextExamplesPattern | tests/unit/test-validator.php:139-142 | with pattern /^[A-Z]+$/: "HELLO" accepted, "hello" refused |
| Validation.TextLengthCountsBytes | includes/core/class-validator.php:245-254 | the limit counts bytes: three two-byte characters are refused under a 5-byte maximum |
| Validation.DomainOf | includes/core/class-validator.php:281 | the domain is the '@'-free tail after the last '@', and '' when there is no '@' |
| Validation.DomainAfterLastAt | includes/core/class-validator.php:281 | the domain of local@domain is domain whenever domain has no '@' |
| Validation.EmailCheck | includes/core/class-validator.php:51-90 | accepted iff non-empty, `is_email` holds of the sanitized address, its `strlen` is ≤ 254 bytes and the domain is not disposable; returns the sanitized address; empty input gets "Email is required" |
| Validation.DisposableRefused | includes/core/class-validator.php:272-283 | an address at any of the five disposable domains is refused |
| Validation.TooLongRefused | includes/core/class-validator.php:68-71 | a well-formed address longer than 254 bytes is refused as too long |
| Validation.KeepHighIffBits | includes/core/class-validator.php:324-326 | masking with `-1 << (32 - mask)` keeps two 32-bit numbers equal iff their top `mask` bits agree |
| Validation.Octet | includes/core/class-validator.php:322 | a dotted-quad part reads as a number below 256 |
| Validation.Ip2Long | includes/core/class-validator.php:322-323 | `ip2long`: a value below 2^32, and `false` for anything containing ':' (every IPv6 address) |
| Validation.IpInRangeAsWritten | includes/core/class-validator.php:321-327 | `ip_in_range` as written fails (PHP ArithmeticError) exactly when mask > 32 |
| Validation.IpInRangeMeaning | includes/core/class-validator.php:322-326 | as written, the test compares the top `mask` bits of the two `ip2long` values, reading `false` as 0 |
| Validation.NonIpv4MatchesUnreadableSubnet | includes/core/class-validator.php:322-326 | as written, an unreadable IP is "in" every unreadable subnet |
| Validation.Ipv6BanCoversAllIpv6 | includes/core/class-validator.php:321-327 | as written, fe80::1 lies in the ban range 2001:db8::/32 |
| Validation.IpInRange | includes/core/class-validator.php:321-327 | corrected test: in range only when both sides are IPv4, and then iff the top `mask` bits agree |
| Validation.Ipv6NotInRange | includes/core/class-validator.php:321-327 | corrected test: an IPv6 client is in no range |
| Validation.InRange | includes/core/class-validator.php:305 | an Error iff the mask is above 32; when both addresses are IPv4 the corrected test gives the same answer as the code |
| Validation.SubnetPart | includes/core/class-validator.php:304 | `$subnet` of `explode('/', …)` holds no '/' |
| Validation.MaskPart | includes/core/class-validator.php:304 | `$mask` of `explode('/', …)` holds no '/' |
| Validation.CidrEntryMatch | includes/core/class-validator.php:302-305 | one CIDR entry raises an Error iff its mask text is not numeric or reads above 32 |
| Validation.CidrScan | includes/core/class-validator.php:300-308 | for either range test, a ban via ranges is reported only when some listed CIDR entry matches |
| Validation.CidrScanNoError | includes/core/class-validator.php:300-310 | for either range test, when no entry raises an Error the scan answers exactly whether some CIDR entry holds the client |
| Validation.InListedRangeCons | includes/core/class-validator.php:302-307 | a list holds the client in one of its ranges iff its first entry or the rest do |
| Validation.Ipv6OnlyExactBan | includes/core/class-validator.php:300-308 | with the corrected test, the CIDR scan never bans an IPv6 client, so only an exact listing can |
| Validation.ScansAgreeOnReadable | includes/core/class-validator.php:300-308 | for an IPv4 client and readable IPv4 subnets, the scan as written and the corrected scan agree |
| Validation.MaskTextOfDecimal | includes/core/class-validator.php:305 | a mask written in decimal is numeric and `32 - $mask` uses its value |
| Validation.NatToString32 | includes/core/class-validator.php:305 | the decimal text of 32 is "32" |
| Validation.Ipv6EntryParts | includes/core/class-validator.php:304 | the entry "2001:db8::/32" splits into subnet "2001:db8::" and mask "32" |
| Validation.Ipv6ClientBannedAsWritten | includes/core/class-validator.php:291-311 | the ban list ["2001:db8::/32"] bans the unrelated client fe80::1 as written, and does not with the corrected test |
| Validation.BannedSpec | includes/core/class-validator.php:291-311 | an exactly listed IP is banned; a ban is reported only for a listed IP or one inside a listed CIDR entry |
| Validation.TrimInside | includes/core/class-validator.php:168 | `trim` keeps only characters of its input |
| Validation.TrimEnds | includes/core/class-validator.php:168 | `trim` leaves no trimmed character at either end |
| Validation.ClientIp | includes/core/class-validator.php:164-172 | with `X-Forwarded-For` set, its first item, comma-free and trimmed; otherwise `X-Real-IP` if set; otherwise the given address |
| Validation.IpCheck | includes/core/class-validator.php:164-187 | for either range test, the client IP (first forwarded address, else real-IP header, else remote address) is accepted iff it is a valid IP and not banned; an accepted result carries that IP, and an error verdict means the ban scan itself failed |
| Validation.Validator.constructor | includes/core/class-validator.php:34 | a new validator has no errors |
| Validation.Validator.AddError | includes/core/class-validator.php:335-337 | the error map becomes `Put(old map, field, message)` |
| Validation.Validator.HasErrors | includes/core/class-validator.php:353-355 | true iff at least one error is recorded |
| Validation.Validator.ClearErrors | includes/core/class-validator.php:360-362 | the map is emptied and `has_errors` is false afterwards |
| Validation.Validator.GetErrorMessage | includes/core/class-validator.php:369-375 | '' without errors, the lone message with one |
| Validation.Validator.ValidateEmail | includes/core/class-validator.php:51-90 | returns whether `EmailCheck` accepts; records its message under 'email' on failure, else leaves the map |
| Validation.Validator.ValidateCampaignId | includes/core/class-validator.php:98-115 | returns the accepted id or nothing; records the message under 'campaign_id' on failure |
| Validation.Validator.ValidateDiscountValue | includes/core/class-validator.php:124-156 | returns the accepted value or nothing; records the message under 'discount_value' on failure |
| Validation.Validator.ValidateText | includes/core/class-validator.php:221-264 | returns the accepted text or nothing; records the message under 'text' on failure |
| Validation.Validator.ValidateIpAddress | includes/core/class-validator.php:164-187 | returns the `IpCheck` verdict for the given range test; records the refusal message under 'ip_address' on refusal and leaves the map otherwise |
| Validation.IsBannedIp | includes/core/class-validator.php:291-311 | the loop answers the ban specification for the given range test: an exact listing, else the CIDR scan |
| CampaignManager.HasClaimedCode | includes/core/class-campaign-manager.php:527-538 | true iff a row with `email_verified = 1` exists for that campaign and e-mail |
| CampaignManager.GetIpClaimCount | includes/core/class-campaign-manager.php:547-556 | the count of verified rows for that campaign and IP; zero iff there is none |
| CampaignManager.PrecheckError | includes/core/class-campaign-manager.php:317-343 | no refusal iff the campaign is available, the e-mail has no verified claim and the IP quota (when on) is not reached; "unavailable" iff the campaign is not available; only these three refusals occur |
| CampaignManager.ClaimSpec | includes/core/class-campaign-manager.php:307-416 | a pre-check refusal changes nothing; success iff the claim commits and no hook throws; no commit changes nothing; a commit appends exactly the new row, and decrements that campaign unless the decrement failed; no other campaign or table changes; a success reports the code and `codes_remaining - 1` |
| CampaignManager.ClaimDiscount | includes/core/class-campaign-manager.php:307-416 | the new tables and the result are exactly the claim specification of the old tables; the campaign's cache entry is dropped only on commit |
| CampaignManager.ClaimChangesTables | includes/core/class-campaign-manager.php:360-389 | a claim that reaches COMMIT always changes the tables, since it appended a claim row |
| CampaignManager.RunPrechecks | includes/core/class-campaign-manager.php:317-343 | returns the first failing pre-check (availability, duplicate, IP quota) or none |
| CampaignManager.ClaimSuccessEffect | includes/core/class-campaign-manager.php:360-406 | on success: the campaign was available; exactly one claim row is appended; `codes_remaining` drops by one; the receipt reports `codes_remaining - 1`; the other tables are kept |
| CampaignManager.ClaimFailureUnchanged | includes/core/class-campaign-manager.php:324-377 | apart from an exception thrown by the `wcfd_discount_claimed` hook after COMMIT, every refusal or failure leaves the tables unchanged |
| CampaignManager.ClaimCheckOrder | includes/core/class-campaign-manager.php:324-353 | each error is returned exactly when its check is the first to fail: unavailable, already claimed, IP limit, coupon |
| CampaignManager.CouponFailureMessage | includes/core/class-campaign-manager.php:488-516 | the `coupon_error` text: for a negative `expiry_hours` the `DateInterval` exception's message, which the catch returns; otherwise "Failed to create coupon" when the save fails |
| CampaignManager.CouponErrorText | includes/core/class-campaign-manager.php:488-516 | a claim that passes the pre-checks on a campaign with negative `expiry_hours` fails with `coupon_error` "Unknown or bad format (PT-<n>H)"; with a non-negative one and a failing save, with "Failed to create coupon" |
| CampaignManager.UnverifiedRowsIgnored | includes/core/class-campaign-manager.php:530-537 | adding an unverified row never changes whether a claim is refused as already claimed |
| CampaignManager.IpIgnoredWithoutLimit | includes/core/class-campaign-manager.php:337-343 | with the IP limit off, the client IP does not affect the outcome |
| CampaignManager.ClaimKeepsRemainingNonNegative | includes/core/class-campaign-manager.php:317-327 | a claim never takes any campaign's `codes_remaining` below zero |
| CampaignManager.ClaimConserves | includes/core/class-campaign-manager.php:360-384 | codes left plus claim rows of every campaign is unchanged by a claim whose decrement held |
| CampaignManager.DecrementFailureOversells | includes/core/class-campaign-manager.php:379-387 | the decrement's result is not checked: if it fails, the claim still succeeds with one more row and no decrement |
| CampaignManager.SecondVerifiedClaimRefused | includes/core/class-campaign-manager.php:329-334 | after a verified claim, any later claim for the same campaign and e-mail is refused as already claimed, or as unavailable once the codes run out |
| CampaignManager.CampaignDataErrors | includes/core/class-campaign-manager.php:425-458 | no errors iff: the name is present when it is checked, the discount is accepted and non-zero when it is checked, and total codes are within 1..10000 when checked |
| CampaignManager.ValidateCampaignData | includes/core/class-campaign-manager.php:425-458 | the result is the '. '-join of the collected errors (none when empty); the validator's map is updated as the discount check records |
| CampaignManager.AskDiscount | includes/core/class-campaign-manager.php:436-444 | runs the discount check only when it applies, with type 'percent' and value 0 as the fallbacks |
| CampaignManager.ZeroDiscountRefusedSilently | includes/core/class-campaign-manager.php:436-443 | a zero discount is refused with an empty message: `0.0` is falsy and the validator recorded nothing |
| CampaignManager.NewCampaign | includes/core/class-campaign-manager.php:69-80 | the new row is 'active', with `codes_remaining = total_codes`, and the IP limit on iff the field was set |
| CampaignManager.CreateSpec | includes/core/class-campaign-manager.php:57-118 | on failure nothing changes; on success the row gets the next id, which is returned, and the other tables are kept |
| CampaignManager.CreatedCampaignShape | includes/core/class-campaign-manager.php:63-80 | a validated, created campaign is active with 1..10000 codes, all still remaining |
| CampaignManager.CreateCampaign | includes/core/class-campaign-manager.php:57-118 | the store and the result are `CreateSpec` of the validation outcome; the cache is untouched |
| CampaignManager.CampaignLookup | includes/core/class-campaign-manager.php:220-246 | a campaign is found iff it is cached or stored; an uncached one is read from the table |
| CampaignManager.CacheAfterLookup | includes/core/class-campaign-manager.php:226-243 | after a lookup the id is cached iff it was cached or stored, the cached entry is what the lookup returned, and every other entry is kept |
| CampaignManager.GetCampaign | includes/core/class-campaign-manager.php:220-246 | a cache hit is returned as is; a miss reads the row and caches it; an unknown id returns nothing and caches nothing; the new cache is `CacheAfterLookup` of the old one |
| CampaignManager.ApplyUpdate | includes/core/class-campaign-manager.php:164-180 | each of the twelve columns keeps its old value when absent from the input and takes the submitted value when present (a blank discount as 0, the IP flag as non-zero, the scope ids joined, the tiers as JSON) |
| CampaignManager.EmptyUpdateIsIdentity | includes/core/class-campaign-manager.php:164-169 | an update with no fields changes nothing |
| CampaignManager.ApplyUpdateIdempotent | includes/core/class-campaign-manager.php:164-180 | applying the same update twice is the same as applying it once |
| CampaignManager.UpdateCampaign | includes/core/class-campaign-manager.php:127-212 | the store and result are exactly `UpdateSpec` of the lookup, of the validation verdict (the '. '-joined errors) and of the update's outcome; for a found id the error map is what validation records, otherwise unchanged; a cache hit is kept, and a miss caches the row as it was before the update |
| CampaignManager.UpdateSpec | includes/core/class-campaign-manager.php:127-212 | `not_found` for an unknown id; a validation failure returns its message; success (`true`) iff found, valid, some column set and the update works; any failure changes nothing; success rewrites only that campaign with `ApplyUpdate` and keeps every other table |
| Monolith.PositiveIds | wc-fomo-discount.php:350-355 | keeps at most one id per piece, each in 1..PHP_INT_MAX |
| Monolith.PieceId | wc-fomo-discount.php:351 | a trimmed piece's id is never above PHP_INT_MAX |
| Monolith.ValidateScopeIds | wc-fomo-discount.php:342-358 | returns the scope-id specification: '' for empty input, else the comma-join of the positive pieces in order |
| Monolith.CollectPositiveIds | wc-fomo-discount.php:350-355 | the loop collects exactly the positive trimmed ids, in order |
| Monolith.PositiveIdsOfStrings | wc-fomo-discount.php:347-357 | writing positive ids out as decimals and reading them back gives the same ids |
| Monolith.PositiveIdOfDecimal | wc-fomo-discount.php:351-352 | the decimal text of a positive id is read back as that id |
| Monolith.ScopeIdsIdempotent | wc-fomo-discount.php:342-358 | cleaning an already cleaned id list changes nothing |
| Monolith.FormInt | wc-fomo-discount.php:330 | an integer form field is within PHP_INT range |
| Monolith.FormRow | wc-fomo-discount.php:324-337 | the inserted row has `codes_remaining = total_codes`, status 'active' and no IP limit |
| Monolith.CreateCampaignFromForm | wc-fomo-discount.php:315-340 | with a good nonce and a working insert the form's row is added under the next id; otherwise nothing changes; the notice shows iff the nonce passed |
| Monolith.UnvalidatedFormCreatesDeadCampaign | wc-fomo-discount.php:330-331 | the form is not validated: total codes ≤ 0 creates a campaign nobody can claim from |
| Monolith.CountRecent | wc-fomo-discount.php:788-795 | the recent-attempt count never exceeds the claim rows |
| Monolith.CountRecentIsCardinality | wc-fomo-discount.php:788-795 | the count is the number of rows for that IP and campaign claimed within the last hour |
| Monolith.RateLimitMeaning | wc-fomo-discount.php:784-798 | rate-limited iff at least 5 such rows exist |
| Monolith.IsRateLimited | wc-fomo-discount.php:784-798 | a rate limit needs at least five claim rows in the table |
| Monolith.ProcessSpec | wc-fomo-discount.php:601-760 | "unavailable" iff the campaign is not available; success only for an available campaign with no outside fault other than a failed `verified_at` update, and then iff `expiry_hours` ≥ 0; no campaign is created or dropped; the waitlist and the number of verification records are kept |
| Monolith.ProcessDiscountClaim | wc-fomo-discount.php:601-760 | the new tables and the result are exactly the specification of `process_discount_claim` on the old tables |
| Monolith.ProcessSuccessEffect | wc-fomo-discount.php:625-699 | on success: one row appended carrying the passed `email_verified`; on the link path the record's code is used, and `verified_at` is set unless that unchecked update fails, when the records are unchanged; one decrement; the receipt reports `codes_remaining - 1` |
| Monolith.ProcessFailureUnchanged | wc-fomo-discount.php:609-708 | every failure (unavailable, coupon save, insert, decrement, exception) leaves the tables unchanged |
| Monolith.ProcessConserves | wc-fomo-discount.php:663-699 | codes left plus claim rows of every campaign is unchanged, and `codes_remaining` stays non-negative |
| Monolith.SendSpec | wc-fomo-discount.php:496-568 | only the verification table can change and no code is issued; a "sent" reply means exactly the new record was appended |
| Monolith.SendVerificationEmail | wc-fomo-discount.php:496-568 | the store and the reply are exactly `SendSpec` of the old tables |
| Monolith.AjaxClaimSpec | wc-fomo-discount.php:429-494 | a request refusal changes nothing; a code is issued only to a member and a verification sent only to a visitor; no campaign is created or dropped; the waitlist is kept |
| Monolith.AjaxClaimDiscount | wc-fomo-discount.php:429-494 | the store and the reply are exactly the claim-request specification of the old tables |
| Monolith.GuestRequestOnlyRecords | wc-fomo-discount.php:467-529 | a visitor's request at most appends one verification record: 64-hex token, "FOMO" code, 30-minute expiry, unverified, for an available campaign; `codes_remaining` is untouched |
| Monolith.GuestTouchesOnlyRecords | wc-fomo-discount.php:491-492 | a visitor's request leaves campaigns, claims and waitlist unchanged |
| Monolith.GuestRefusals | wc-fomo-discount.php:467-489 | a visitor is refused as duplicate iff a verified claim exists, and otherwise as pending iff an unverified, unexpired record exists |
| Monolith.SendNeverRefusesAsDuplicate | wc-fomo-discount.php:496-568 | the record step itself never answers duplicate or pending |
| Monolith.MemberClaimsVerified | wc-fomo-discount.php:461-465 | a logged-in member's successful claim appends a verified row, so the e-mail then counts as claimed |
| Monolith.UnsentMailStillBlocks | wc-fomo-discount.php:519-563 | when the mail fails the record stays, and it blocks new requests as pending for 30 minutes |
| Monolith.FindVerification | wc-fomo-discount.php:581-586 | finds the first record with that token and campaign and no `verified_at`; none iff there is no such record |
| Monolith.VerifyWithFlag | wc-fomo-discount.php:570-599 | an empty token or campaign id is refused as an invalid link; an unknown link and every refusal change nothing; an issued code appends exactly one row, keeps the others, and carries the passed `email_verified` and the receipt's code |
| Monolith.VerifyEmailAsWritten | wc-fomo-discount.php:570-599 | as written, a code issued by a link is stored with `email_verified = 0` |
| Monolith.VerifyEmailSpec | wc-fomo-discount.php:570-599 | corrected, a code issued by a link is stored with `email_verified = 1` |
| Monolith.AjaxVerifyEmail | wc-fomo-discount.php:570-599 | the store and the reply are exactly the (corrected) confirmation specification of the old tables |
| Monolith.VerifyLinkSingleUse | wc-fomo-discount.php:686-692 | after a token has issued a code and its record was marked, using it again is refused as used |
| Monolith.UnmarkedLinkClaimsAgain | wc-fomo-discount.php:686-710 | when the unchecked `verified_at` update fails the claim still commits, and the same token then issues the same code again and takes a second code from the pool |
| Monolith.AsWrittenVerifyKeepsEmailFresh | wc-fomo-discount.php:598 | as written, confirming stores `email_verified = 0`, so the e-mail never becomes a duplicate |
| Monolith.AsWrittenRepeatClaim | wc-fomo-discount.php:598 | as written, after a confirmed claim the same e-mail can start another verification |
| Monolith.VerifiedClaimBlocksRepeat | wc-fomo-discount.php:467-477 | with the confirmed e-mail recorded as verified, a later request for it is refused as duplicate |
| Monolith.MarkExpired | wc-fomo-discount.php:818-822 | the clean-up keeps the number of rows |
| Monolith.MarkExpiredRows | wc-fomo-discount.php:818-822 | exactly the rows past `expires_at` with `used_at` null get `used_at = now`; the others are kept |
| Monolith.MarkExpiredKeepsCounts | wc-fomo-discount.php:818-822 | clean-up changes only `used_at`, keeps every claim count (no code goes back to the pool) and is idempotent |
| Monolith.ExpiredCodes | wc-fomo-discount.php:804-815 | never more codes than claim rows |
| Monolith.ExpiredCodesMeaning | wc-fomo-discount.php:804-815 | the coupons looked up for deletion are exactly the codes of the expired unused claims |
| Monolith.CleanupExpiredCodes | wc-fomo-discount.php:800-823 | returns the expired unused codes whose coupons are deleted, and marks exactly those rows; nothing else changes |
| FrontendHandler.ShortcodeTarget | includes/frontend/class-frontend-handler.php:149-153 | uses `id`, falling back to `campaign_id`; nothing when both are 0 |
| FrontendHandler.WidgetFor | includes/frontend/class-frontend-handler.php:161-178 | the form is shown iff the campaign exists, is 'active' and has codes; "not found or inactive" iff it is missing or not active |
| FrontendHandler.RenderWidget | includes/frontend/class-frontend-handler.php:161-178 | renders `WidgetFor` of the campaign read through the cache; the cache afterwards is `CacheAfterLookup` of the id, as `get_campaign` leaves it |
| FrontendHandler.RenderShortcode | includes/frontend/class-frontend-handler.php:141-156 | the error markup with the cache unchanged when no id is given; else the widget for the chosen id, with the cache as `get_campaign` leaves it |
| FrontendHandler.NoFormWhenSoldOut | includes/frontend/class-frontend-handler.php:168-170 | a campaign with `codes_remaining ≤ 0` never shows the claim form |
| FrontendHandler.LinkRecord | includes/frontend/class-frontend-handler.php:278-293 | the record has a 32-character alphanumeric token, a 12-character "FOMO" code, a one-hour expiry and no `verified_at` |
| FrontendHandler.SendSpec | includes/frontend/class-frontend-handler.php:274-315 | campaigns, claims and waitlist are kept; a working insert appends exactly the link record, a failed one changes nothing |
| FrontendHandler.HandlerClaimSpec | includes/frontend/class-frontend-handler.php:183-242 | a failed nonce changes nothing; the tables change only for an accepted client IP; a code goes only to a member and a link only to a visitor; a visitor changes no campaign or claim; no campaign is created or dropped; the waitlist is kept; a refused member claim replies with the claim error's own text, the coupon exception's message included |
| FrontendHandler.HandlerClaimCache | includes/frontend/class-frontend-handler.php:183-242 | the cache after the request: unchanged on a failed nonce and whenever a member's request leaves the tables unchanged; a member's request can only drop the campaign's entry, and a visitor's only adds it through `get_campaign` |
| FrontendHandler.AjaxClaimDiscount | includes/frontend/class-frontend-handler.php:183-242 | the store, the error map and the reply are exactly the claim-routing specification for the range test in the environment, and the cache is `HandlerClaimCache` of the old state |
| FrontendHandler.SendVerificationEmail | includes/frontend/class-frontend-handler.php:274-315 | appends the link record iff the insert works; the campaign is not checked; the cache afterwards is `CacheAfterLookup` of the campaign id, as the subject's `get_campaign` leaves it |
| FrontendHandler.VisitorOnlyGetsLink | includes/frontend/class-frontend-handler.php:216-223 | a visitor's request changes no campaign or claim; at most the one link record is added, with a "sent" reply |
| FrontendHandler.VisitorNeedsValidEmail | includes/frontend/class-frontend-handler.php:204-207 | a visitor with an invalid e-mail changes nothing and gets the validator's message |
| FrontendHandler.MemberClaimsAtOnce | includes/frontend/class-frontend-handler.php:200-232 | a member's request is exactly a verified `claim_discount` with a fresh code; the code is issued iff the claim succeeds |
| FrontendHandler.EarlyRefusalsChangeNothing | includes/frontend/class-frontend-handler.php:186-197 | a failed nonce or a bad campaign id changes nothing and replies with an error |
| FrontendHandler.FindOpenRecord | includes/frontend/class-frontend-handler.php:329-333 | finds a record for that token and e-mail that is unverified and unexpired; none iff there is none |
| FrontendHandler.VerifySpec | includes/frontend/class-frontend-handler.php:320-353 | an empty token or e-mail dies as an invalid link with nothing changed; verification records and waitlist are kept; a quiet success appended one verified row for the link's e-mail; a refused claim dies with the claim error's own text, the coupon exception's message included |
| FrontendHandler.VerifyCache | includes/frontend/class-frontend-handler.php:320-353 | the cache after the request is unchanged whenever the tables are, and otherwise lacks only the entry of one stored link's campaign |
| FrontendHandler.AjaxVerifyEmail | includes/frontend/class-frontend-handler.php:320-353 | the store and the reply are exactly the verify specification, and the cache is `VerifyCache` of the old state |
| FrontendHandler.RepeatedVerifyRefused | includes/frontend/class-frontend-handler.php:339-346 | the record is never marked verified, but a second use of the link is still refused: expired, already claimed or unavailable |
| FrontendHandler.ClaimAppendsVerifiedRow | includes/core/class-campaign-manager.php:360-372 | a successful claim appends exactly its row and leaves the verification table |
| FrontendHandler.SecondClaimRefused | includes/core/class-campaign-manager.php:329-334 | after one verified claim the same e-mail's next claim is refused as already claimed, or as unavailable |
| FrontendHandler.WaitlistSpec | includes/frontend/class-frontend-handler.php:358-405 | only the waitlist can change |
| FrontendHandler.AjaxJoinWaitlist | includes/frontend/class-frontend-handler.php:358-405 | the store, error map and reply are exactly the waitlist specification |
| FrontendHandler.JoinKeepsWaitlistDistinct | includes/frontend/class-frontend-handler.php:372-391 | joining keeps (campaign, e-mail) pairs distinct and adds at most the one entry, with a success reply |
| FrontendHandler.JoinTwiceRefused | includes/frontend/class-frontend-handler.php:372-381 | after joining, the same pair is refused as already on the waitlist |
| AllocatorRuns.V2RequestShape | includes/frontend/class-frontend-handler.php:183-242 | a version-2 claim request either leaves campaigns and claims alone or is one `claim_discount` |
| AllocatorRuns.V2ConfirmShape | includes/frontend/class-frontend-handler.php:320-353 | a version-2 confirmation is a no-op or one `claim_discount` |
| AllocatorRuns.V1ConfirmShape | wc-fomo-discount.php:570-599 | a version-1 confirmation, with `email_verified` stored as written (0) or corrected (1), is a no-op or one `process_discount_claim` on a stored record |
| AllocatorRuns.ClaimKeeps | includes/core/class-campaign-manager.php:307-416 | one claim keeps remaining non-negative and conserves stock when the decrement holds |
| AllocatorRuns.V2RequestKeeps | includes/frontend/class-frontend-handler.php:183-242 | the same for a version-2 claim request |
| AllocatorRuns.V2ConfirmKeeps | includes/frontend/class-frontend-handler.php:320-353 | the same for a version-2 confirmation |
| AllocatorRuns.V1RequestKeeps | wc-fomo-discount.php:429-494 | the same for a version-1 claim request |
| AllocatorRuns.V1ConfirmKeeps | wc-fomo-discount.php:570-599 | the same for a version-1 confirmation, as written or corrected |
| AllocatorRuns.WaitlistKeeps | includes/frontend/class-frontend-handler.php:358-405 | joining the waitlist keeps every campaign's stock |
| AllocatorRuns.CleanupKeeps | wc-fomo-discount.php:800-823 | clean-up keeps every campaign's stock |
| AllocatorRuns.StepInvariant | includes/core/class-campaign-manager.php:317-327 | every kind of request keeps remaining non-negative and conserves stock when its decrement holds |
| AllocatorRuns.RunKeepsRemainingNonNegative | includes/core/class-campaign-manager.php:317-327 | over any run of requests no campaign's `codes_remaining` goes below zero |
| AllocatorRuns.RunConserves | includes/core/class-campaign-manager.php:360-384 | over any run whose decrements hold, codes left plus claim rows is constant per campaign |
| AllocatorRuns.RunNeverOversells | wc-fomo-discount.php:609-614 | over any such run, a campaign gains at most as many claim rows as it had codes left |
| DatabaseManager.BelowIrreflexive | includes/database/class-database-manager.php:69 | no version is below itself |
| DatabaseManager.BelowTransitive | includes/database/class-database-manager.php:89 | version order is transitive |
| DatabaseManager.MigrationsAscending | includes/database/class-database-manager.php:116-122 | the migrations are listed in strictly ascending order 1.0.0, 1.1.0, 2.0.0 |
| DatabaseManager.PrefixedName | includes/database/class-database-manager.php:56 | a table name starts with the prefix and ends with its key |
| DatabaseManager.TableMap | includes/database/class-database-manager.php:55-62 | the map has exactly the six keys, each naming its prefixed table |
| DatabaseManager.Creates | includes/database/class-database-manager.php:127-268 | an unknown version creates nothing |
| DatabaseManager.MigrateFrom | includes/database/class-database-manager.php:88-105 | never applies more migrations than listed; applying none keeps the version |
| DatabaseManager.MigrateEndsAtLast | includes/database/class-database-manager.php:93-96 | the final version is the last applied one, and every applied version is listed and did not fail |
| DatabaseManager.MigrateOnlyNewer | includes/database/class-database-manager.php:88-90 | only versions newer than the current one are applied, in strictly increasing order |
| DatabaseManager.MigrateMonotone | includes/database/class-database-manager.php:93-96 | the version never goes down |
| DatabaseManager.MigrateStopsAtFailure | includes/database/class-database-manager.php:97-103 | after the first newer migration that fails, nothing later is applied |
| DatabaseManager.FreshInstall | includes/database/class-database-manager.php:52 | from the missing-option default '0.0.0', with no failures, all three migrations run and the version ends at 2.0.0 |
| DatabaseManager.FreshInstallCreatesTables | includes/database/class-database-manager.php:127-243 | the three migrations together create all six tables |
| DatabaseManager.Manager.constructor | includes/database/class-database-manager.php:48-63 | the current version is the stored option or '0.0.0' |
| DatabaseManager.Manager.GetTable | includes/database/class-database-manager.php:320-322 | a prefixed name for the six known keys, and null for any other |
| DatabaseManager.Manager.AddIndex | includes/database/class-database-manager.php:291-312 | ALTER is issued iff the index is absent; afterwards it exists (repeated calls add it once) |
| DatabaseManager.Manager.RunMigration | includes/database/class-database-manager.php:93 | a migration adds exactly its tables and indexes |
| DatabaseManager.Manager.Migrate | includes/database/class-database-manager.php:82-109 | the version, the count applied, the schema and the stored option agree with `MigrateFrom` |
| DatabaseManager.Manager.ApplyMigration | includes/database/class-database-manager.php:93-96 | a success adds the migration's objects and records its version as stored and current |
| DatabaseManager.Manager.Init | includes/database/class-database-manager.php:68-77 | migrates iff the current version is below 2.0.0, ending with the version, schema and stored option of the migration loop; otherwise nothing changes |
| DatabaseManager.Manager.TablesExist | includes/database/class-database-manager.php:329-339 | true iff all six tables exist |
| Logger.Header | includes/core/class-logger.php:90-97 | a line starts with "[timestamp] [LEVEL]" (the level upper-cased) |
| Logger.FormatLine | includes/core/class-logger.php:90-101 | header then message; " \| Context: " + JSON is appended only for a non-empty context |
| Logger.FormattedLineMentionsLevel | includes/core/class-logger.php:90-97 | every formatted line contains "[level]" case-insensitively, so the level filter finds it |
| Logger.Survivors | includes/core/class-logger.php:223-228 | never more kept files than listed |
| Logger.Removed | includes/core/class-logger.php:223-228 | never more removed files than listed |
| Logger.CleanupMembers | includes/core/class-logger.php:223-228 | a file is kept iff it is listed and not older than the cutoff, and removed iff it is listed and older |
| Logger.CleanupPartitions | includes/core/class-logger.php:223-228 | kept and removed files together account for every listed file |
| Logger.CleanupIdempotent | includes/core/class-logger.php:212-229 | a second clean-up with the same cutoff removes nothing |
| Logger.MonthOldLogRemoved | includes/core/class-logger.php:221-228 | with the 30-day default, a file last modified 35 days ago is removed and one modified now is kept, whatever date its name carries |
| Logger.NewestFirst | includes/core/class-logger.php:188-189 | the reversed lines without empty ones: never longer than the lines read, and holding exactly the non-empty ones |
| Logger.StripCr | includes/core/class-logger.php:188 | `FILE_IGNORE_NEW_LINES` removes at most one carriage return at the end of a line, and leaves a plain line alone |
| Logger.EntryLines | includes/core/class-logger.php:188 | an entry written with `PHP_EOL` reads back as one or more lines, none holding a newline; a plain entry reads back as itself |
| Logger.ReadLines | includes/core/class-logger.php:188 | `file()` gives at least one line per entry, none holding a newline |
| Logger.PlainEntriesReadBack | includes/core/class-logger.php:188 | entries without newlines read back one line each, unchanged |
| Logger.MultiLineMessage | includes/core/class-logger.php:89-202 | a message holding a newline reads back as two lines, the second without the header; with limit 1 only that bare line is returned, and a level filter drops it |
| Logger.TwoLineEntry | includes/core/class-logger.php:188 | two plain lines written as one entry read back as those two lines |
| Logger.TwoLineFilter | includes/core/class-logger.php:189-202 | newest first the bare line comes first, and a level it does not mention filters it out |
| Logger.Matching | includes/core/class-logger.php:192-195 | the filter never returns more lines than it was given |
| Logger.MatchingMembers | includes/core/class-logger.php:193 | a line passes iff it contains "[level]" case-insensitively (every line when no level is given) |
| Logger.Quota | includes/core/class-logger.php:199-201 | the loop stops after `limit` lines, and after one line when `limit ≤ 0` |
| Logger.RecentSpec | includes/core/class-logger.php:183-205 | a missing file gives []; never more lines than the quota; the lines are those `file()` reads back from the written entries |
| Logger.RecentMembers | includes/core/class-logger.php:188-198 | every returned line is a non-empty line read back from the file, holds no newline, and passes the level filter |
| Logger.RecentIsNewestPrefix | includes/core/class-logger.php:189-202 | the result is the newest-first filtered lines cut at the quota |
| Logger.Log.constructor | includes/core/class-logger.php:48-61 | a new logger has no timers and points at today's file as earlier requests left it |
| Logger.Log.Log | includes/core/class-logger.php:70-113 | one entry is appended iff its level is not debug or debug mode is on (a message with newlines reads back as several lines, see `MultiLineMessage`); nothing else in the file changes; error and critical lines also go to the debug log with "[WCFD] " |
| Logger.Log.StartTimer | includes/core/class-logger.php:143-148 | the operation's timer is (re)set; nothing else changes |
| Logger.Log.EndTimer | includes/core/class-logger.php:155-174 | an unknown operation changes nothing; otherwise its timer is removed and, in debug mode, a "Performance: " line is written |
| Logger.Log.GetRecentLogs | includes/core/class-logger.php:183-205 | the loop returns exactly `RecentSpec` of the file |
| Logger.Log.CleanupOldLogs | includes/core/class-logger.php:212-229 | without the directory nothing changes; otherwise exactly the files older than the cutoff are deleted and one "Deleted old log file" line is logged for each, in order |
| Logger.Log.CleanupStep | includes/core/class-logger.php:224-227 | one loop turn extends the kept and removed prefixes by one file |
| Logger.Log.LogRemoval | includes/core/class-logger.php:226 | appends exactly one removal line |
| Logger.RemovalLines | includes/core/class-logger.php:226 | one line per removed file |
| PerformanceMonitor.LastN | includes/utils/class-performance-monitor.php:275 | `array_slice(…, -100)`: the last min(n, length) entries |
| PerformanceMonitor.Record | includes/utils/class-performance-monitor.php:267-276 | the history stays at most 100 long and ends with the new entry |
| PerformanceMonitor.RecordKeepsNewest | includes/utils/class-performance-monitor.php:268-275 | below the cap the entry is appended; at the cap the oldest is dropped |
| PerformanceMonitor.LastNAppend | includes/utils/class-performance-monitor.php:275 | trimming after each append equals trimming once at the end |
| PerformanceMonitor.History | includes/utils/class-performance-monitor.php:263-277 | recording a list of entries one by one keeps at most 100 |
| PerformanceMonitor.HistoryIsNewest | includes/utils/class-performance-monitor.php:263-277 | the history after any number of requests is exactly the newest 100 |
| PerformanceMonitor.Measure | includes/utils/class-performance-monitor.php:168-172 | duration and memory used are the differences from the timer's start |
| PerformanceMonitor.Warnings | includes/utils/class-performance-monitor.php:183-193 | a slow warning iff the duration exceeds its threshold, a memory warning iff memory exceeds its threshold, slow first |
| PerformanceMonitor.Monitor.constructor | includes/utils/class-performance-monitor.php:60-68 | no timers or snapshots; the stored history is kept, cut to the newest 100 only to establish the monitor's invariant |
| PerformanceMonitor.Monitor.SetMonitoringEnabled | includes/utils/class-performance-monitor.php:373-379 | sets the flag and nothing else |
| PerformanceMonitor.Monitor.IsMonitoringEnabled | includes/utils/class-performance-monitor.php:386-388 | returns the flag |
| PerformanceMonitor.Monitor.StartTimer | includes/utils/class-performance-monitor.php:139-151 | with monitoring off nothing changes; otherwise the named timer is (re)set |
| PerformanceMonitor.Monitor.EndTimer | includes/utils/class-performance-monitor.php:159-199 | off or unknown name: nothing changes; otherwise the timer is removed, its metrics returned, the warnings raised and a metric row stored iff recording is on |
| PerformanceMonitor.Monitor.StartRequestMonitoring | includes/utils/class-performance-monitor.php:87-101 | with monitoring on, starts 'full_request' and snapshots memory and the query count |
| PerformanceMonitor.Monitor.RecordRequestMetrics | includes/utils/class-performance-monitor.php:263-277 | appends one entry and keeps the newest 100 |
| PerformanceMonitor.Monitor.EndRequestMonitoring | includes/utils/class-performance-monitor.php:106-279 | nothing happens unless monitoring is on and 'full_request' exists (no warning, no performance row); otherwise the timer is closed with `end_timer`'s warnings and performance row, and one entry is recorded with the query and memory deltas, the larger peak, and `time()`: the whole second the millisecond clock falls in |
| Autoloader.Basename | includes/autoloader.php:29 | `basename`: a separator-free suffix of the path |
| Autoloader.Dirname | includes/autoloader.php:30 | `dirname` of a path without a separator is '.' |
| Autoloader.SplitJoin | includes/autoloader.php:29-30 | directory, separator and base name rebuild the path |
| Autoloader.RelativePath | includes/autoloader.php:23-26 | the relative path has no backslash left |
| Autoloader.FileName | includes/autoloader.php:29 | "class-" + base name with no '_' and no capitals + ".php" |
| Autoloader.Directory | includes/autoloader.php:30-43 | a mapped namespace gives its table entry; any directory comes out without capitals, an unmapped one keeping its length |
| Autoloader.IncludePath | includes/autoloader.php:46 | the path starts with "includes/" and ends with ".php" |
| Autoloader.Autoload | includes/autoloader.php:16-51 | a class outside `WCFD\` is ignored; otherwise the path is computed and required iff the file exists |
| Autoloader.NamespacedClassPath | includes/autoloader.php:23-46 | `WCFD\<Ns>\<Base>` maps to includes/<mapped ns>/class-<lower base, '_'→'-'>.php |
| Autoloader.ClassFile | includes/autoloader.php:29-46 | the same path, stated with the expected file stem |
| Autoloader.CampaignManagerFile | includes/class-wc-fomo-discount.php:116 | worked instance of `NamespacedClassPath`: the autoloader resolves `WCFD\Core\Campaign_Manager` to the file the bootstrap requires by hand |
| Autoloader.LoggerFile | includes/class-wc-fomo-discount.php:114 | worked instance: `WCFD\Core\Logger` resolves to the file the bootstrap requires by hand |
| Autoloader.ValidatorFile | includes/class-wc-fomo-discount.php:115 | worked instance: `WCFD\Core\Validator` resolves to the file the bootstrap requires by hand |
| Autoloader.DatabaseManagerFile | includes/class-wc-fomo-discount.php:119 | worked instance: `WCFD\Database\Database_Manager` resolves to the file the bootstrap requires by hand |
| FrontendScript.EmailIffPattern | assets/frontend.js:307-310 | `validateEmail` holds iff: no whitespace, exactly one '@', a non-empty local part, and a domain with a '.' that has a character on each side |
| FrontendScript.EmailRejects | assets/frontend.js:308 | whitespace, an '@' count other than one, or a leading '@' is rejected |
| FrontendScript.EmailExamples | assets/frontend.js:308 | "a@b.c" matches, "a@bc" does not |
| FrontendScript.SplitRemaining | assets/frontend.js:320-321 | hours and minutes (< 60) floor the remaining milliseconds; 'Expired' iff diff ≤ 0 |
| FrontendScript.SplitUnique | assets/frontend.js:320-321 | these are the only hours and minutes that fit the difference |
| FrontendScript.FormatRemaining | assets/frontend.js:316-327 | exactly "Expired" when expired; exactly "H hours, M minutes" when hours > 0; else exactly "M minutes" |
| FrontendScript.TimeRemaining | assets/frontend.js:312-328 | "Expired" iff the expiry is not in the future |
| FrontendScript.JsTrim | assets/frontend.js:165 | `trim()` returns the slice of the input between two runs of JavaScript whitespace, with no whitespace at either end |
| FrontendScript.JsTrimStart | assets/frontend.js:165 | a suffix of the input, beginning with a non-space, after a run of whitespace |
| FrontendScript.JsTrimEnd | assets/frontend.js:165 | a prefix of the input, ending with a non-space, before a run of whitespace |
| FrontendScript.JsTrimOfPadded | assets/frontend.js:165 | trimming a text with non-space ends between whitespace runs gives the text back |
| FrontendScript.JsTrimOfSpaces | assets/frontend.js:165 | trimming whitespace alone gives the empty text |
| FrontendScript.JsTrimStartPadded | assets/frontend.js:165 | the leading trim removes exactly a whitespace prefix before a non-space |
| FrontendScript.JsTrimEndPadded | assets/frontend.js:165 | the trailing trim removes exactly a whitespace suffix after a non-space |
| FrontendScript.CheckClaim | assets/frontend.js:162-179 | sends iff there is no e-mail field or its trimmed value is a valid e-mail; refuses an empty value with "Please enter your email address", an invalid one with "Please enter a valid email address" |
| FrontendScript.SentEmailValid | assets/frontend.js:167-173 | an e-mail that is sent always matches the script's own pattern |
| FrontendScript.CheckPending | assets/frontend.js:448-482 | no pending coupon iff either key is missing; discarded iff older than 24 hours; applied only on cart or checkout |
| FrontendScript.FreshCouponSurvives | assets/frontend.js:460-481 | a coupon at most 24 hours old is applied on cart or checkout and kept elsewhere |
| FrontendScript.Poller.constructor | assets/frontend.js:79-87 | polling does not start if the claim already succeeded or the waitlist form is shown |
| FrontendScript.Poller.Tick | assets/frontend.js:90-101 | a skipped tick (stopped or in flight) changes nothing; otherwise `pollCount` goes up by one and the interval is cleared exactly when it passes 20; a request is sent iff polling runs, none is in flight and fewer than 20 were sent by this `startRealtimeUpdates` call; one call never sends more than 20 |
| FrontendScript.Poller.Complete | assets/frontend.js:118-120 | the in-flight flag is cleared; nothing else changes |
| FrontendScript.Poller.Stop | assets/frontend.js:47-49 | a claim click stops polling and changes no counter |

## Left out

- Database and WordPress plumbing: SQL is replaced by in-memory tables. Nonces, hooks, shortcode registration, transients, `wp_send_json_*`, `wp_die`, redirects and mail bodies are reduced to a reply value or a nonce flag.
- Concurrency: the `FOR UPDATE` row lock is represented only by making each claim one atomic method; interleavings are not modelled.
- Randomness, the clock and the outside world are inputs. This covers `random_bytes`, `wp_generate_password`, `NOW()`, `DateTime`, the coupon `save()`, the inserts, the checked `codes_remaining` updates, the version-1 `verified_at` update, `wp_mail`, and exceptions. Generated codes and tokens are not proved unique.
- WordPress and PHP predicates stay abstract: `is_email`, the sanitizers, `FILTER_VALIDATE_IP`, `preg_match`, `json_encode`, `wc_price`, `file_exists` and `version_compare` (versions are number sequences compared lexicographically). `checkdnsrr` is left out because its filter is off by default.
- Floating point: discount values are `real`, and `floatval` parsing is not modelled. Performance durations are integer milliseconds, and the MB rounding is left out.
- WooCommerce coupon contents (type, amount, limits, scope ids) are not modelled; only the save's success or failure, and the deletion of expired coupons, which are returned as a list.
- Logger I/O: the file and directory are values; `do_action`, the user id and IP fields of a line, and the `debug`/`info`/`warning`/`error`/`critical` wrappers are not separate members. The file holds the written entries, one per `log` call; `get_recent_logs` reads them back split at '\n' as `file()` does, with `auto_detect_line_endings` off, so a lone '\r' never ends a line.
- The monitor's debug and info lines to the logger are not modelled.
- `monitor_query`, `get_performance_stats`, `get_slowest_operations` and `cleanup_old_data` are left out because they are SQL reporting queries. `get_current_page` is a parameter. The transient's one-hour TTL is left out. `init_hooks` is left out because it only registers hooks.
- Autoloader.Basename: does not strip trailing or doubled slashes, because class names never contain them. `DIRECTORY_SEPARATOR` is '/'.
- Browser script: the DOM, AJAX, clipboard and local-storage calls are left out; `parseInt` is a parameter. `updateCounter`'s own `clearInterval` and the expiry-date parsing are not modelled.
- FrontendScript.Poller: models one `startRealtimeUpdates` call, not the widget. Each `focus` or `keydown` in the e-mail field (assets/frontend.js:55-67) schedules its own restart 30 seconds later, and `updateIntervals[campaignId]` stays set after `clearInterval`, so n keystrokes start n further pollers with their own 20-request budgets. The claim click (assets/frontend.js:47-49) and the 21st tick clear only the interval stored last. The set of concurrent pollers is not modelled.
- An exception from a `wcfd_discount_claimed` hook reaches the `catch` after COMMIT: the ROLLBACK there undoes nothing, so the claim and the decrement stay while the caller is told the claim failed. This is modelled as the `HookThrows` input.
- Verification links: the mailed link is `home_url()` with the `wcfd_verify` and campaign or e-mail query arguments and no `action` (wc-fomo-discount.php:536-539, includes/frontend/class-frontend-handler.php:296-299). Both `ajax_verify_email` handlers are registered only as the `wcfd_verify_email` AJAX action (wc-fomo-discount.php:49-50, includes/frontend/class-frontend-handler.php:63-64), and none of the plugin files modelled here routes a `?wcfd_verify=` request to them. Following the link as mailed therefore does not run the handler. `Monolith.VerifyWithFlag`, `Monolith.AjaxVerifyEmail`, `FrontendHandler.VerifySpec` and `FrontendHandler.AjaxVerifyEmail` model the handler for a request sent to admin-ajax.php with that action; the routing is not modelled.
- CampaignManager.UpdateCampaign: the `log_audit('campaign_updated', …)` row written to the audit_log table (includes/core/class-campaign-manager.php:206, 567-584), the logger lines and the `wcfd_campaign_updated` hook are not modelled; the audit table is not part of the in-memory store.
- CampaignManager.IntervalErrorMessage: the text is the `DateInterval` exception message of PHP 8.3 and later; earlier versions prefix it with "DateInterval::__construct(): ". The exception `claim_discount`'s own `DateInterval` could throw (includes/core/class-campaign-manager.php:357) is never reached, because the coupon's throws first.
- `update_campaign` is not among the steps of `AllocatorRuns`, because an admin update may write any `codes_remaining`.
- `strtotime("-N days")` is taken as N × 86400 seconds; daylight-saving shifts are not modelled.
- Php.Intval: reads only a leading decimal integer. PHP 7.1+ also reads exponent forms, so "1e3" is 1000 in PHP and 1 here. This reaches the campaign id, the scope ids and the shortcode id.
- Validation.CidrEntryMatch: the mask is read with `intval`, so "24.9" is 24 and "1e1" is 1. PHP's own arithmetic in `32 - $mask` uses the numeric string, so it shifts by 7.1 truncated to 7, or by 22. Fractional and exponent masks are not modelled.
- CampaignManager.HasClaimedCode: compares e-mails exactly. MySQL compares them under the tables' collation, which comes from `get_charset_collate()` (includes/database/class-database-manager.php:129) and on a standard WordPress install is a case-insensitive `_ci` one, so "A@x.com" and "a@x.com" are the same e-mail there and different here. The same holds for the version-1 duplicate and pending queries (wc-fomo-discount.php:470, 482), for `FrontendHandler.FindOpenRecord` and for the waitlist check.
- CampaignManager.GetIpClaimCount: compares IP texts exactly; under a `_ci` collation this differs only in the case of IPv6 hex digits, which the model keeps distinct.
- `dbDelta` errors are only logged by the source, so a migration's SQL is modelled as always creating its objects. A migration that throws is an input.
- `get_campaign_status` (both versions) and `get_active_campaigns` are read-only queries outside the allocator; they are not modelled.
- The admin screens, updater, bootstrap wiring, uninstaller and unit-test scaffolding are not part of this model.

## Findings

| source | as written | input that shows it | evidently intended | confidence | as-written member | corrected member |
|---|---|---|---|---|---|---|
| wc-fomo-discount.php:598 | `ajax_verify_email` passes `$email_verified = false`, so the confirmed claim is stored with `email_verified = 0`. The duplicate guard at wc-fomo-discount.php:468-477 only counts rows with `email_verified = 1`. | A visitor's record is confirmed through the `wcfd_verify_email` AJAX action and a code is issued. The same e-mail then posts the claim form again after the link's record is used. No verified row exists, so a new verification is sent and a second code can be taken. | A confirmed e-mail is stored as verified, so a repeat request is refused as a duplicate. | not executed | Monolith.AsWrittenRepeatClaim | Monolith.VerifiedClaimBlocksRepeat |
| includes/core/class-validator.php:321-327 | `ip2long` returns `false` for IPv6 on both sides, and `false & mask` equals `false & mask`. So every IPv6 client lies in every IPv6 CIDR entry with mask ≤ 32. | Ban list ["2001:db8::/32"]; the client fe80::1 is reported as banned. The handlers take the range test from their environment, so both versions are modelled through to the claim. | Only IPv4 addresses are compared by mask; an unreadable address is never in range. | not executed | Validation.Ipv6BanCoversAllIpv6, Validation.Ipv6ClientBannedAsWritten | Validation.Ipv6NotInRange, Validation.Ipv6OnlyExactBan, Validation.ScansAgreeOnReadable |
