# Share-progress engine of the giveaway page, modelled in Dafny

The page lets a player fill in a form, share a referral message, and report
each share with the name of the group it went to. Two counters track the
shares: the total number of shares (capped at 18) and the set of distinct
group names (capped at 8). A rate gate ignores reports less than 5 seconds
after the last counted one. Once both counters are at their caps, a membership
key of the form `FF-XXXX-XXXX-XXXX-XXXX` is generated, once only. The record
is kept in local storage as two blobs (form/meta and share progress), and every
save of a record holding a key upserts a summary into a submissions log keyed
by the record's id.

This project models that engine in `script.js`:

- `share_rules.dfy` (module `ShareRules`): the share rules as pure functions:
  the rate gate, label normalisation, the two counters, the rejection reasons,
  the unlock predicate and the two debug increments. Lemmas state the rules'
  properties.
- `key_gen.dfy` (module `KeyGen`): `generateKey` as the nested loops of the
  source, proved equal to a specification function. Also the shape of every key
  and the one-time unlock rule.
- `submission_log.dfy` (module `SubmissionLog`): the log upsert by id and its
  properties (replace or append, others untouched, idempotence).
- `store.dfy` (module `Store`): the record, the two blobs, `loadData` as a
  function, what `saveData` leaves in storage, and the save/load round trip.
- `giveaway.dfy` (module `Giveaway`): class `Session`, the global record and
  local storage as one object. Its methods do the work field by field as the
  source does, and their postconditions tie each new state to the pure rules.
- `form_checks.dfy` (module `FormChecks`): the six checks of `validateForm`,
  each reporting its own error.
- `text.dfy` (module `Text`) and `wrappers.dfy` (module `Wrappers`): JavaScript
  `trim`, `toLowerCase` and truthiness, and an `Option` type for `null`.

The clock (`Date.now()`) and the random bytes (`crypto.getRandomValues`) are
parameters: `now` in milliseconds, and sixteen bytes per key.

Where the documentation and the code disagree, the model follows the code:

- The doc comment of `generateKey` (script.js:437) gives the format
  `FF-XXXX-XXXX-XXXX`. The code sets `segments = 4` (script.js:441), so a key
  is `FF-` plus four segments, 22 characters in all.
- `JSON.parse` of a corrupt blob throws (script.js:54, 68, 139). No recovery to
  defaults exists, so none is modelled.
- `loadData` copies the stored counters without checking the caps. So the caps
  hold after a load only when the stored blob respects them, as every blob
  `saveData` writes from a capped record does. The lemmas state the caps as
  preserved (`Bounded(p) ==> Bounded(...)`), not as unconditional.
- The unlock test is `>=` on both counters (script.js:425). Within the caps
  this means "exactly at both caps" (`ShareRules.UnlockedMeansAtCaps`).

## Model

| member | source | states |
|---|---|---|
| `Text.Trim` | script.js:342 | a trimmed string is never longer than the input and has no JavaScript whitespace at either end |
| `Text.TrimPadded` | script.js:342 | trimming whitespace padding off an unpadded string gives back exactly that string |
| `Text.TrimIgnoresPadding` | script.js:342 | extra whitespace around any string does not change what it trims to |
| `Text.TrimIdempotent` | script.js:342 | trimming a trimmed string changes nothing |
| `Text.ToLower` | script.js:342 | lower-casing keeps the length and the whitespace positions, leaves no ASCII capital, and leaves a string without capitals unchanged |
| `Text.Truthy` | script.js:105 | a string-or-null value is falsy exactly when it is `null` or the empty string |
| `Text.NumberString` | script.js:655 | a number's text is non-empty, starts with a minus sign exactly when the number is negative, and is otherwise made of decimal digits, ending in one |
| `Text.DecimalStringValue` | script.js:655 | the decimal digits written for a natural number read back, most significant first, as that number |
| `Text.NumberStringValue` | script.js:655 | a number's text reads back as the number itself (minus sign, then digits), so distinct numbers have distinct texts |
| `ShareRules.NormalizeGroup` | script.js:342 | a normalised label is no longer than the raw label, has no whitespace at either end and has no capital letter |
| `ShareRules.CountsAsUnique` | script.js:345-346 | a label that counts as a new group grows the group set by exactly one, and the set stays within the cap of 8 |
| `ShareRules.IsUnlocked` | script.js:425 | once the unlock condition holds, no label can count as a new group |
| `ShareRules.ShareStep` | script.js:331-371 | an attempt is rate-limited exactly when less than 5000 ms have passed since the last counted share; a rejected attempt changes nothing; a counted one commits `now` as the timestamp; neither counter decreases; capped counters stay within their caps |
| `ShareRules.TotalCountsEveryAttempt` | script.js:352-356 | past the rate gate, an attempt below 18 shares is counted and adds exactly one share, whether its label is new, a repeat or blank; at 18 the total stays put |
| `ShareRules.GroupsGainOnlyNewLabels` | script.js:341-350 | the group set gains the trimmed, lower-cased label exactly when that label is non-empty, not yet present and the set has fewer than 8 members; otherwise it is unchanged |
| `ShareRules.CountedIffCounterMoved` | script.js:358-360 | an attempt is reported counted (and its timestamp committed) exactly when the total or the group set changed |
| `ShareRules.RejectionReason` | script.js:365-370 | an uncounted attempt past the gate reports "already met" exactly when both requirements are met, and "duplicate or capped" exactly when they are not |
| `ShareRules.TooSoonAfterCountIsRejected` | script.js:334-338 | an attempt less than 5000 ms after a counted one is rate-limited and leaves the progress unchanged |
| `ShareRules.UnlockedMeansAtCaps` | script.js:425 | within the caps, the unlock condition holds exactly when the total is 18 and there are 8 groups |
| `ShareRules.UnlockedAttemptsAreAlreadyMet` | script.js:365-366 | once unlocked, every attempt past the rate gate reports "already met" and changes nothing |
| `ShareRules.CaseIsFolded` | script.js:342 | labels that differ only in the case of ASCII letters normalise to the same group |
| `ShareRules.PaddingIsIgnored` | script.js:342 | whitespace added around a label does not change the group it normalises to |
| `ShareRules.FoldedRepeatCountsOnlyTowardTotal` | script.js:342-356 | a label that equals a counted group after case and whitespace folding leaves the group set unchanged but still adds a share below the cap |
| `ShareRules.RunSharesStaysBounded` | script.js:331-371 | no sequence of share attempts takes either counter past its cap, and neither counter ever decreases |
| `ShareRules.RunShares` | script.js:331-371 | after a run of attempts, the last-share time is either the starting one or the time of one of the attempts |
| `ShareRules.ShareStepKeepsNormalGroups` | script.js:342-347 | a share attempt keeps every tracked group a non-empty label in normal form (trimmed, no capitals) |
| `ShareRules.RunSharesKeepsNormalGroups` | script.js:331-371 | after any run of share attempts from such a state, every tracked group is still a non-empty label in normal form |
| `ShareRules.DebugShareStep` | script.js:642-649 | the debug share button keeps the total within its cap and touches neither the groups nor the timestamp |
| `ShareRules.DebugGroupStep` | script.js:651-659 | the debug group button keeps the group set within its cap and touches neither the total nor the timestamp |
| `ShareRules.DebugGroupLabel` | script.js:655 | the debug label `debug-group-<now>` is already normalised: trimming and lower-casing leave it unchanged |
| `ShareRules.DebugGroupLabelInjective` | script.js:654-655 | two debug labels are equal only for equal clock readings: each press at a new time names a new group |
| `ShareRules.NormalLabel` | script.js:342 | a label with no surrounding whitespace and no capital letter is left unchanged by normalisation |
| `ShareRules.DebugBypassesRateGate` | script.js:642-659 | where a real attempt would be rate-limited, the debug buttons still add a share and a `debug-group-<now>` group below the caps |
| `ShareRules.DebugMatchesRealShare` | script.js:642-659 | with the rate gate open, the debug share button leaves the total where any real share would (one more below 18, unchanged at 18), and the debug group button leaves the group set where a real share naming `debug-group-<now>` would (added below 8 groups when new, otherwise unchanged) |
| `ShareRules.DebugGroupStepKeepsNormalGroups` | script.js:655 | the debug group button keeps every tracked group a non-empty label in normal form |
| `KeyGen.CharFor` | script.js:454 | the character chosen for any byte is a capital letter or a digit |
| `KeyGen.Segment` | script.js:453-455 | a segment has one character per random byte, the byte's character `chars[b % 36]`, in order |
| `KeyGen.JoinedLength` | script.js:465-468 | `n` joined segments are empty when `n` is 0 and otherwise take `5n - 1` characters (four per segment plus the dashes between them) |
| `KeyGen.KeyFor` | script.js:440-471 | a generated key is 22 characters long and starts with `FF-` |
| `KeyGen.JoinedSegments` | script.js:465-468 | the four joined segments are the segments of bytes 0-3, 4-7, 8-11 and 12-15 with a dash between neighbours |
| `KeyGen.JoinedStep` | script.js:465-468 | one pass of the outer loop turns the key built from `i` segments into the key built from `i + 1` segments |
| `KeyGen.KeySoFarComplete` | script.js:465-470 | after the fourth pass the key built so far is the whole key, which has the key shape |
| `KeyGen.KeyForSegments` | script.js:444-468 | a key is `FF-` and four dash-separated segments made from bytes 0-3, 4-7, 8-11 and 12-15 |
| `KeyGen.KeyForShape` | script.js:440-471 | every key is 22 characters: `FF-`, dashes at positions 7, 12 and 17, and an `A-Z0-9` character everywhere else; each segment is the characters of its four bytes |
| `KeyGen.GenerateSegment` | script.js:447-463 | the inner loop builds exactly the segment of its bytes |
| `KeyGen.GenerateKey` | script.js:440-471 | the nested loops build exactly the key of the sixteen bytes, which has the key shape |
| `KeyGen.KeyAfterUnlock` | script.js:477-481 | after unlocking the key is always truthy; a truthy key is kept; a null or empty key is replaced by a freshly generated, well-shaped key |
| `KeyGen.UnlockIsIdempotent` | script.js:476-481 | unlocking again, with any random bytes, never regenerates the key |
| `SubmissionLog.IndexOfId` | script.js:142 | the result is -1 exactly when no entry carries the id, and otherwise the first index whose entry does |
| `SubmissionLog.Upserted` | script.js:153-159 | the upserted log holds the new entry, is at most one entry longer than the old one, and keeps every entry with another id |
| `SubmissionLog.UpsertReplacesOrAppends` | script.js:153-159 | an id already logged has its entry replaced in place with the length kept; a new id gets exactly one entry appended; every other entry is untouched |
| `SubmissionLog.UpsertIsFound` | script.js:142-159 | after an upsert, looking the id up finds the new entry, at its old index or at the end |
| `SubmissionLog.UpsertLastWriteWins` | script.js:142-159 | a second upsert with the same id overrides the first |
| `SubmissionLog.UpsertIdempotent` | script.js:476-493 | upserting the same entry twice, as `saveData` and then `unlockMembershipKey` do, gives the same log as upserting it once |
| `SubmissionLog.UpsertKeepsIdsUnique` | script.js:138-165 | a log without repeated ids keeps that property under upserts |
| `Store.ArrayFrom` | script.js:99 | the saved array holds every group of the set exactly once |
| `Store.InitialSubmission` | script.js:23-38 | the starting record is within the caps, not unlocked, tracks only normal-form groups (none), holds no key and is stamped with the current time |
| `Store.FormBlobOf` | script.js:82-92 | the form blob carries every field but the share data: copying it back onto the record changes nothing |
| `Store.LogEntryOf` | script.js:143-151 | the log entry carries the record's id and key, and a capped record logs counts within the caps |
| `Store.ProgressFromBlob` | script.js:69-72 | the loaded group set holds exactly the groups of the stored array and is never larger than it |
| `Store.Loaded` | script.js:48-74 | a stored form blob is restored field for field; without one, the form fields are kept; without a share blob, the share data is kept |
| `Store.SavedFrom` | script.js:80-108 | storage that `saveData` wrote for a record loads back as that record |
| `Store.SaveLoadRoundTrip` | script.js:48-108 | loading what `saveData` wrote restores the whole record: identity, wallet, key, total, group contents and timestamps, whatever record the page started from |
| `Store.MissingShareFieldsDefault` | script.js:69-72 | each field missing from a stored share blob loads as its own default (0 shares, no groups, a 0 timestamp), whatever the other fields hold |
| `Store.LoadWithoutBlobsKeepsRecord` | script.js:48-74 | with neither blob stored, loading leaves the record as it was |
| `Store.LoadCollapsesRepeatedGroups` | script.js:71 | a stored array in which any two positions hold the same group loads as a set smaller than the array |
| `Store.SaveWithoutKeyLeavesLog` | script.js:104-107 | saving a record with a null or empty key leaves the submissions log as it was |
| `Store.SaveTwiceSameLog` | script.js:80-108 | saving the same record twice leaves the same log and form blob as saving it once |
| `Store.LoggedCountMatchesStoredArray` | script.js:96-165 | the log entry's group count equals the length of the array the share blob stores |
| `Giveaway.Session.constructor` | script.js:23-38 | the record starts empty: no identity, wallet 0 in LKR, no shares, no groups, timestamp 0, no key, created at `now` |
| `Giveaway.Session.LoadData` | script.js:48-74 | the record becomes `Loaded` of the old record and storage; storage is not changed |
| `Giveaway.Session.SaveData` | script.js:80-108 | both blobs are rewritten from the record, and the log is upserted only when the record holds a key |
| `Giveaway.Session.UpdateSubmissionLog` | script.js:138-165 | storage changes only in the submissions log, which becomes the upsert of this record's summary into the stored log (an empty log when none is stored) |
| `Giveaway.Session.UnlockMembershipKey` | script.js:476-493 | the key is generated and saved only when none is held; the rest of the record is unchanged; the log holds the record's summary afterwards in both cases |
| `Giveaway.Session.UpdateProgress` | script.js:424-427 | the unlock runs only when there are at least 8 groups and 18 shares; otherwise nothing changes |
| `Giveaway.Session.SaveAndUpdateProgress` | script.js:360-361 | a save followed by the unlock check leaves storage exactly as one save of the final record |
| `Giveaway.Session.CountShare` | script.js:340-356 | the group set gains the label exactly when it counts as a new group (non-empty, absent, below 8), and the total gains one exactly when it is below 18; each is reported independently |
| `Giveaway.Session.CommitShare` | script.js:358-361 | a counted attempt commits its time as the last share time, saves the whole record and runs the unlock check; nothing else in the record changes |
| `Giveaway.Session.IncrementShare` | script.js:331-371 | the progress and outcome are those of `ShareStep`; identity fields never change; a rejected attempt changes neither storage nor key; a counted one saves the record and unlocks if the requirements are now met |
| `Giveaway.Session.DebugShare` | script.js:642-649 | below 18 shares, one share is added with no rate gate, then the record is saved and the unlock check runs; at the cap nothing changes |
| `Giveaway.Session.DebugGroup` | script.js:651-659 | below 8 groups, `debug-group-<now>` is added with no rate gate or normalisation, then the record is saved and the unlock check runs; at the cap nothing changes |
| `Giveaway.Reload` | script.js:604-605 | a page that saves its record and a new page that loads the same storage end up with equal records |
| `FormChecks.PaddedPlayerIdAccepted` | script.js:183-194 | six to twelve digits are accepted as a player id whatever whitespace surrounds them |
| `FormChecks.WellFormedIdHasNoError` | script.js:190-194 | a trimmed id of six to twelve digits raises no player-id error |
| `FormChecks.NonDigitPlayerIdRejected` | script.js:190-194 | a trimmed id with any non-digit is rejected and the form fails |
| `FormChecks.BlankNameRejected` | script.js:184-200 | a name made only of whitespace is reported missing and the form fails |
| `FormChecks.IsPlayerId` | script.js:191 | an id matching `^\d{6,12}$` is non-empty and has no whitespace at either end |
| `FormChecks.CheckError` | script.js:190-224 | a check reports its own error exactly when it fails, and no other error |
| `FormChecks.ValidateForm` | script.js:177-227 | the form is accepted exactly when the trimmed id is six to twelve digits, the trimmed name is non-empty, region and membership are chosen, the wallet amount is not negative and the terms are agreed |
| `FormChecks.PlayerIdErrorIff` | script.js:190-194 | the player-id error is reported exactly when the trimmed id is not six to twelve digits |
| `FormChecks.PlayerNameErrorIff` | script.js:196-200 | the player-name error is reported exactly when the trimmed name is empty |
| `FormChecks.PlayerIdLengthRejected` | script.js:190-194 | a trimmed id shorter than six or longer than twelve characters is rejected and the form fails |

## Left out

- DOM reads and writes, alerts, error texts, page switching, the summary box and the progress bars (script.js:177-227 DOM parts, 262-292, 389-422). These are UI. The bar widths are also floating point. Share outcomes are returned as `ShareOutcome` values instead of messages.
- JSON text and the real `localStorage`. Storage is decoded blobs, one optional field per storage key. A blob that does not parse makes the source throw, which is not modelled. `null` and `undefined` are both `None`. A form blob is assumed to carry every field `saveData` writes.
- Share-blob fields that are present but not numbers (`NaN`, strings) are not modelled; `|| 0` is modelled only for a missing field.
- Numbers are unbounded integers (counters, timestamps) or reals (wallet amount); the 2^53 precision limit of JavaScript numbers is not modelled.
- `Text.ToLower`: maps only ASCII letters, not the full Unicode case mapping of `toLowerCase`.
- `Store.ArrayFrom`: any order of the set's elements is allowed; the insertion order of a JavaScript `Set` is not modelled, because the record holds the groups as a set.
- The `Math.random()` fallback of `generateKey` (script.js:456-461), used only when no crypto source exists, is not modelled; the key comes from sixteen given bytes.
- The id generation at script.js:237, which formats the clock and `Math.random()`, and the rest of `handleFormSubmit` (script.js:232-256).
- `handleManualShareClick` (script.js:376-384), the UI check that refuses a blank label before calling `incrementShare`.
- `walletAmount` parsing and formatting (`parseFloat`, `toFixed`; script.js:188, 242, 290); the form checks take the parsed number.
- `submitToServer` (a logging stub), WhatsApp links, clipboard, file download and the admin panel list and clear (script.js:115-133, 298-324, 503-543, 553-594).
- Event wiring in `init` (script.js:604-665) apart from the load at start-up and the two debug buttons. The `ffGiveawayUniqueGroups` storage key is declared but never used by the source.
