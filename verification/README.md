# A verified model of the zero-trust enforcement chain

Devices reach the lab's applications through a chain of small programs that share files and headers rather than
types. Posture agents check a device, sign the result and write it into a shared store. The authorization bridge
combines, for every request, the answer of the login proxy, the posture record of the source address and the
decision of a Rego policy. A revoker watches a log and cuts WireGuard peers. Two further programs hand out peer
addresses. This project models each of them in Dafny and proves what the chain as a whole promises.
`dafny verify dfyconfig.toml` checks everything.

## The parts

| files | what they model |
|---|---|
| `Basics`, `Json`, `JsonRoundTrip`, `JsonPrefix`, `JsonAscii`, `JsonTexts` | text operations; Python dicts in insertion order; `json.dumps` in three layouts and `json.loads`, with the round trip, what a reader sees of a part of a text, and the layouts and escapes character by character |
| `Canonical`, `Base64`, `Jwt` | the text that is signed; base64 and base64url (RFC 4648) with the decoder's own state machine; tokens, their decoders and the mock provider's user endpoint |
| `Rego`, `Policy`, `DataAccess` | an evaluator for the part of Rego that the policy uses, with undefined values, negation as failure, defaults and conflicts; the policy itself, rule by rule; its clearance rule on inputs of any kind |
| `Posture`, `Identity`, `Bridge` | the agent's checks and signature, the bridge's view of a record, the identity from the proxy's answer, and `validate` |
| `Store`, `Schedules`, `EndToEnd` | agents and registrations as processes over one text file, step by step; which updates survive a race and when chunks must not mix; the end-to-end theorems |
| `Risk`, `Decisions` | the risk score as the loop-free accumulation it is, and properties over time and across components |
| `PostureLog`, `Ip`, `Peers`, `Revoker`, `LogLines` | the log as a state machine over repeated passes, addresses and masks, the peer list, the revoker as a class, and what it does on lines as they are printed |
| `Allocator`, `AddPeer`, `Classification` | the address allocator, the two address checks, and the demo application's prefix table |

## Reading the results

The store is a text, not a map. A writer reads the file in one step, truncates it in another, writes its text in
any number of further steps, each chunk at its own position, and finishes in a last one; it may die at any point,
and a reader sees any prefix of the file. `Store.StoreIntegrity` says what survives all interleavings, including
lost updates and resurrected records. It needs one thing of the writers (`Store.Orderly`): the chunks of two texts
are not spliced. That is so whenever every text fits into one chunk (`Store.WholeTextsAreOrderly`), and it cannot be
dropped: `Schedules.SplicesBreakTheStore` is a run of two agents with two chunks each after which the bridge accepts
the healthy one's record for the unhealthy one's address.

`EndToEnd.EveryGrantIsBacked` builds on this: a 200 always goes back to a step of the run in which the agent for
that very address found all three signals good, recently enough. A record that was healthy and fresh in the store
before the first step is the one exception, and `EndToEnd.EveryGrantHasARun` excludes it where those records carry
no date, as the ones shipped with the repository do, and the clock is past the allowed age: an undated record counts
as checked at time 0.

`EndToEnd.EveryGrantIsSigned` replaces honest writers by a shared secret and lets anybody overwrite the store. The
signature covers the entry and not the address, so how much it gives depends on what foreign texts do with signed
entries. If they leave each under an address whose own run signed it (`Store.InPlace`), every 200 is backed by a run
for its own address. If they may put it anywhere, it is backed by a run of some device, and no more:
`EndToEnd.SignatureMoves` shows for every run on record that a foreign writer can move its entry without any forgery
and that the bridge then grants requests at the new address, backed exactly if a run for that address was on record
anyway; `EndToEnd.MovedTextIsUnforged` says exactly when such a text leaves signatures in place.

Assumptions about what lies outside appear in the lemmas as `requires`: the keyed digest is an arbitrary function
(`Posture.Mac`), assumed not to collide and not to be empty where a lemma says so, and `Store.Unforged` states
what unforgeable means for a foreign text. Every request has one reading of the bridge's clock and one of the
policy engine's clock for each query; an agent's run has one.

Theorems about a decision are stated on what goes in and comes out of the programs: the four lowered prefixes that
classify a path (`Bridge.LevelMeans`), the exact words of every reason (`Bridge.ReasonSays`), the claims of a token
(`Identity.SignedInMeans`), the fields behind every risk factor (`Risk.SessionFactorsMean`, `Risk.PostureFactorsMean`),
the text of a network (`Ip.Cidr4Means`, `Ip.Cidr6Means`), and dicts as they are printed on the lines of a log
(`LogLines.FailingDeviceIsRevoked`).

Where the code does not do what its comments say, the model follows the code:

- The comments at gateway/opa/policy.rego:117-144 say that clearance gates classified data. It does so exactly on the
  paths that are public or kept for admins anyway: `Bridge.ClearanceGatesMeans`, `Bridge.AllowedWithoutClearance`,
  `Policy.AddedBodiesAreIdle`. A capital letter in an admin path is enough to lose the gate, because the path is
  lowered for its classification only: `Bridge.UngatedPaths`.
- Reasons conflict for ordinary users on classified paths, and the header then says "unknown":
  `Policy.ReasonMeans`, `Bridge.ReasonHeader`.
- The clearance header names the role of an ordinary user for everybody: `Classification.EveryCallerIsOrdinary`.
- `add_peer` proposes the same address until somebody registers it, and gives a requested address to anybody, in use
  or not: `AddPeer.AddressIsGivenAgain`, `AddPeer.UsedAddressIsGiven`.
- `validate_ip` accepts texts that are no addresses: `AddPeer.ValidateIpMeans`, `AddPeer.OddTextsAreAccepted`.
- The bridge's subnet check is exact only for some subnets: `AddPeer.SubnetTextIsExact`.
- Revocations repeat on every pass over an unchanged log: `PostureLog.PassesCount`.

## Model

| member | source | states |
|---|---|---|
| JsonRoundTrip.LoadsDumps | scripts/posture_check.py:148-149 | every value that Python can hold comes back from its text in each of the three layouts, with any whitespace after it |
| JsonPrefix.TornRead | gateway/authz-bridge/app.py:84-90 | whatever part of a text a reader catches, it finds a malformed document or exactly the dict that the text begins with |
| JsonPrefix.ProperPrefixIsMalformed | scripts/posture_check.py:148-149 | no proper part of a dumped dict reads as a document |
| JsonPrefix.LoadsIsWf | gateway/authz-bridge/app.py:86-87 | a dict that was parsed has no key twice, at any depth |
| JsonAscii.DumpsIsAscii | gateway/mock-oidc/app.py:53-54 | dumped text is ASCII, so its encoding to bytes cannot fail |
| JsonTexts.LayoutMeans | scripts/posture_check.py:148-149 | what stands between the parts of a text in each layout: nothing, single blanks, or a line break and two blanks for each level |
| JsonTexts.TwoFields | scripts/posture_check.py:148-149 | the text of a dict of two entries, character by character, in each layout |
| JsonTexts.LongEscapes | gateway/mock-oidc/app.py:53-54 | a character outside printable ASCII is escaped by its code, beyond U+FFFF by the two codes of its surrogate pair |
| JsonTexts.JunkIsMalformed | gateway/authz-bridge/app.py:86-87 | a dict followed by anything but white space is malformed |
| JsonTexts.BlanksBefore | gateway/authz-bridge/app.py:86-87 | of the blanks, exactly the four white space characters of JSON may come before a document |
| JsonTexts.RepeatedKey | gateway/authz-bridge/app.py:86-87 | of a repeated key the last value counts |
| JsonTexts.SignedSample | scripts/posture_check.py:44 | what is signed for a dict filled in descending order of keys: the compact text with ascending keys |
| Canonical.BeforeMeans | scripts/posture_check.py:44 | the order of keys: a text comes before its extensions, and otherwise the first different character decides |
| Canonical.CanonEntries | scripts/posture_check.py:44 | the sorted form of a dict has its keys in ascending order, each with the sorted form of its value |
| Canonical.CanonDecidesSame | scripts/posture_check.py:44 | sorted forms are equal exactly for JSON values that are equal up to key order |
| Canonical.SignedTextIdentifies | scripts/posture_check.py:44 | the signed text is the same exactly for values that are equal up to key order, in which everything else matters |
| Base64.DecodeEncode | gateway/authz-bridge/app.py:77-80 | decoding undoes encoding for every byte string, in both alphabets |
| Base64.EncodeIsInjective | scripts/posture_check.py:45-47 | different byte strings have different texts |
| Base64.GroupMeans | scripts/posture_check.py:45-47 | three bytes become the four symbols of their 24 bits; one or two bytes are filled with zero bits and padded |
| Base64.SymbolsAre | scripts/posture_check.py:45-47 | the alphabet in its order |
| Base64.JunkIsSkipped | gateway/authz-bridge/app.py:77-80 | an ASCII character outside the alphabet changes nothing wherever it stands, any other is an error |
| Base64.PartialGroupFails | gateway/authz-bridge/app.py:77-80 | symbols that do not fill their last group and lack padding are an error |
| Base64.Utf8Means | gateway/authz-bridge/app.py:125-126 | bytes decode to a text exactly if they are its UTF-8 encoding (section 3 of RFC 3629) |
| Base64.StrippedShape | gateway/mock-oidc/app.py:53-54 | stripped base64url is URL-safe, never has length 1 modulo 4, and the decoder's padding formula restores exactly what was stripped |
| Base64.StrippedDecodes | gateway/authz-bridge/app.py:123-125 | re-padding and decoding a stripped part gives the bytes back |
| Jwt.PartIsUrlSafe | gateway/mock-oidc/app.py:53-54 | a part of a token has no dot and no padding, whatever its claims |
| Jwt.TokenDecodes | gateway/authz-bridge/app.py:110-129 | both decoders read from every issued token the registered claims overridden by the payload |
| Jwt.ClaimsOverride | gateway/mock-oidc/app.py:57-67 | a claim is the payload's if the payload has it and the registered one otherwise |
| Jwt.RegisteredSays | gateway/mock-oidc/app.py:57-67 | a token says who issued it for whom, when, until when and under which identifier, unless the payload says otherwise, and has no other claims |
| Jwt.TokenParts | gateway/mock-oidc/app.py:57-67 | a token has three parts, which decode to the kind of token, the claims, and a signature that signs nothing |
| Jwt.ChooseMeans | gateway/mock-oidc/app.py:86-87 | tokens are issued for the first account of the kind asked for, or else for the administrator's |
| Jwt.SubjectSays | gateway/mock-oidc/app.py:89-89 | an access token tells the user's "sub" and the scope, and nothing else of the payload |
| Jwt.UserinfoMeans | gateway/mock-oidc/app.py:110-133 | a token with claims is answered with the first account of its subject, or else with the administrator's |
| Jwt.AccessTokenNamesItsUser | gateway/mock-oidc/app.py:80-133 | the access token issued for a kind of user leads the user endpoint back to that user |
| Identity.MfaMeans | gateway/authz-bridge/app.py:154-169 | on every list of method names the test on the printed list means: one is "webauthn" or one contains "mfa" in any case |
| Identity.MfaOfAny | gateway/authz-bridge/app.py:154-169 | on any value of the claim the test means: it names "webauthn", or some text at any depth of it, key or value, contains "mfa" in any case; it raises an exception exactly on what cannot be searched |
| Identity.SignedInMeans | gateway/authz-bridge/app.py:132-173 | which answers of 202 raise an exception, by the claims of the token, and which user all others describe |
| Identity.WithoutClaims | gateway/authz-bridge/app.py:110-173 | a 202 without readable claims makes an ordinary user with the proxy's email, without MFA and login time |
| Identity.IntOfMeans | gateway/authz-bridge/app.py:170 | which texts are login times: digits in groups with single underscores, a sign, and blanks around them; and which numbers they are |
| Identity.PrintedTimeIsRead | gateway/authz-bridge/app.py:170 | a login time given as text is read as the number that it prints |
| Posture.AgentFailsClosed | scripts/posture_check.py:73-141 | the verdict and the entry are healthy exactly when all three queries succeeded and were good |
| Posture.AgentEntrySays | scripts/posture_check.py:117-141 | what the bridge and the risk score find in an agent's entry |
| Posture.SignatureBinds | gateway/authz-bridge/app.py:67-81 | under a secret and a digest without collisions, data verifies with an entry's signature exactly if the two are equal up to key order |
| Posture.EnvelopeVerifies | scripts/posture_check.py:143-146 | a stored envelope opens to the entry and verifies |
| Posture.AgentToBridge | gateway/authz-bridge/app.py:84-107 | whatever the store held, the entry an agent stores comes back unchanged while it is fresh and as a stale record afterwards |
| Posture.UnknownDeviceIsUnhealthy | gateway/authz-bridge/app.py:84-93 | without a store, or with one that has no record of the address or one that counts as false, the device is unhealthy and no exception is raised |
| Posture.JudgedMeans | gateway/authz-bridge/app.py:94-107 | what becomes of a record: an exception exactly if it is accepted and its data is no dict or has a date that is no number, its own data exactly if fresh, otherwise an unhealthy record |
| Posture.RegistrationIsPlain | scripts/wg-add-peer.sh:117-139 | a registration record is unsigned, undated, unhealthy, with all signals off |
| Posture.RegistrationSays | scripts/wg-add-peer.sh:117-139 | what a registration record tells of the device, its user and the time |
| Rego.ClausesAgree | gateway/opa/policy.rego:58-87 | a rule is undefined, has the one value its bodies agree on, or conflicts when they differ |
| Rego.ClauseOrderIsIrrelevant | gateway/opa/policy.rego:58-173 | the value of a rule depends neither on the order nor on the repetition of its bodies |
| Policy.AllowMeansFor | gateway/opa/policy.rego:58-173 | with any list of bodies that has the four first ones and none beyond the eight, `allow` is the plain decision, on every input, with or without missing fields |
| Policy.AllowMeans | gateway/opa/policy.rego:7-87 | the policy as it is and its four first bodies alone both compute the plain decision |
| Policy.AddedBodiesAreIdle | gateway/opa/policy.rego:143-173 | the bodies added for data classification change no decision |
| Policy.ClearanceIsNotEnforced | gateway/opa/policy.rego:98-173 | the clearance rule holds exactly for admins and on public paths, and `allow` goes without it exactly for the ordinary users it allows to a path that is not public |
| Policy.ReasonMeans | gateway/opa/policy.rego:136-227 | on every input of the bridge `reason` has one value exactly if the base check fails, the user is an admin or the path is public; which one; "allowed" exactly with `allow`; never the default |
| DataAccess.ClearanceRuleMeans | gateway/opa/policy.rego:98-115 | the clearance rule on every input: it holds exactly without a classification or with a known one that the role covers; an unknown role or classification does not pass |
| DataAccess.ConflictingTexts | gateway/opa/policy.rego:136-227 | which reasons conflict for an ordinary user on a classified path, although none is told |
| DataAccess.DefaultReason | gateway/opa/policy.rego:8-8 | the default reason is told where no body applies, as for an input without posture |
| Bridge.LevelMeans | gateway/authz-bridge/app.py:195-204 | which of the three classifications a path has, as an if-and-only-if on the four prefixes of the lowered path |
| Bridge.InputSays | gateway/authz-bridge/app.py:206-229 | the input that the policy reads, key by key, in terms of the identity, the record and the path |
| Bridge.InputIsBuilt | gateway/authz-bridge/app.py:195-229 | every input that the bridge builds has the shape that the policy was analysed for |
| Bridge.AllowedMeansPermits | gateway/authz-bridge/app.py:195-229 | on these inputs the plain decision is the one in terms of user, posture, path and clock |
| Bridge.AllowedWithoutClearance | gateway/opa/policy.rego:58-115 | a request is allowed while the clearance rule is undefined exactly if it is a permitted one of an ordinary user whose lowered path starts with one of the four classified prefixes |
| Bridge.ClearanceGatesMeans | gateway/opa/policy.rego:117-173 | every permitted request on a path has clearance exactly if the lowered path starts with none of the four classified prefixes or the path, as written, starts like an admin path |
| Bridge.UngatedPaths | gateway/authz-bridge/app.py:195-204 | three paths on which clearance does not gate: a data path, a sensitive path, and an admin path with a capital letter |
| Bridge.ValidateMeans | gateway/authz-bridge/app.py:187-285 | the status of every answer: 200 exactly when the decision arrives and permits, even if the reason is garbled; 401, 403 and the headers otherwise |
| Bridge.StrangersAreSentToLogin | gateway/authz-bridge/app.py:144-149 | if the proxy cannot be reached or answers anything but 202, the answer is 401 with the login location on every path and for every device that can be judged, and a server error only if the posture store raises one |
| Bridge.ReasonSays | gateway/authz-bridge/app.py:238-270 | the exact words of the reason on every answer, by the first check that fails, or "unknown" where reasons conflict |
| Bridge.NoAnswerIsTold | gateway/authz-bridge/app.py:231-248 | a query without a decision denies, one without a reason keeps the decision, and both say that the engine could not be reached |
| Bridge.ReasonHeader | gateway/authz-bridge/app.py:238-248 | for any two clock readings the reason is "unknown" exactly for ordinary users past the identity and posture checks whose lowered path starts with a classified prefix, and otherwise "allowed" exactly if the second query permits; "allowed" implies a 200 unless the clock went back, and with one reading every other 200 has it |
| Risk.CalculateRiskScore | gateway/authz-bridge/app.py:503-558 | the accumulated score and factors are those that the next four rows give from the fields of identity and record |
| Risk.SessionFactorsMean | gateway/authz-bridge/app.py:514-529 | the factors of the session from the fields of the identity: an undated session counts as older than an hour, a dated one by its exact age |
| Risk.PostureFactorsMean | gateway/authz-bridge/app.py:530-549 | the factors of the device from the keys of its record |
| Risk.ScoreMeans | gateway/authz-bridge/app.py:510-551 | the score is the sum of the weights of the factors that count, at most 100 |
| Risk.ScorableMeans | gateway/authz-bridge/app.py:534-547 | the calculation raises an exception exactly on a date that is no number or, for a healthy device, on signals that are no dict |
| Risk.AddIdentity | gateway/authz-bridge/app.py:514-529 | the part about the session and MFA adds those of its four factors that count, which Risk.SessionFactorsMean gives from the identity |
| Risk.AddSignals | gateway/authz-bridge/app.py:534-544 | the part about the signals adds one factor for each signal that is off |
| Decisions.PostureOverTime | gateway/authz-bridge/app.py:99-107 | over time the view of a record stays the same or goes from fresh to stale, never back |
| Decisions.DecisionsDecay | gateway/authz-bridge/app.py:187-285 | what is allowed at one time was allowed at every earlier time, for a fixed identity, store and path |
| Decisions.RiskGrows | gateway/authz-bridge/app.py:561-580 | past the allowed posture age the score never decreases, through posture check and score together |
| Decisions.PolicyAgreesWithRisk | gateway/authz-bridge/app.py:503-558 | an allowed request scores at most 75; on an agent's record it scores exactly 30, 15 or 0 by the age of its session, and 0 on a sensitive path |
| Store.StoreFile.RunAgent | scripts/posture_check.py:110-149 | an undisturbed run leaves the store it read, or an empty one, with its own signed entry put in |
| Store.StoreFile.Register | scripts/wg-add-peer.sh:104-139 | an undisturbed registration adds its record to a readable store, creates a missing one, and leaves a malformed one alone |
| Store.AgentLeaves | scripts/posture_check.py:127-149 | the text that an agent leaves reads as the dict that it read, or an empty one, with its own record put in |
| Store.RegistrationLeavesStore | scripts/wg-add-peer.sh:104-139 | the same for registration, which leaves a text alone that is no dict |
| Store.WritersMean | scripts/wg-add-peer.sh:117-139 | an agent fails exactly on a document that is no dict, and registration writes exactly if it read a dict |
| Store.ApplyKeeps | scripts/posture_check.py:127-149 | every step of every process, chunk by chunk, keeps the invariant on the file and on the texts about to be written, as long as it does not splice two texts |
| Store.StoreIntegrity | scripts/wg-add-peer.sh:117-139 | in every such run, every part of the file that reads as a document is a store of records produced for their own address, or, with foreign writers, one where whatever verifies was signed by an agent, for that address if signatures stay in place |
| Store.WholeTextsAreOrderly | scripts/posture_check.py:148-149 | runs in which every text is written in one chunk splice nothing |
| Schedules.SplicesBreakTheStore | scripts/posture_check.py:148-149 | with two chunks each, two agents can leave the healthy one's record under the unhealthy one's address, accepted by the bridge |
| Schedules.ChunkLands | scripts/posture_check.py:148-149 | a chunk lands at its position, everything else stays, and a hole is filled with zeros |
| Schedules.DeadProcessIsIdle | scripts/posture_check.py:148-149 | a process that dies leaves the file as it is at that moment, whatever it would have done next |
| Schedules.TimePasses | gateway/authz-bridge/app.py:99 | over any steps the clock moves by the ticks among them, and never back |
| Schedules.UpdatesSurvive | scripts/posture_check.py:127-149 | in every order in which two agents read and replace a readable store, an entry is there at the end exactly if its agent writes last or the other one reads after its write, and all other records stay |
| Store.RecordsAreConsistent | scripts/posture_check.py:115-149 | whatever a reader finds at any moment, a written record is healthy exactly when all its three signals are true |
| EndToEnd.RunsHappened | scripts/posture_check.py:110-141 | every run on record is a step with the signals and the clock of that step |
| EndToEnd.RunsAreRecorded | scripts/posture_check.py:110-141 | and every such step is on record |
| EndToEnd.EveryGrantIsBacked | gateway/authz-bridge/app.py:187-285 | end-to-end safety with honest writers: a 200 is backed by the proxy's 202, an MFA claim, a session within its limits, the admin group where needed, and a fresh run with three good signals for that address, or a record that was fresh there from the start |
| EndToEnd.EveryGrantHasARun | gateway/authz-bridge/app.py:99-107 | when the records there from the start are undated and the clock is past the allowed age, it is always a run |
| EndToEnd.EveryGrantIsSigned | gateway/authz-bridge/app.py:67-107 | with a shared secret and arbitrary writers that cannot forge signatures a 200 is backed by a run of some device, and by one for its own address if they leave signed entries in place |
| Schedules.RunIsSeen | scripts/posture_check.py:127-149 | right after a run the bridge answers for its address with the run's own entry, until that is stale |
| EndToEnd.HealthyDeviceIsGranted | gateway/authz-bridge/app.py:187-285 | the other direction: after an undisturbed run with three good signals every logged-in user with readable claims gets a 200 when the engine answers |
| EndToEnd.SignatureMoves | gateway/authz-bridge/app.py:91-107 | after any fair steps a foreign writer can move the fresh entry of any healthy run to another address by a fair step; every logged-in user is then granted there, backed exactly if a healthy fresh run for that address was on record anyway |
| EndToEnd.MovedTextIsUnforged | scripts/posture_check.py:36-47 | such a text is never a forgery, and it leaves signatures in place exactly if a run for the new address had the very same entry |
| EndToEnd.MovedGrantIsUnbacked | gateway/authz-bridge/app.py:84-107 | a concrete run of the chain, one healthy agent and one moved entry, with a 200 that no run for its address backs |
| Schedules.TornReadFailsClosed | gateway/authz-bridge/app.py:84-90 | on a part of a dumped store the bridge fails closed, an agent starts afresh and registration writes nothing |
| Schedules.UndisturbedRun | scripts/posture_check.py:127-149 | the steps of an agent that nobody disturbs do what `main` does in one go, with or without a store file |
| Schedules.UndisturbedEnrolment | scripts/wg-add-peer.sh:104-139 | the steps of a registration that nobody disturbs, which creates a missing store first, do what `register_posture` does in one go |
| Schedules.RunLeavesOthers | scripts/posture_check.py:127-149 | on a readable store a run changes nothing that the bridge makes of other addresses |
| Schedules.RegistrationLeavesOthers | scripts/wg-add-peer.sh:117-139 | nor does a registration |
| Schedules.UpdatesCanBeLost | scripts/posture_check.py:127-149 | when two agents both read before either writes, the first one's run leaves no trace for the bridge |
| EndToEnd.IssuedTokenIdentity | gateway/authz-bridge/app.py:132-173 | the identity that the bridge makes of an issued token is that of the token's claims |
| EndToEnd.TokensWithoutMethodsAreRefused | gateway/mock-oidc/app.py:89-98 | a token without authentication methods, such as the mock provider's, never gets a 200 |
| Ip.ParsePrint4 | scripts/posture_revoker.py:148-151 | reading and printing of IPv4 addresses are inverse: an address has exactly one text |
| Ip.DottedText | scripts/posture_revoker.py:148-151 | the text of an address is its four octets, most significant first |
| Ip.MaskIsInterval | scripts/posture_revoker.py:159-160 | agreement under a bit mask is membership in the block of 2^(bits - prefix) addresses |
| Ip.PrefixOfMaskMeans | scripts/posture_revoker.py:159 | a number is taken for a netmask exactly when it is the mask of that prefix |
| Ip.DottedMeans | scripts/posture_revoker.py:159 | which dotted netmasks and hostmasks are accepted, and for which prefix |
| Ip.NetIsInterval | scripts/posture_revoker.py:159-160 | a parsed network contains exactly the addresses of its version in the block of its prefix; the next four rows say which prefix a text has |
| Ip.Cidr4Means | scripts/posture_revoker.py:159-160 | the text of an IPv4 address, a slash and a numeral is a network exactly up to 32, and holds exactly the addresses with the same quotient by 2^(32 - prefix); without a slash it holds the address alone |
| Ip.Cidr6Means | scripts/posture_revoker.py:159-160 | the same for every text of an IPv6 address, up to 128 |
| Ip.Dotted4Means | scripts/posture_revoker.py:159-160 | the same for a dotted mask after the slash, with the prefix that it means, or no network if it means none |
| Ip.OnlyNumerals6 | scripts/posture_revoker.py:159 | after an IPv6 address anything but a numeral makes no network |
| Peers.GetPeers | scripts/posture_revoker.py:41-65 | the loop over the command's output builds the dict from keys to allowed addresses |
| Peers.NextLine | scripts/posture_revoker.py:52-59 | a line of fewer than five cells adds nothing, and one with a known key replaces that key's addresses |
| Peers.DumpReadsBack | scripts/posture_revoker.py:41-65 | what is read from the printed list is the list of peers |
| Peers.DeviceMeans | scripts/posture_revoker.py:148-151 | which values of a logged device are addresses: a number is one too, and means the text that it prints |
| Peers.RevocationIsExact | scripts/posture_revoker.py:145-169 | the removal calls name exactly the peers with a parseable network of the same version that contains the device, each once, and exactly those go; for the texts of such networks see Ip.Cidr4Means and Ip.Cidr6Means |
| Peers.LonePeersGo | scripts/posture_revoker.py:145-169 | on texts: a peer that lists one address as the interface prints it goes exactly when the logged device is that text, or for IPv6 any text of that number |
| PostureLog.Concat | scripts/posture_revoker.py:198-223 | a pass over a log in two parts is a pass over each |
| PostureLog.ActedMeans | scripts/posture_revoker.py:212-221 | an entry is acted on exactly if it is unhealthy and the latest earlier entry of its device, or the state left by earlier passes, is healthy |
| PostureLog.DevicesAreIndependent | scripts/posture_revoker.py:198-223 | state and revocations of a device depend on its own entries only |
| PostureLog.InterleavingIsIrrelevant | scripts/posture_revoker.py:198-223 | logs that interleave the same device logs differently have the same effect |
| PostureLog.TurnsAreCounted | scripts/posture_revoker.py:212-214 | the recursive count of falls is the number of positions where health falls |
| PostureLog.PassCount | scripts/posture_revoker.py:187-223 | the revocations of a device in one pass are the falls of its health after the known state |
| PostureLog.FallsFrom | scripts/posture_revoker.py:212-214 | the known state adds at most one fall, at the start of the log |
| PostureLog.PassesCount | scripts/posture_revoker.py:187-235 | over n passes of an unchanged log a device is revoked first + (n - 1) * cyclic times |
| PostureLog.CycleIsBalanced | scripts/posture_revoker.py:208-214 | with boolean health only, cyclic falls are as many as cyclic rises |
| PostureLog.CycleIsUnbalanced | scripts/posture_revoker.py:208-214 | a log with another value where they differ |
| PostureLog.EveryFallIsActedOn | scripts/posture_revoker.py:198-235 | completeness over any sequence of passes: every fall in the log is acted on by every pass that reads it |
| PostureLog.OnlyHealthyDevicesFall | scripts/posture_revoker.py:198-235 | soundness whatever the passes read: a device that was not healthy in any log read so far or to begin with is never revoked; for a growing log its last state tells |
| PostureLog.EntriesGrow | scripts/posture_revoker.py:198-206 | lines added to a log leave its entries and add some at the end |
| LogLines.PrintedLineIsEntry | scripts/posture_revoker.py:198-210 | a line on which a dict was printed, in any layout and with any blanks around it, gives the entry with the values at "device_id", "healthy" and "user_email", or their defaults; a list or dict as the device ends the pass |
| LogLines.OtherLines | scripts/posture_revoker.py:199-206 | blank and malformed lines are passed over, and a document that is no dict ends the pass |
| LogLines.PrintedLog | scripts/posture_revoker.py:198-210 | the entries of any log of printed dicts are those of the dicts, one for each line and in their order |
| LogLines.FailingDeviceIsRevoked | scripts/posture_revoker.py:187-223 | two printed lines that report a device first healthy and then not: whatever the revoker knew, the pass revokes that device with the user of the second line, once, with exactly these sessions, removal calls and remaining peers |
| LogLines.FailingDeviceLosesItsPeer | scripts/posture_revoker.py:145-223 | the same on texts: of the peers that list one IPv4 address each, exactly the one with the device's text goes |
| Revoker.Revoker.constructor | scripts/posture_revoker.py:37-38 | the revoker starts with empty dicts |
| Revoker.Revoker.RemovePeer | scripts/posture_revoker.py:68-83 | one removal call, which may be refused |
| Revoker.Revoker.IsCovered | scripts/posture_revoker.py:154-169 | the inner loop stops at the first network that contains the device, and finds one if there is one |
| Revoker.Revoker.RemoveCovered | scripts/posture_revoker.py:153-169 | the outer loop calls for exactly the covered peers in order, and keeps the others and the refused ones |
| Revoker.Revoker.RevokeDevice | scripts/posture_revoker.py:145-184 | all effects of one revocation |
| Revoker.Revoker.ProcessEntry | scripts/posture_revoker.py:208-223 | all effects of one log entry |
| Revoker.Revoker.ProcessLog | scripts/posture_revoker.py:187-223 | a pass over raw lines: the revocations are those of the acted entries, an exception ends the pass; which entry a line is, the rows of LogLines say from the dict printed on it |
| Revoker.Revoker.Serve | scripts/posture_revoker.py:226-235 | any number of passes leave the states and the revocations that the log theorems are about, and the peers, removal calls and sessions that these revocations cause, for entries as in LogLines.PrintedLog |
| Revoker.GrowingLinesGrow | scripts/posture_revoker.py:187-206 | a log file that only grows by lines is a growing log of entries |
| Revoker.OnlyMatchingPeersGo | scripts/posture_revoker.py:145-169 | over any revocations a peer goes exactly when one of them lists it, matches it and is not refused |
| Revoker.UserIsLast | scripts/posture_revoker.py:222-223 | the user kept for a device is the one of its latest entry that names a user |
| Allocator.NextAvailableIp | gateway/authz-bridge/app.py:316-337 | the two loops find the first free host for every content of the store, or crash on one that cannot be iterated |
| Allocator.ProposalIsLeast | gateway/authz-bridge/app.py:333-337 | the proposal is the least free host from 10 to 254, and there is none exactly when all 245 are taken |
| Allocator.ProposalFromText | gateway/authz-bridge/app.py:316-337 | from the text of a store: the proposal is the first host whose address is no key of it, and there is none exactly if all are keys |
| Allocator.ProposalWithoutStore | gateway/authz-bridge/app.py:318-325 | without a store, or with one that cannot be parsed, the proposal is host 10 |
| Allocator.OtherStores | gateway/authz-bridge/app.py:327-332 | a store that is a list has the addresses of its texts and numbers in use, one that is a text has none |
| Allocator.CrashMeans | gateway/authz-bridge/app.py:327-328 | an exception is raised exactly on a document that cannot be iterated |
| Allocator.CandidateIsAddress | gateway/authz-bridge/app.py:334 | a candidate is the one text of the address it stands for |
| Allocator.AllocationIsExact | scripts/wg-add-peer.sh:104-139 | repeated allocation and registration hands out the free hosts in strictly increasing order, 245 less those in use, and then nothing |
| AddPeer.ValidateIpMeans | scripts/wg-add-peer.sh:48-59 | of the texts that are addresses the script accepts exactly the hosts 2 to 254; of the texts it accepts exactly those written as plain numbers of at most three digits are addresses |
| AddPeer.OddTextsAreAccepted | scripts/wg-add-peer.sh:55-58 | two accepted texts that are no addresses |
| AddPeer.ProposalsAreAccepted | scripts/wg-add-peer.sh:48-59 | every address that the bridge proposes in the script's subnet passes the script's check |
| AddPeer.SubnetTextIsExact | gateway/authz-bridge/app.py:408-414 | comparing texts accepts the whole subnet, and nothing else exactly if its third number is 0 or at least 26 |
| AddPeer.AddedMeans | gateway/authz-bridge/app.py:378-447 | a peer is added exactly for an authorized request with a new well-formed key, at the requested address of the subnet or the least free one |
| AddPeer.RefusedMeans | gateway/authz-bridge/app.py:378-447 | which status every other request gets, by the first check that fails |
| AddPeer.CrashIsTold | gateway/authz-bridge/app.py:316-337 | a store that cannot be iterated breaks acceptable requests without an address, and only those |
| AddPeer.KeysOfBytes | gateway/authz-bridge/app.py:402-406 | of the encodings of byte strings, exactly those of 32 bytes have the form of a key |
| AddPeer.ProposalRepeats | gateway/authz-bridge/app.py:316-337 | over any two stores of which the second has no fewer addresses in use, a proposal is made again exactly while its address is not in use |
| AddPeer.AddressIsGivenAgain | gateway/authz-bridge/app.py:378-447 | a proposed address is given to another acceptable request exactly if it is still not in use or the request names it |
| AddPeer.UsedAddressIsGiven | gateway/authz-bridge/app.py:406-414 | a requested address of the subnet is given to every acceptable request, in use or not |
| AddPeer.AddressIsReused | gateway/authz-bridge/app.py:415-436 | on the same store the next peer without a requested address gets the same one, and after its registration the next proposal is another one |
| Classification.LookupIsLongestMatch | app/app.py:148-158 | the lookup finds the one longest matching prefix, and the default when there is none |
| Classification.TableOrderIsIrrelevant | app/app.py:148-158 | the order of the table does not matter |
| Classification.HeaderMeans | app/app.py:180-186 | the clearance of a header is that of the role after its name, with any blanks around it |
| Classification.RequiredMeans | app/app.py:171-193 | which classifications need which level, in any case of the letters |
| Classification.EveryCallerIsOrdinary | app/app.py:180-193 | everybody the bridge lets through has clearance 1 in the application, administrators too |

## Left out

- Text: lone surrogates, the byte order mark and other encodings of JSON files, and letters, digits and whitespace beyond ASCII in `lower()`, `strip()` and `int()`.
- Numbers: JSON numbers with fraction or exponent, `NaN` and `Infinity`, and Python's limit of 4300 digits.
- HMAC-SHA256: an arbitrary function with the assumptions stated in the lemmas.
- Clocks: readings are parameters or the clock of a step; the model of an agent's run reads it once, the program twice within seconds.
- Files: where a chunk ends is arbitrary, characters stand for bytes, and a process that dies leaves what it has written so far.
- Errors of the operating system other than a missing file, such as missing permissions or a full disk.
- HTTP, subprocesses and timeouts: results are parameters, and a call returns or fails as the caught exceptions say.
- osquery rows: a list of dicts with text names, as the queries return; other JSON raises exceptions that end the agent.
- Registration passes the device name and user through shell quoting into Python source; the model takes them as plain text.
- Rego: only the operations that the policy uses. Local variables are substituted, arrays and objects are compared with scalars only, evaluation is strict in conflicts, and whether operands of a negated call are evaluated before the negation is a parameter (`hoist`) over which the theorems hold.
- IPv6 texts: their reader and printer are parameters; networks, masks and containment cover both versions.
- Authentik: a session revocation is recorded as a call; its failures are caught in the program except for timeouts while reading a reply.
- The revoker's own log file: an entry counts as a revocation whether or not its line could be appended.
- Log lines with a JSON value that is not an object, or a device that is a list or a dict: they end the pass by an exception, which is modelled, and the theorems on passes are about the entries before them.
- The parts of `add_peer` and `main` that only print, log or answer; listing and deleting peers; the admin dashboard; HTML templates; security headers; nginx, nftables, Loki, Grafana and the virtual machines.
- The demo application's four objects and their filtering, which the clearance result settles.
- Revoker.Revoker.Serve: the program's loop never ends; the method runs any finite number of its passes.
- Schedules.RunLeavesOthers: on a store that cannot be read an agent starts from an empty one, and other records are lost.
