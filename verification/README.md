# Proofs about the VoWiFi runtime

A Dafny model of the parts of the VoWiFi runtime that are state machines, codecs and arithmetic, with
proofs of what each promises over every input and every run. `dafny verify dfyconfig.toml` checks all of it.

| files | subject |
|---|---|
| `Runes`, `Utf8`, `Udh`, `Chunking`, `Segmentation`, `SegmentLimits` | cutting a text into SMS parts with user data headers (sections 9.2.3.24 and 9.2.3.24.1 of 3GPP TS 23.040) |
| `Reassembly`, `SmsRoundTrip`, `SmsTiming` | collecting parts in a bounded, expiring table, and the round trip through both, from the delivery times |
| `Text`, `Order`, `Quoting`, `SipHeaders`, `Geolocation`, `HeaderForms` | the SIP Geolocation header (section 4.1 of RFC 6442, quoted strings of section 25.1 of RFC 3261) |
| `HttpAuth`, `HttpAuthLists`, `DigestChallenge`, `DigestCanonical` | HTTP authentication challenges (section 11.6.1 of RFC 9110), their Digest printer and its canonical values |
| `Multipart` | the emergency multipart body (section 5.1.1 of RFC 2046) |
| `IpTransactions`, `SharedRoutes` | `ip` command transactions and the counted ePDG routes that sessions share |
| `PrefixRange` | an IKE address range as one CIDR prefix (section 3.13.1 of RFC 7296) |
| `Liveness`, `LivenessHistory`, `Rekey` | dead peer detection, keepalives and CHILD_SA rekeying (sections 2.4, 2.8 and 2.23 of RFC 7296) |
| `Backoff`, `Recovery` | exponential backoff and the recovery of the IMS registration |
| `RetryQueue`, `RetryChain`, `RetryAnswers`, `RetryRuns`, `RetryExcess` | the durable queue of messaging retries, what each answer leads to, chains of replays, runs over the whole store, and where the bound on sends fails |
| `Powers`, `Finite`, `Wrappers` | powers of two; sizes of sets; results and options |

Code that updates fields or loops over positions is modelled by classes and methods, each proved against
a function or relation on values; what the runtime promises is then proved about those.

## How the modelling was done

- A Go string is a sequence of octets in the SMS files, decoded rune by rune as `range` does, and a
  sequence of runes in the header files. Letter case is mapped for ASCII only.
- Times are integers and zero is the unset time. Clock readings, transport answers, the outcome of `ip`
  commands, REGISTER results and the store's acceptance of a write are parameters, so every statement
  holds for all of them.
- Errors are enumerated per module; their texts are not modelled.

## What turned out not to hold

- A text whose characters do not fill its parts can be rejected although 255 parts would be plenty: each
  header is built against the estimate ⌈length/limit⌉, so segmentation succeeds exactly when the smallest
  possible number of parts equals it (`EmojiTextIsRejected`, `SucceedsIffEstimateIsReached`).
- In a session a failed probe is charged when it fails and again when it times out, so a peer is dead
  after ⌈MaxMissed/2⌉ probes; sessions keep to MaxMissed exactly when it is one, probes are off, or there
  is no probe handler (`SessionDeathTakesHalf`, `SessionDeathIsWholeIff`).
- With a keepalive interval shorter than the probe timeout the reported due time is too late
  (`ShortKeepaliveBreaksDue`, `DueIsExactIff`).
- A shared key names a path as well as a place in a routing table, but `route replace` overwrites by
  place. In all runs a counted route is installed exactly when no two keys give one place different paths
  (`SecondPathOverwrites`, `InstalledWhileCountedIff`). A route that was there before, counted or not, is
  lost when an exclusion in its place is undone: a rollback restores the kernel exactly when the routes it
  installed took free places (`ForeignRouteIsLost`, `RollbackRestoresIff`), and sessions leave nothing
  behind exactly when the keys have places of their own that no route had at first (`LeavesNothingIff`).
- The state returned by a failed `Apply` lists undo commands that were already run; cleaning it up can take
  a route from another session (`FailedStateMustNotBeCleaned`, `CleanupIsHarmlessIff`).
- The two backoff loops differ for a first failure whose base delay exceeds the cap (`LoopsAgreeIff`).
- A message part is sent at most four times exactly when the store refuses none of its writes, whose errors
  are ignored, and no drain replays a copy of a record that the store no longer holds: one refused write
  allows a fifth send, one stale replay three more (`BoundIsReached`, `KeepsToFourIff`).
- A replay keeps the key of an envelope made elsewhere only if the key it hands on is blank or the same.
  Otherwise the old record stays due and every drain sends it again (`ReplayKeepsKeyIff`,
  `ReplayUpdatesRecordIff`, `DriftingRecordIsSentForever`, `OwnKeyDrifts`).

## Model

| member | source | states |
|---|---|---|
| Runes.DecodeCut | runtimehost/messaging/messaging.go:874-931 | cutting a string between two runes cuts its rune sequence; neither half decodes differently |
| Runes.NextRune | runtimehost/messaging/messaging.go:905-931 | reading at a rune start yields the next rune of the decoded text and the following start |
| Utf8.EncodedIsRead | runtimehost/messaging/messaging.go:905-931 | the encoding of every scalar value is read back as one rune, whatever follows it |
| Utf8.OnlyEncodingsAreRead | runtimehost/messaging/messaging.go:905-931 | a rune of several octets is the shortest encoding of a scalar value; nothing else is accepted |
| Udh.ValidatePorts | runtimehost/messaging/messaging.go:1082-1109 | accepts exactly the ports that fit the requested or smallest size, and keeps them |
| Udh.ValidateConcat | runtimehost/messaging/messaging.go:1118-1150 | accepts exactly the references that fit the requested or smallest size |
| Udh.LengthIsExact | runtimehost/messaging/messaging.go:1002-1056 | a header builds exactly when its values are in range; its length is the predicted one, at most 19 octets |
| Udh.Parse | runtimehost/messaging/sms_pdu.go:1458-1528 | the element loop reads languages, ports and concatenation as the recursive reader does, stopping at a truncated element |
| Udh.ReadUndoesBuild | runtimehost/messaging/messaging.go:946-1028 | reading a built header gives back languages, ports and concatenation values |
| Udh.WireForm | runtimehost/messaging/messaging.go:946-1028 | the octets of a full header, element by element |
| Chunking.TakeOctets | runtimehost/messaging/messaging.go:874-903 | the UTF-8 chunk is the longest prefix of whole runes within the limit, or one rune, and the rest follows it |
| Chunking.TakeUnits | runtimehost/messaging/sms_pdu.go:1077-1110 | the GSM 7-bit (and UCS-2) chunk is the greedy prefix of whole runes, and the rest follows it |
| Segmentation.TakeChunk | runtimehost/messaging/messaging.go:874-931 | in every encoding the chunk is the greedy prefix of whole runes, and the rest follows it |
| Chunking.LimitIsExact | runtimehost/messaging/messaging.go:831-851 | the part limit is the largest payload that with its header fits 140 octets, fill bits included |
| Chunking.GreedyIsSplit | runtimehost/messaging/messaging.go:774-784 | greedy cutting keeps every rune, in order, with every piece within the limit |
| Chunking.GreedyIsFewest | runtimehost/messaging/messaging.go:774-784 | no split into whole runes within the limit has fewer parts than the greedy one |
| Chunking.GreedyReachesFewest | runtimehost/messaging/messaging.go:774-784 | the greedy number of parts is the minimum over all splits |
| Segmentation.CutOne | runtimehost/messaging/messaging.go:776-784 | one turn cuts the next greedy chunk, and fails exactly when the part number exceeds the estimate |
| Segmentation.CutParts | runtimehost/messaging/messaging.go:774-784 | the first pass succeeds exactly when greedy cutting stays within the estimate, and yields its chunks |
| Segmentation.RenumberTotal | runtimehost/messaging/messaging.go:785-793 | the second pass gives every part the final total and the header for it |
| Segmentation.Segment | runtimehost/messaging/messaging.go:727-794 | validation, the single part, and both passes refine the specified outcome, errors included |
| Segmentation.AtLeastEstimate | runtimehost/messaging/messaging.go:764-773 | the estimate never exceeds the number of parts greedy cutting takes |
| Segmentation.SucceedsIffEstimateIsReached | runtimehost/messaging/messaging.go:764-793 | a long text is accepted if and only if the fewest possible parts equal ⌈length/limit⌉ and are at most 255 |
| Segmentation.PartsCarryTheText | runtimehost/messaging/messaging.go:764-793 | accepted parts are the fewest possible, numbered 1..n of n, each fits 140 octets with its header, and their texts concatenate to the input |
| SegmentLimits.OnePartIff | runtimehost/messaging/messaging.go:741-754 | a text that the encoding can write goes out as one part, under a header without concatenation, if and only if both fit 140 octets; otherwise it is cut |
| SegmentLimits.WholeGsm7 | runtimehost/messaging/messaging.go:831-868 | without options, up to 160 characters of the locking table or 80 of the shift table go out whole |
| SegmentLimits.WholeUcs2 | runtimehost/messaging/messaging.go:831-868 | without options, up to 70 characters of one UTF-16 unit or 35 of two go out whole |
| SegmentLimits.WholeUtf8 | runtimehost/messaging/messaging.go:831-868 | without options, up to 140 octets go out whole |
| SegmentLimits.SetupIsAsAsked | runtimehost/messaging/messaging.go:727-744 | options are accepted exactly for known languages and ports that fit, and are carried over as given |
| SegmentLimits.HeadersAreAsAsked | runtimehost/messaging/messaging.go:727-793 | every part's header has the languages and ports asked for, and of several parts the reference asked for or drawn, the total and its own number |
| SegmentLimits.FreshReferencesDiffer | runtimehost/messaging/messaging.go:1152-1158 | messages less than a cycle of references apart have different ones |
| Segmentation.UnitTextsAreAccepted | runtimehost/messaging/messaging.go:764-793 | a text of one-unit characters is rejected only for needing more than 255 parts |
| Segmentation.EmojiTextIsRejected | runtimehost/messaging/messaging.go:778-781 | a text that three parts would carry, and no fewer, is rejected, since the estimate is two |
| Reassembly.Service.CleanupExpired | runtimehost/messaging/ims_inbound_sms.go:668-678 | removes exactly the expired sets |
| Reassembly.Service.EvictOldest | runtimehost/messaging/ims_inbound_sms.go:680-698 | removes one least recently touched set |
| Reassembly.Service.Collect | runtimehost/messaging/ims_inbound_sms.go:583-658 | one delivery is a step of the specified relation and keeps the table valid; the missing-part branch is never taken |
| Reassembly.AssembleParts | runtimehost/messaging/ims_inbound_sms.go:636-643 | concatenates parts 1 to total in order |
| Reassembly.AllPresent | runtimehost/messaging/ims_inbound_sms.go:632-643 | as many parts as the total, all within 1..total, are all of them |
| Reassembly.FirstCopyStays | runtimehost/messaging/ims_inbound_sms.go:628-631 | a part that has come keeps its text; a later copy changes only the set's time |
| Reassembly.StepKeepsTableValid | runtimehost/messaging/ims_inbound_sms.go:583-698 | every step keeps at most 64 sets, part numbers in 1..total, and at least one part missing |
| SmsRoundTrip.CompletesExactlyOnLastPart | runtimehost/messaging/ims_inbound_sms.go:583-658 | in every run, deliveries of a set return nothing until the last missing part, which returns the contents under the header of the latest part 1 and removes the set |
| SmsTiming.LiveIffRecent | runtimehost/messaging/ims_inbound_sms.go:668-678 | a set outlives the cleanup if and only if its latest delivery in the run is at most ten minutes ago |
| SmsTiming.UndisturbedInTime | runtimehost/messaging/ims_inbound_sms.go:583-698 | deliveries at most ten minutes apart, with fewer than 64 other sets active, neither expire the set nor crowd it out |
| SmsTiming.RoundTrip | runtimehost/messaging/messaging.go:774-793 | the parts of a segmentation, delivered in any order with duplicates and other traffic, in time, return nothing until the last missing part and then exactly the original text |
| SmsTiming.ExpiredContributesNothing | runtimehost/messaging/ims_inbound_sms.go:668-678 | a set whose latest delivery is more than ten minutes ago contributes nothing: a delivery to it starts afresh |
| SmsTiming.EvictedIsEarliest | runtimehost/messaging/ims_inbound_sms.go:680-698 | a set dropped for want of room is the only one, and the one whose latest delivery in the run is earliest |
| SmsRoundTrip.SinglePartRoundTrip | runtimehost/messaging/messaging.go:741-754 | a text that fits one part comes back at once and leaves the table alone |
| Quoting.QuoteValue | runtimehost/e911/ims_headers.go:1409-1420 | the printing loop computes the quoted form |
| Quoting.Unquote | runtimehost/e911/ims_headers.go:950-973 | the unquoting loop removes the quotes and escapes of a quoted value and leaves others alone |
| Quoting.UnquoteQuote | runtimehost/e911/http_auth.go:509-543 | unquoting undoes quoting for every value |
| SipHeaders.SplitSegments | runtimehost/e911/ims_headers.go:841-892 | the quote, escape and angle loop computes the specified split, errors included |
| SipHeaders.SplitList | runtimehost/e911/ims_headers.go:841-892 | splitting undoes joining whole segments, whatever separators hide in quotes and angles |
| HeaderForms.SplitAcceptsIff | runtimehost/e911/ims_headers.go:841-892 | the splitter accepts exactly the texts that are whole segments joined by the separator, and returns those |
| HeaderForms.UnbalancedIsRefused | runtimehost/e911/ims_headers.go:841-892 | a stray closing angle, an open angle and an open quote are refused |
| SipHeaders.ParseParams | runtimehost/e911/ims_headers.go:894-948 | the parameter loop computes the specified map, errors included |
| HeaderForms.MixedCaseName | runtimehost/e911/ims_headers.go:894-929 | a parameter is stored under its name in lower case, however it was written |
| HeaderForms.QuotesMustPair | runtimehost/e911/ims_headers.go:931-948 | a value is accepted if and only if it has no quotes or a pair at its ends |
| Geolocation.ParseValue | runtimehost/e911/ims_headers.go:784-812 | the value parser computes the specified result |
| Geolocation.ParseHeader | runtimehost/e911/ims_headers.go:315-333 | the header parser computes the specified list |
| Geolocation.ParamsRoundTrip | runtimehost/e911/ims_headers.go:248-289 | parsing printed parameters gives them back, including quotes and backslashes |
| Geolocation.ValueRoundTrip | runtimehost/e911/ims_headers.go:748-782 | a printed value is one segment and parses back to itself |
| Geolocation.HeaderRoundTrip | runtimehost/e911/ims_headers.go:335-343 | parsing a built header gives back the same list of values |
| HeaderForms.BareValueRead | runtimehost/e911/ims_headers.go:784-812 | a URI without angles reads like one in angles, up to the first semicolon |
| HeaderForms.BadValuesAreRefused | runtimehost/e911/ims_headers.go:784-812 | a missing angle, text after the URI and an empty URI are refused |
| HeaderForms.AngledUriFormats | runtimehost/e911/ims_headers.go:748-782 | a URI that brings its angles prints like the plain one, and parameters given besides override its own |
| HeaderForms.NormalizedName | runtimehost/e911/ims_headers.go:230-246 | a parameter is printed under its name in lower case with its value trimmed |
| HttpAuth.SplitParams | runtimehost/e911/http_auth.go:386-415 | the parameter splitter computes the specified parts |
| HttpAuth.SplitChallenges | runtimehost/e911/http_auth.go:417-471 | the challenge splitter computes the specified challenges |
| HttpAuth.ParseParams | runtimehost/e911/http_auth.go:314-384 | the parameter loop, with merged repetitions and continued qop lists, computes the specified map |
| HttpAuth.Parse | runtimehost/e911/http_auth.go:286-312 | one challenge is read as scheme, raw text and parameters |
| HttpAuthLists.BareQopList | runtimehost/e911/http_auth.go:314-384 | a qop list that is not quoted reads as both tokens, once each |
| HttpAuthLists.RepeatedParameter | runtimehost/e911/http_auth.go:341-384 | of a repeated parameter stale is true if either is, qop lists are joined, and of others the later value stays |
| HttpAuthLists.SchemeAlone | runtimehost/e911/http_auth.go:286-312 | a scheme alone is a challenge without parameters, and a blank text none |
| DigestChallenge.SplitHeader | runtimehost/e911/http_auth.go:417-471 | splitting joined challenges gives back their texts, whatever commas the quoted values hold |
| DigestChallenge.ParsePrinted | runtimehost/e911/http_auth.go:286-339 | parsing a printed challenge gives back its scheme and its parameters |
| DigestChallenge.PrintedReadsBack | runtimehost/e911/http_digest.go:151-246 | a Digest challenge printed and parsed holds exactly its canonical parameters |
| DigestChallenge.ChallengesRoundTrip | runtimehost/e911/http_digest.go:151-182 | any list of Digest challenges, printed, joined, split and parsed, yields the canonical parameter maps one by one |
| HttpAuthLists.OthersStayRaw | runtimehost/e911/http_digest.go:151-160 | a challenge that is not Digest, or lacks realm or nonce, is passed on as it came |
| DigestCanonical.ValuesComeBack | runtimehost/e911/http_digest.go:151-246 | realm and nonce come back trimmed, opaque as given, algorithm, stale and qop up to spelling |
| DigestCanonical.QopIsFixed | runtimehost/e911/http_digest.go:220-232 | canonicalising a qop list again changes nothing |
| DigestCanonical.CanonicalValuesAreFixed | runtimehost/e911/http_digest.go:195-246 | canonicalising what was read back gives the same values |
| DigestCanonical.ReadBackReprints | runtimehost/e911/http_digest.go:151-246 | a challenge read back is printable, canonical, and prints as the same text |
| DigestCanonical.HeaderReprints | runtimehost/e911/http_digest.go:151-182 | a printed list, read and printed again, is the same header; canonical parameters come back unchanged |
| Multipart.ChooseBoundary | runtimehost/e911/ims_headers.go:1345-1361 | the search ends for all bodies, at the first candidate that collides with neither, whose number is at most their length plus one |
| Multipart.CollisionBound | runtimehost/e911/ims_headers.go:1345-1361 | if the first n numbered candidates all collide, the bodies are at least n long |
| Multipart.Build | runtimehost/e911/ims_headers.go:491-529 | succeeds exactly for a location, usable differing identifiers and a valid boundary that collides with neither body; without a configured boundary, and for bodies below 10^57 octets, the boundary never fails; a reader recovers both payloads |
| Multipart.ThreeDelimiters | runtimehost/e911/ims_headers.go:1328-1343 | in a built body the delimiter begins a line exactly three times |
| Multipart.ReadUndoesBuild | runtimehost/e911/ims_headers.go:491-529 | splitting a built body at its delimiters recovers both parts unchanged, each under its type, identifier and disposition |
| Multipart.ContentIdForms | runtimehost/e911/ims_headers.go:1363-1381 | an identifier given bare, in angles or after `cid:` is the same, and a blank one the fallback |
| Multipart.IdsMustDiffer | runtimehost/e911/ims_headers.go:491-506 | two identifiers can stand together if and only if they differ in more than case |
| IpTransactions.RollbackRestoresIff | engine/swu/tun_routing.go:370-416 | whatever routes there are, undoing accepted commands last to first restores objects, routes and counts if and only if the routes they installed took free places |
| IpTransactions.PlaceIsTaken | engine/swu/tun_routing.go:389-401 | a place that a command takes holds, after all of them, a route that one of them installed |
| IpTransactions.PlaceEndsEmpty | engine/swu/tun_routing.go:370-416 | undoing the commands leaves every place they took empty |
| IpTransactions.ForeignRouteIsLost | engine/swu/tun_routing.go:221-253 | a route that nobody counts is overwritten by an exclusion in its place and lost when the exclusion is undone |
| IpTransactions.Manager.Run | engine/swu/tun_routing.go:389-401 | one command is done or has no effect; a counted shared route cannot fail |
| IpTransactions.Manager.UndoOne | engine/swu/tun_routing.go:403-416 | a release takes one off the count and the last one runs the command, which may fail and leave the route |
| IpTransactions.Manager.RunUndo | engine/swu/tun_routing.go:370-387 | runs the undo list backwards past failures, and reports whether there were any |
| IpTransactions.Manager.Apply | engine/swu/tun_routing.go:102-134 | success does every command and lists their undos; a failure reverts what was done, and without failing undos restores everything if and only if the routes took free places |
| IpTransactions.Manager.Cleanup | engine/swu/tun_routing.go:136-145 | reverts the listed undos, all of them when it reports no error |
| IpTransactions.CleanupIsHarmlessIff | engine/swu/xfrm.go:85-122 | cleaning up changes nothing exactly when no undo names a present object or a counted route |
| IpTransactions.FailedStateMustNotBeCleaned | engine/swu/tun_routing.go:117-131 | cleaning up the state of a failed Apply takes away a route that another session holds |
| SharedRoutes.StepKeepsInv | engine/swu/tun_routing.go:102-145 | every turn of every session, failing undos included, keeps counts equal to the live records |
| SharedRoutes.CountsAreHolders | engine/swu/tun_routing.go:389-416 | in every interleaving, whatever fails, a key's count is the number of live records holding it |
| SharedRoutes.SecondPathOverwrites | engine/swu/tun_routing.go:221-253 | two exclusions of one destination by different paths leave a counted key without its route |
| SharedRoutes.InstalledWhileCountedIff | engine/swu/tun_routing.go:221-253 | in all runs over a set of keys a counted route is installed if and only if no two keys give one place different paths |
| SharedRoutes.RecordsAreInstalled | engine/swu/tun_routing.go:102-145 | without failing undos, and with places of the keys' own, the kernel holds exactly the routes and objects it held at first and those that the live records call for |
| SharedRoutes.OnlyTheLastReleaseDeletes | engine/swu/tun_routing.go:403-416 | when no undo fails and keys have places of their own, a shared route goes only when its last holder undoes it |
| SharedRoutes.FinishedSessionLeavesNothing | engine/swu/tun_routing.go:102-145 | under the same conditions a session that failed or was cleaned up leaves objects, routes and counts as they were |
| SharedRoutes.ForeignRouteGoes | engine/swu/tun_routing.go:221-253 | a session that excludes a destination with a route of its own comes and goes, and that route is gone |
| SharedRoutes.OtherPathGoes | engine/swu/tun_routing.go:221-253 | a second session by another path comes and goes, and the first one's route is gone |
| SharedRoutes.LeavesNothingIff | engine/swu/tun_routing.go:102-145 | in all runs over given keys and initial routes without failing undos, sessions leave nothing behind if and only if the keys have places of their own that no route had at first |
| SharedRoutes.SharedKeyIsInjective | engine/swu/tun_routing.go:253 | two undo commands share a key only if they are the same command |
| PrefixRange.CommonBits | engine/swu/xfrm.go:645-656 | the loop finds the first bit in which the two ends differ |
| PrefixRange.SpansIffAligned | engine/swu/xfrm.go:645-664 | spanning a prefix is being an aligned range of its size |
| PrefixRange.PrefixRangeIff | engine/swu/xfrm.go:645-668 | the addresses between the ends are exactly those sharing p bits if and only if their number is 2^(bits-p) and divides the start |
| PrefixRange.SinglePrefixRange | engine/swu/xfrm.go:645-668 | returns a prefix length if and only if the range is one prefix, for equal non-zero lengths |
| Liveness.IkeLiveness.RecordInbound | engine/swu/ike_liveness.go:108-121 | inbound traffic clears the probes and revives the peer, and moves the inbound time forward only |
| Liveness.IkeLiveness.RecordOutbound | engine/swu/ike_liveness.go:123-133 | outbound traffic moves the keepalive time forward only |
| Liveness.IkeLiveness.RecordProbeResult | engine/swu/ike_liveness.go:135-153 | an answer counts as inbound; a failure is charged while a probe is outstanding |
| Liveness.IkeLiveness.Advance | engine/swu/ike_liveness.go:155-176 | a poll changes the state and reports as the specified machine does |
| Liveness.IkeLiveness.AdvanceDpd | engine/swu/ike_liveness.go:195-223 | the probe part of a poll does as the specified machine does |
| LivenessHistory.InboundIsLatest | engine/swu/ike_liveness.go:108-121 | after every run the inbound time is the latest of establishment and all receptions |
| LivenessHistory.OutboundIsLatest | engine/swu/ike_liveness.go:123-133 | in runs whose times do not decrease, the outbound time is the latest of establishment and all that was sent |
| LivenessHistory.DeathIsDeserved | engine/swu/ike_liveness.go:155-223 | in every run, whatever the clock, death takes exactly MaxMissed probes, and the interval plus MaxMissed timeouts from establishment and from every reception |
| LivenessHistory.ProbesKeepTheInterval | engine/swu/ike_liveness.go:195-215 | a first probe keeps the interval from establishment and from every reception |
| LivenessHistory.KeepalivesKeepTheInterval | engine/swu/ike_liveness.go:155-176 | a keepalive keeps its interval from establishment and from all that was sent |
| LivenessHistory.ReportTells | engine/swu/ike_liveness.go:225-245 | a poll reports the number of probes sent, the silence since the latest reception, and when an outstanding probe times out |
| Liveness.Normalize | engine/swu/ike_liveness.go:267-289 | a configuration is accepted exactly when nothing is negative and, with probes, the timeout is within the interval, defaults filled in |
| Liveness.PollAtDue | engine/swu/ike_liveness.go:155-265 | a poll at the due time declares death exactly at the deadline, and before it leaves the deadline where it was |
| Liveness.SilentPeerDiesOnTime | engine/swu/ike_liveness.go:155-265 | a peer never heard again, polled when due, is declared dead at exactly establishment plus the interval plus MaxMissed timeouts |
| LivenessHistory.SilenceEndsInDeath | engine/swu/ike_liveness.go:155-265 | after every run that ends in a poll, silence ends in death at the time given by the latest reception, or by the latest probe and the probes left |
| Liveness.SessionDeathTakesHalf | engine/swu/packet_session.go:632-692 | in every sequential session run with a probe handler a dead peer was sent exactly ⌈MaxMissed/2⌉ probes, each a timeout apart |
| LivenessHistory.SessionInboundIsLatest | engine/swu/packet_session.go:632-692 | in session runs the inbound time is the latest of establishment, receptions and answers |
| LivenessHistory.SessionDeathIsLate | engine/swu/packet_session.go:632-692 | the last of those probes comes no earlier than the interval and all timeouts but one after every reception |
| Liveness.SessionCanDie | engine/swu/packet_session.go:660-690 | every configuration with probes has a session run that ends dead |
| Liveness.SessionDeathIsWholeIff | engine/swu/packet_session.go:632-692 | all session runs that end dead sent MaxMissed probes if and only if there is no handler, probes are off, or MaxMissed is one |
| Liveness.TwoProbesEndADefaultSession | engine/swu/packet_session.go:660-690 | with the default configuration, whose limit is three, two failed probes end the session |
| Liveness.DueIsExactAlongRuns | engine/swu/ike_liveness.go:247-265 | after every run, the due time is later than now, earlier polls do nothing, and a poll at it acts |
| Liveness.ShortKeepaliveBreaksDue | engine/swu/ike_liveness.go:247-265 | a shorter keepalive interval makes a keepalive due before the reported time |
| Liveness.DueIsExactIff | engine/swu/ike_liveness.go:155-265 | the due time is exact after every run if and only if keepalives are off, probes are off, or the keepalive interval is at least the timeout |
| Rekey.Normalize | engine/swu/packet_session.go:261-275 | a policy is used exactly when enabled with a lead time below its lifetime |
| Rekey.ChildSaRekey.Advance | engine/swu/packet_session.go:136-155 | a poll's due and expiry times are the window's and the state's own, and it is due exactly from the due time |
| Rekey.ChildSaRekey.Turn | engine/swu/packet_session.go:490-516 | a poll rekeys when due and records the time on success |
| Rekey.NeverExpires | engine/swu/packet_session.go:435-516 | with polls at most the lead time apart and successful exchanges, no poll of any run finds the SA expired |
| Rekey.NeverExpiresIff | engine/swu/packet_session.go:218-259 | for every gap, no poll of any run with events at most the gap apart finds the SA expired if and only if the gap is within the lead time |
| Rekey.NextDueRekeys | engine/swu/packet_session.go:136-165 | polling at the reported time rekeys there and not before, and is too late only without a lead time |
| Rekey.WindowAddsUp | engine/swu/packet_session.go:218-259 | the remaining times of a window lead to its due and expiry times, and its age back to establishment |
| Backoff.RetryDelay | runtimehost/messaging/ims_retry.go:576-591 | the loop computes the capped doubling without leaving 64 bits |
| Backoff.RecoveryDelay | runtimehost/imsregistrar.go:1027-1051 | the loop, with its defaults, computes the capped doubling without leaving 64 bits |
| Backoff.LoopsAgreeIff | runtimehost/imsregistrar.go:1027-1051 | both loops agree if and only if the base is within the cap or it is not the first failure |
| Backoff.Monotone | runtimehost/messaging/ims_retry.go:576-591 | delays grow with the attempt, from the base to at most the cap |
| Backoff.CappedDoubling | runtimehost/messaging/ims_retry.go:576-591 | the delay is min(cap, base·2^(n-1)), except that an odd cap replaces the value one below it |
| Backoff.RecoveryIsCapped | runtimehost/imsregistrar.go:1027-1051 | the recovery delay is the capped doubling, with thirty seconds where no cap is configured |
| Recovery.RecoveryBook.RecordFailure | runtimehost/imsregistrar.go:999-1015 | the streak grows and the next attempt waits for its backoff |
| Recovery.RecoveryBook.RecordSuccess | runtimehost/imsregistrar.go:1017-1025 | the streak and the waiting time are cleared |
| Recovery.SchedulingCovers | runtimehost/imsregistrar.go:980-991 | scheduling after the recorded time has gone by only moves the next attempt back, and covers backoff, earlier waits and the new delay |
| Recovery.PromiseKept | runtimehost/imsregistrar.go:980-991 | until the next attempt starts, the end of a scheduled Retry-After is never brought forward |
| Recovery.NextKeepsInv | runtimehost/imsregistrar.go:883-978 | every step keeps the recorded time no earlier than backoff and Retry-After call for |
| Recovery.AttemptsAreSpaced | runtimehost/imsregistrar.go:883-978 | in every interleaving an attempt starts no earlier than the latest failure plus the streak's backoff |
| Recovery.FailuresAreStreak | runtimehost/imsregistrar.go:999-1025 | the recorded failures are those since the last success |
| Recovery.AttemptAfterFailureWaits | runtimehost/imsregistrar.go:883-1051 | an attempt after a recorded failure, with no success between, waits for the current streak's backoff from it |
| Recovery.RetryAfterSurvivesCancellation | runtimehost/imsregistrar.go:920-991 | the first attempt after a scheduled Retry-After waits for its end, even if the wait was cancelled |
| Recovery.RecoveryReachesAttempt | runtimehost/imsregistrar.go:883-978 | a recovery that is entered, and neither cancelled nor closed, starts an attempt, and no later than the recorded time and the Retry-After call for |
| Recovery.UnregisteredStops | runtimehost/imsregistrar.go:950-958 | after an answer that leaves the subscriber unregistered no attempt starts until something registers it again |
| Recovery.NothingComesOfIt | runtimehost/imsregistrar.go:914-964 | a failed reset ends the recovery without an attempt, and a success that finds it closed changes nothing |
| RetryQueue.BeforeIsTotal | runtimehost/messaging/ims_retry.go:618-632 | the comparator is asymmetric, and leaves untold apart only equal due and creation times, operations and keys |
| RetryQueue.OrderOfFields | runtimehost/messaging/ims_retry.go:618-632 | the comparator puts unset due times first, then goes by due time, creation time, operation and key |
| Order.LessIsLexicographic | runtimehost/messaging/ims_retry.go:618-632 | strings compare at their first difference, a prefix first |
| RetryQueue.DueSomeTimeIff | runtimehost/messaging/ims_retry.go:214-233 | an envelope falls due some time if and only if Upsert keeps it and its state is pending |
| RetryQueue.SortIsCorrect | runtimehost/messaging/ims_retry.go:262-264 | sorting orders the slice and keeps its elements |
| RetryQueue.SortIsStable | runtimehost/messaging/ims_retry.go:262-264 | envelopes the comparator does not tell apart keep their order |
| RetryQueue.ListingIsUnique | runtimehost/messaging/ims_retry.go:253-283 | a map of slots to envelopes has one sorted listing |
| RetryQueue.Queue.Upsert | runtimehost/messaging/ims_retry.go:253-265 | a listing of a map becomes the listing of the updated map |
| RetryQueue.Queue.Delete | runtimehost/messaging/ims_retry.go:267-283 | a listing of a map becomes the listing of the map without the matching slots |
| RetryQueue.Queue.Due | runtimehost/messaging/ims_retry.go:285-287 | returns the specified selection |
| RetryQueue.SelectDue | runtimehost/messaging/ims_retry.go:289-306 | filter, sort and limit compute the specified selection |
| RetryQueue.SelectedAreDue | runtimehost/messaging/ims_retry.go:289-306 | the selection holds due envelopes of the slice, in order, as many as the limit allows |
| RetryQueue.SelectedAreLeast | runtimehost/messaging/ims_retry.go:289-306 | no omitted due envelope belongs before a selected one |
| RetryQueue.SelectedAreEarliest | runtimehost/messaging/ims_retry.go:289-306 | what is selected is due no later, and among equals no younger, than any due envelope left out |
| RetryQueue.DueFromListing | runtimehost/messaging/ims_retry.go:285-306 | from a listing the selection is a prefix of the due envelopes, and without a limit all that the map holds |
| RetryQueue.SliceListsMap | runtimehost/messaging/ims_retry.go:253-283 | after any history of Upsert and Delete the slice lists a map of replayable envelopes under their own slots |
| RetryQueue.SliceIsInOrder | runtimehost/messaging/ims_retry.go:253-265 | in every reachable slice an earlier envelope is due no later than a later one, and among equals no younger |
| RetryQueue.SliceDependsOnMapOnly | runtimehost/messaging/ims_retry.go:253-283 | histories that leave the same map leave the same slice |
| RetryQueue.LastChangeDecides | runtimehost/messaging/ims_retry.go:253-283 | a slot holds what the last change that touched it left there |
| RetryQueue.UnrelatedChangesCommute | runtimehost/messaging/ims_retry.go:253-283 | changes of unrelated slots leave the same slice in either order |
| RetryChain.Normalized | runtimehost/messaging/ims_retry.go:439-454 | a policy has a positive bound and a base within its cap; usable policies stay, and the default has four attempts |
| RetryChain.SmsToken | runtimehost/messaging/ims_sms.go:235-259 | the loop computes a token: token characters, with a dash for every stretch of others |
| RetryChain.PartKeysDiffer | runtimehost/messaging/ims_retry.go:416-429 | different parts, and parts of different messages, have different keys |
| RetryAnswers.SessionKeysDiffer | runtimehost/messaging/ims_retry.go:431-437 | sessions with different identifiers have different keys |
| RetryAnswers.KeysOfNameless | runtimehost/messaging/ims_retry.go:416-437 | the peer stands in for a missing message identifier, and the command for a missing session identifier |
| RetryAnswers.WordsAreDashed | runtimehost/messaging/ims_sms.go:235-259 | a stretch of other characters between two words becomes one dash |
| RetryChain.FirstRecords | runtimehost/messaging/messaging.go:516-522 | a first send records attempt one under the request's own key, pending exactly when the answer is retryable |
| RetryChain.ReplayRecords | runtimehost/messaging/messaging.go:391-482 | a replay records the same request's next attempt under the same key, pending exactly when retryable and below four |
| RetryAnswers.FirstIsRecordedAsAnswered | runtimehost/messaging/ims_retry.go:483-556 | by status code: a first send is pending or cleared, and due, as its answer says |
| RetryAnswers.ReplayIsRecordedAsAnswered | runtimehost/messaging/ims_retry.go:483-556 | by status code: a replay is pending below four attempts or cleared, and due, as its answer says |
| RetryAnswers.ReplayIsNextAttempt | runtimehost/messaging/messaging.go:468-482 | whichever attempt numbers an envelope has lost, its replay is the next attempt |
| RetryChain.ReplayKeepsKeyIff | runtimehost/messaging/messaging.go:391-466 | for any due envelope a replay keeps the key if and only if the key it hands on is blank or the same |
| RetryChain.RecordingTouchesOwnSlot | runtimehost/messaging/ims_retry.go:160-212 | recording fills or clears the request's own slot and no other |
| RetryChain.Service.RecordRetry | runtimehost/messaging/messaging.go:314-325 | a pending envelope is upserted, any other with a key deleted; a refused write changes nothing |
| RetryChain.Service.Replay | runtimehost/messaging/messaging.go:327-351 | sends once exactly when due with a transport, and records the next envelope |
| RetryChain.ChainIsBounded | runtimehost/messaging/ims_retry.go:522-556 | whatever the answers, a chain has at most four sends, numbered from one, under one key, each waiting for the delay planned before it |
| RetryChain.FourSendsAreReached | runtimehost/messaging/ims_retry.go:142-148 | the bound of four is reached when the peer stays unreachable |
| RetryChain.ChainCleansUp | runtimehost/messaging/messaging.go:314-427 | the chain's record is stored while a retry is planned, the final step deletes that very record, and no other slot changes |
| RetryRuns.SendsAreBounded | runtimehost/messaging/messaging.go:327-482 | in every run over the store, with drains that may hold old copies, sends since a first send are at most four, plus one per refused write and three per stale replay; with neither, the attempt number counts them |
| RetryRuns.TransmissionsAreBounded | runtimehost/messaging/messaging.go:327-482 | over a whole run a slot's transmissions are at most four per first send, plus one per refused write and three per stale replay |
| RetryRuns.PartIsSentAtMostFourTimes | runtimehost/messaging/messaging.go:353-427 | a part of a message is handed to the transport at most four times, plus one per refused write and three per stale replay of it |
| RetryExcess.RefusedWritesRepeat | runtimehost/messaging/messaging.go:314-325 | each write that the store refuses lets the same record be sent once more |
| RetryExcess.BoundIsReached | runtimehost/messaging/messaging.go:314-371 | for any numbers of refused writes and stale replays some run of one first send reaches the bound |
| RetryExcess.KeepsToFourIff | runtimehost/messaging/messaging.go:314-371 | all runs with given numbers of refused writes and stale replays keep to four sends if and only if both are zero |
| RetryExcess.ReplayUpdatesRecordIff | runtimehost/messaging/messaging.go:391-466 | replaying a stored envelope updates or removes its record if and only if the key does not drift; otherwise the record stays |
| RetryExcess.DriftingRecordIsSentForever | runtimehost/messaging/messaging.go:373-466 | a record whose key drifts is sent by every drain, whatever is answered |
| RetryExcess.OwnKeyDrifts | runtimehost/messaging/ims_retry.go:331-352 | a USSD envelope made with the caller's own idempotency key is such a record |

## Left out

- Sockets, TUN devices, the `ip` executable, DNS, HTTP and SIP transports: only as steps that may fail.
- ESP, IKEv2 exchanges, EAP-AKA, calls, redaction, entitlement JSON and XML, the entitlement cache, MOBIKE and the dialog wrappers of `runtimehost/types.go` are not modelled.
- Udh.Parse: only languages, ports and concatenation are recorded; raw elements, special indications, SMSC control, source indicators and the email header are skipped.
- SmsTiming.RoundTrip: a part's text and header arrive unchanged; the TPDU and septet codecs between the two ends are not modelled, and the clock does not run backwards.
- Chunking.TakeUnits: the GSM 7-bit tables are two arbitrary sets of runes, so which characters they hold is not modelled.
- Segmentation.Segment: the choice of encoding, the validity period and other fields copied to every part are not modelled; ⌈length/limit⌉ is exact integer arithmetic.
- Geolocation.HeaderRoundTrip: parameter names are visited in sorted order where Go leaves the order of a map open, which matters only for names that collide in lower case.
- DigestChallenge.ChallengesRoundTrip: the printer keeps six parameters and their canonical forms, so that is what comes back; others are dropped by the printer itself.
- Multipart.Build: octets are characters, and the Content-Type value that announces the boundary is not modelled.
- IpTransactions.Manager.Apply: commands are link settings, private additions and shared replacements; private additions and shared routes are different kernel objects, the builders that make commands from addresses are not modelled, and the XFRM manager is the same transaction without shared keys.
- SharedRoutes.RecordsAreInstalled: holds for runs in which no undo fails and the keys' places are their own; `CountsAreHolders` and `InstalledWhileCountedIff` need no undo to succeed.
- Liveness.SessionDeathTakesHalf: session polls do not overlap, and a probe's result arrives at the time of its poll.
- Rekey.ChildSaRekey.Turn: the exchange takes no time, and the swap of keys is not modelled.
- Recovery.AttemptsAreSpaced: setting a Retry-After and beginning to wait for it is one step; contents of the registration are not modelled.
- RetryQueue.SortIsCorrect: Go's stable sort is modelled by stable insertion; reuse of the slice's backing array by Delete is not modelled.
- RetryChain.ReplayRecords: what the SIP layer makes of a response is an arbitrary input; duplicate risk, chosen action and reason texts are not modelled.
