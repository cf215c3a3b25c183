# Verified model of Vesma's stateful protocols

Vesma is a memory server for agents. This project models the protocols and text
transformations its guarantees rest on, and proves those guarantees over every
input and every run:

- the awareness cursor with its rate limiters, slots, relevance order and
  heartbeat envelope (`RateLimiter`, `Awareness`, `Ordering`, `Slots`, `Envelope`),
- agent tokens: scope grammar, base64url, signed envelope, registry, and all
  interleavings of issue, rotate, revoke and validate (`Scope`, `Base64Url`,
  `TokenEnvelope`, `TokenRegistry`, `TokenRuns`),
- context rewrite events with content-addressed idempotency (`RewriteEvents`),
- timestamp forms and what their string order means (`Timestamps`,
  `MetadataTimestamps`),
- CCR markers, the cache aligner and the original cache (`Marker`, `Aligner`,
  `MarkerSurvival`, `Ccr`),
- document chunking and the born-quarantined row lifecycle (`Chunker`,
  `DocIngest`),
- the asynchronous result registry and the budget stage (`AsyncRegistry`,
  `Budget`).

`Text` holds Python's string operations as the program uses them. Where the source
updates state, a class with the same fields has one method per operation, and each
method's `ensures` equates its effect with a function or transition; the lemmas then
speak about every run of those transitions. `dafny verify dfyconfig.toml` checks the
whole project.

## Where the code and its documentation differ

The model follows the code. Each difference is a theorem.

- The heartbeat probe compares `created_at > since` while the feed listing compares
  `>=` (`src/vesmaro/storage/sqlite_store.py:3055-3060`). A row committed exactly on the
  cursor is held back until a later row arrives: `Awareness.CalmHidesOnlyTheBoundary`.
- The heartbeat envelope is documented as never exceeding its token ceiling
  (`src/vesmaro/awareness.py:1805-1812`). The emitted text has one newline more than the
  measured one and can exceed it by one token: `Envelope.CeilingExactly`.
- `_memory_timestamp` drops a zero fraction, so its strings do not always sort as time:
  `Timestamps.MemoryTimestampOrder`, with a failing pair in
  `Timestamps.HalfSecondSortsWrongly`.
- The canonical index form is documented as fixed width, string order being time order
  (`src/vesmaro/compact.py:529-534`). It prints the year with a `%Y` that does not pad, so
  that holds on 1000-9999; `MetadataTimestamps.CanonicalSortsExactly` says when it holds
  in general and `Timestamps.ShortYearsSortWrongly` is a failing pair.
- `compress` promises a marker that redeems for the original
  (`src/vesmaro/ccr.py:18-23`). In a full cache whose every row has been retrieved, the row
  just stored is the first to be evicted: `Ccr.MarkerRedeemsExactly`, with such runs in
  `Ccr.FullCacheRefuses`.
- A marker is documented to stay byte-identical under alignment in every profile
  (`src/vesmaro/cache_aligner.py:96-104`). A hand-written one with a run of blanks is
  shortened, yet keeps its hash and sizes: `MarkerSurvival.MarkerSurvives`, with such a
  marker in `MarkerSurvival.LooseMarkerIsRespelled`.
- `set_grace` is documented to shorten a token's life (`src/vesmaro/agent_tokens.py:551-552`).
  It overwrites an existing deadline, so it can also extend it, and revive a token whose
  grace has run out; only rotation guards against it: `TokenRuns.SetGraceAloneExtends`,
  `TokenRuns.SetGraceRevivesExactly`.

## Idealisations

- SHA-256: the rewrite key is the canonical text itself. The CCR digest is any function that
  does not collide on the texts of the run in question and hashes the text at hand to 64 hex
  digits; `Ccr.LengthDigestTellsApart` exhibits one. Ed25519 signs only what was signed, JSON is an injective serialiser,
  jtis and ids are fresh.
- Clocks are integers, microseconds or seconds, and arrive as parameters. `ttl_hours` is a
  rational, so a lifetime below a second truncates to zero.
- Detector verdicts, filter output, token estimates, query overlaps, rendered peer lines and
  the raw matches of the dynamic-literal patterns are arbitrary parameters. Decimal digits
  outside ASCII are a parameter too, since the marker expression accepts them.
- SQLite is the table it stores. The order of ties at the 200-row cut is left open; ties in
  eviction order are broken by rowid.

## Model

| member | source | states |
|---|---|---|
| Awareness.Composer.ReadWindow | src/vesmaro/awareness.py:882-894 | the visible rows of the listing and their newest stamp, from the loop over the feed |
| Awareness.Composer.ComposeHeartbeat | src/vesmaro/awareness.py:1901-1972 | one heartbeat call, suppressed, calm or delivered, leaves exactly the state and outcome of the transition the run lemmas are about; the listing is consulted only after the probe |
| Awareness.Composer.Deliver | src/vesmaro/awareness.py:1955-1972 | the delta leg reads the window and writes the cursor one microsecond past what it read, before anything is returned |
| Awareness.RunKeepsInv | src/vesmaro/awareness.py:1365-1375 | over every run, each window opens at the one-hour clamp or at the cursor an earlier composition of the same key left, and the stored cursor is the largest recorded |
| Awareness.ReadsAreDisjoint | src/vesmaro/awareness.py:1955-1972 | in every run of commits, status changes and compositions, two compositions of one key read disjoint row sets, and the cursor grows strictly from one to the next |
| Awareness.NoSilentLoss | src/vesmaro/awareness.py:882-894 | in every run each row of the project is ahead of the cursor, was read, or was passed over for one of four named reasons: committed late with a stamp below the cursor, older than the clamp, dropped by status, past the newest 200 |
| Awareness.DeltaReadsItsWindow | src/vesmaro/awareness.py:1040-1095 | a delivered composition reads exactly the visible rows of its window that are not past the cut |
| Awareness.CalmHidesOnlyTheBoundary | src/vesmaro/storage/sqlite_store.py:3036-3062 | the probe compares strictly while the listing does not; the heartbeat stays calm over an unread visible row if and only if such a row sits exactly on the window start and no unarchived row is stamped after it |
| Awareness.BoundaryRowIsHeldBack | src/vesmaro/storage/sqlite_store.py:3055-3061 | a run of two commits and two compositions whose last heartbeat is calm over a visible, unread row committed on the cursor microsecond |
| Awareness.CapSuppressesExactly | src/vesmaro/awareness.py:1886-1899 | in every run with an ascending clock a valid call is suppressed by the cap if and only if, the cap being positive, that many calls of the same project and agent were let through on that surface in the last 60 seconds; cursors, log and feed then stay |
| Awareness.DeliveredExactly | src/vesmaro/awareness.py:1886-1972 | and it is delivered if and only if it is valid, below the cap, the probe of a heartbeat succeeds with a row past the window start, the stored cursor or one hour ago, and that start is not in the future |
| Awareness.InvalidExactly | src/vesmaro/awareness.py:1878-1885 | a call is refused as invalid, with nothing changed, if and only if a name it gives is nothing but whitespace |
| Awareness.DeliveriesAreCapped | src/vesmaro/awareness.py:1669-1709 | so no 60-second window of the log holds more deliveries to one project and agent on one surface than the cap |
| RateLimiter.RateLedger.Refused | src/vesmaro/awareness.py:1669-1709 | one call of the deque limiter, loop included, is the ledger transition the lemmas are about |
| RateLimiter.DecidesByHistory | src/vesmaro/awareness.py:576-619 | with a clock that never steps back, the pruned deque refuses exactly when counting the whole admission history would |
| RateLimiter.WindowBound | src/vesmaro/awareness.py:1669-1709 | no 60-second window ever holds more than the limit of admissions of one key |
| RateLimiter.RefusedUntilOldestExpires | src/vesmaro/awareness.py:1690-1709 | a refusal uses no quota, and a refused caller is refused again exactly until its oldest counted stamp is 60 s old |
| RateLimiter.KeysAreIndependent | src/vesmaro/awareness.py:1669-1709 | what one key is granted is what it would be granted were the others never to call |
| Slots.AgentSlots | src/vesmaro/awareness.py:897-938 | grouping, per-agent sorting and the two final passes give one slot per neighbour with rows, newest activity first with ties by agent, and slot entries plus unattributed plus own rows add up to the feed |
| Slots.GroupByAgent | src/vesmaro/awareness.py:910-924 | the grouping loop leaves each named agent but the excluded one exactly its own rows in feed order, lists each once, and counts the rows without an agent |
| Slots.SummariseAgent | src/vesmaro/awareness.py:915-931 | the slot made of one agent's rows counts them all, shows the newest stamp and names the newest checkpoint, if there is one |
| Slots.SortSlots | src/vesmaro/awareness.py:932-938 | the two in-place passes order the slots and keep them |
| Slots.SlotSummarises | src/vesmaro/awareness.py:915-931 | the same of the slot function the list lemmas use |
| Slots.TallyConserves | src/vesmaro/awareness.py:910-924 | every row is counted in one slot or left out for a stated reason |
| Slots.PassesGiveRelevance | src/vesmaro/awareness.py:1774-1799 | four successive stable sorts, one of them reversed, yield the order overlap descending, checkpoint first, last seen descending, agent ascending |
| Slots.RelevanceIsTheOnlyOrder | src/vesmaro/awareness.py:1774-1799 | slots having distinct agents, that order has one arrangement: whatever the input order and the sorting algorithm, the result is the same list |
| Slots.LastSeenSortsAsTime | src/vesmaro/awareness.py:1745-1761 | the ISO strings the passes compare order as the instants do |
| Envelope.Render | src/vesmaro/awareness.py:1802-1841 | the greedy loop shows a prefix of the relevance order, at most eight lines and each only if it fits, with shown plus hidden equal to all slots and the marker line only if it fits |
| Envelope.MeasuredSize | src/vesmaro/awareness.py:1813-1841 | length and word count of the text the fit check measures, from the parts |
| Envelope.OneNewlineMore | src/vesmaro/awareness.py:1830-1841 | the emitted text is the measured one with exactly one newline more and no word more, once there is a body |
| Envelope.FitsBySizes | src/vesmaro/awareness.py:1813-1828 | a body passes the fit check if and only if frame and body have at most 483 characters, newlines counted, and at most 120 words |
| Envelope.EnvelopeIsDetermined | src/vesmaro/awareness.py:1802-1841 | frame and peer lines alone determine how many lines the loop shows and what is displayed |
| Envelope.CeilingExactly | src/vesmaro/awareness.py:1813-1841 | with a frame that fits, the emitted text is within the ceiling if and only if nothing is displayed or frame and displayed lines do not have exactly 483 characters, the one length the check lets through at the edge; otherwise it is one token over, never more |
| Envelope.HeartbeatFrameFits | src/vesmaro/awareness.py:1802-1820 | header, disclaimer and flag line of any sanitised project fit, so the previous statement applies to every heartbeat |
| Envelope.CeilingExceeded | src/vesmaro/awareness.py:1813-1841 | a family of real heartbeats that overrun the ceiling by that one token |
| Envelope.EnvelopeIsReadable | src/vesmaro/awareness.py:1813-1841 | line by line the text is header, disclaimer, an empty line if anything follows, the first peer lines in order, at most eight and as many as fit, the line counting the others if it fits, and the flag line |
| Timestamps.CanonicalOrder | src/vesmaro/compact.py:529-535 | canonical strings order and coincide exactly as the instants do, for years that print in one width |
| Timestamps.CanonicalOrderExactly | src/vesmaro/compact.py:529-535 | for any two instants the canonical strings order as time if and only if the years are one or their unpadded digits sort as the numbers do |
| Timestamps.PrintedInOrderExactly | src/vesmaro/compact.py:575-581 | in numbers: two years print in order if and only if the lesser one, filled up with zeros to the width of the greater, does not exceed it |
| Timestamps.ShortYearsSortWrongly | src/vesmaro/compact.py:575-581 | the years 999 and 1000 are a pair that sorts the wrong way |
| Timestamps.IsoUtcOrder | src/vesmaro/compact.py:281-297 | `isoformat` in UTC orders as time for every pair, dropped fraction or not |
| Timestamps.MemoryTimestampOrder | src/vesmaro/compact.py:281-297 | with `Z` for the offset an earlier instant sorts first if and only if it is not the whole second of a later fraction |
| Timestamps.HalfSecondSortsWrongly | src/vesmaro/compact.py:281-297 | ...00Z and ...00.500000Z are a pair that sorts the wrong way |
| MetadataTimestamps.CanonicalSortsExactly | src/vesmaro/compact.py:529-581 | any two accepted inputs, whatever offsets and spellings, canonicalise to strings that coincide exactly as the instants do, and order as time if and only if their UTC years print in order |
| MetadataTimestamps.CanonicalSortsAsTime | src/vesmaro/compact.py:543-581 | so all accepted inputs with years 1000 to 9999 sort as time (section 5.1 of RFC 3339) |
| MetadataTimestamps.OffsetsAreResolved | src/vesmaro/compact.py:555-581 | a full-width timestamp with any offset of whole minutes under 24 hours canonicalises to the UTC string of its fields less the offset, or is refused as future more than 300 seconds ahead |
| MetadataTimestamps.OneInstantOneString | src/vesmaro/compact.py:555-581 | so two spellings of one instant under different offsets give one string |
| MetadataTimestamps.NaiveIsUtc | src/vesmaro/compact.py:555-581 | and one that parses without an offset is read as UTC |
| MetadataTimestamps.CanonicalReadsBack | src/vesmaro/compact.py:555-581 | the canonical string parses back to the instant it was made from |
| MetadataTimestamps.CanonicaliseIdempotent | src/vesmaro/compact.py:543-581 | canonicalising an output again, then or later, changes nothing |
| Scope.ParseScope | src/vesmaro/agent_tokens.py:169-220 | the loop with its error branches computes the parse function |
| Scope.ParseExactly | src/vesmaro/agent_tokens.py:169-220 | a spec is accepted if and only if its grants are well formed, and then yields the class followed by the projects in order; nothing else about the spec matters |
| Scope.SameGrantsSameList | src/vesmaro/agent_tokens.py:169-220 | two accepted specs give one list if and only if they grant the same class and projects |
| Scope.StoredFormAgrees | src/vesmaro/agent_tokens.py:223-240 | the stored comma string and the list grant the same writes and projects |
| Scope.OutputsExactly | src/vesmaro/agent_tokens.py:169-220 | the parser puts out exactly the grant lists: a class, then at most 32 valid projects in strictly ascending order |
| Scope.ParseIsNormalising | src/vesmaro/agent_tokens.py:169-220 | joining an output and parsing it again gives it back |
| Scope.ProjectGrantExactly | src/vesmaro/agent_tokens.py:150-220 | one project grant, whatever whitespace stands around it, reads that project if and only if its slug has 1 to 64 characters, no leading whitespace and none of the excluded characters; otherwise the slug is refused |
| Scope.ClassGrantExactly | src/vesmaro/agent_tokens.py:169-220 | one class alone grants that class, a blank spec reads |
| Scope.PaddingIsIgnored | src/vesmaro/agent_tokens.py:169-220 | whitespace around the parts of any spec changes nothing |
| Scope.ClaimCheckAcceptsNormalForms | src/vesmaro/agent_tokens.py:387-399 | the claim check accepts exactly those lists, the fixed points of the parser |
| Base64Url.DecodeEncode | src/vesmaro/agent_tokens.py:275-284 | stripping and restoring the padding is lossless for all byte strings (section 5 of RFC 4648), through the lenient decoder |
| Base64Url.EncodeIsSymbols | src/vesmaro/agent_tokens.py:275-276 | an encoded segment holds only symbols of the alphabet, so no dot |
| TokenEnvelope.SegmentsReadBack | src/vesmaro/agent_tokens.py:287-330 | the three dot-separated segments are recovered uniquely |
| TokenEnvelope.EnvelopeRoundTrip | src/vesmaro/agent_tokens.py:287-370 | encoding then decoding returns the claims on exactly the acceptable claim sets; every other set fails, the version first |
| TokenEnvelope.OnlyMintedDecode | src/vesmaro/agent_tokens.py:306-348 | with an ideal signature every string the decoder accepts, however spelled, carries minted claims |
| TokenRegistry.AgentTokenStore.Register | src/vesmaro/agent_tokens.py:510-525 | adds the row of the claims |
| TokenRegistry.AgentTokenStore.RevokeJti | src/vesmaro/agent_tokens.py:527-536 | revokes one live row and says whether it did |
| TokenRegistry.AgentTokenStore.RevokeAgent | src/vesmaro/agent_tokens.py:538-549 | revokes every live row of the agent and no other, and counts them |
| TokenRegistry.AgentTokenStore.SetGrace | src/vesmaro/agent_tokens.py:551-559 | sets the grace deadline of one row |
| TokenRegistry.AgentTokenStore.LiveRows | src/vesmaro/agent_tokens.py:573-582 | the un-revoked rows of an agent, each once, latest issued first |
| TokenRegistry.AgentTokenStore.Issue | src/vesmaro/agent_tokens.py:607-652 | issues exactly the claims the checks allow, with every error case, and registers them |
| TokenRegistry.AgentTokenStore.Rotate | src/vesmaro/agent_tokens.py:655-709 | graces every eligible row and registers a copy of the newest, with every error case |
| TokenRuns.StoreRotates | src/vesmaro/agent_tokens.py:655-709 | the store method is the rotation step of the runs |
| TokenRuns.RunKeeps | src/vesmaro/agent_tokens.py:488-601 | over every interleaving of issue, rotate, revoke-one, revoke-all and crashes between signing and storing, rows mirror their claims and only ever gain a revocation or a first grace deadline |
| TokenRuns.RejectedForGood | src/vesmaro/agent_tokens.py:755-830 | a token once rejected for anything but being early is never accepted again |
| TokenRuns.RevokeAllIsFinal | src/vesmaro/agent_tokens.py:538-549 | revoke-all rejects every earlier token of the agent at every later point |
| TokenRuns.RevokeOneIsFinal | src/vesmaro/agent_tokens.py:527-536 | so does revoking one token, for that token |
| TokenRuns.OthersAreUntouched | src/vesmaro/agent_tokens.py:527-549 | a revocation or a rotation leaves the rows of all other tokens or agents as they were |
| TokenRuns.AcceptedIsYoung | src/vesmaro/agent_tokens.py:785-830 | an accepted token is less than 24 hours old |
| TokenRuns.CopyIsFaithful | src/vesmaro/agent_tokens.py:690-709 | the copy a rotation mints has audience, scope and the very lifetime of the newest eligible token, and issuing it cannot fail |
| TokenRuns.OneEligibleAfterRotation | src/vesmaro/agent_tokens.py:655-709 | after a rotation the agent has exactly one eligible token, that copy |
| TokenRuns.RotationGracesExactly | src/vesmaro/agent_tokens.py:669-692 | it gives a deadline of now plus the grace minutes to exactly the agent's rows neither revoked nor expired nor graced, and copies the one issued last |
| TokenRuns.GraceWindowExactly | src/vesmaro/agent_tokens.py:677-692 | a token graced by a rotation and not revoked since is accepted exactly from its issue to its expiry or the end of the grace, whichever is first, at every later point of the run |
| TokenRuns.OldTokensDieWithinTheHour | src/vesmaro/agent_tokens.py:655-709 | an hour after a rotation nothing minted before it for the agent is accepted, whatever happened in between |
| TokenRuns.SetGraceAloneExtends | src/vesmaro/agent_tokens.py:551-559 | called by itself on any reachable table the store method moves a deadline later if and only if the row is un-revoked, has one, and the new one is later; nothing a run does ever moves a deadline |
| TokenRuns.SetGraceRevivesExactly | src/vesmaro/agent_tokens.py:551-559 | and makes a rejected token acceptable if and only if its own grace had run out and the new deadline has not |
| TokenRuns.RotationNeverExtends | src/vesmaro/agent_tokens.py:677-689 | a rotation, cut short or not, graces only un-revoked rows without a deadline |
| TokenRuns.AcceptedStringIsMinted | src/vesmaro/agent_tokens.py:712-830 | from the string on: an accepted string carries minted claims, under a day old, of this gateway, with a live row |
| TokenRuns.IssuedStringIsAccepted | src/vesmaro/agent_tokens.py:712-830 | a stored, unmarked token that lives at least a second and fits the length cap is accepted at its gateway for its whole life |
| RewriteEvents.LengthPrefixedInjective | src/vesmaro/context_rewrite.py:148-150 | the length-prefixed text determines its parts, digits and colons included |
| RewriteEvents.KeysIdentifyEvents | src/vesmaro/context_rewrite.py:132-191 | two validated events have one key if and only if they are one event |
| RewriteEvents.EmptySessionWouldCollide | src/vesmaro/context_rewrite.py:148-150 | without the validation an absent and an empty session would share a key |
| RewriteEvents.RewriteStore.ContextRewrite | src/vesmaro/context_rewrite.py:279-463 | one delivery, branch by branch, is the delivery transition of the runs |
| RewriteEvents.RewriteStore.LinkSupersedes | src/vesmaro/context_rewrite.py:466-480 | inserts the edge once, reports whether it was new, and refuses a missing end or a self-edge |
| RewriteEvents.RewriteStore.CountRecent | src/vesmaro/storage/sqlite_store.py:4650-4675 | counts the stored events of one project and session stamped at or after the cutoff, stamps ahead of the clock included |
| RewriteEvents.RewriteStore.CountRecentByProject | src/vesmaro/storage/sqlite_store.py:4677-4704 | counts the stored events of one project stamped at or after the cutoff, stamps ahead of the clock included |
| RewriteEvents.RunKeeps | src/vesmaro/context_rewrite.py:295-463 | what every run of deliveries, crashes between memory and edge, other writes and deletions keeps |
| RewriteEvents.AtMostOneMemoryPerKey | src/vesmaro/context_rewrite.py:295-329 | in every run each event key has at most one memory |
| RewriteEvents.EdgesPointBack | src/vesmaro/context_rewrite.py:388-449 | each edge leads to an older memory of the same project, at most one per source |
| RewriteEvents.EdgesAreAcyclic | src/vesmaro/context_rewrite.py:388-480 | no path of edges returns to its start |
| RewriteEvents.RedeliveryOnlyRestoresTheEdge | src/vesmaro/context_rewrite.py:298-329 | re-delivering a stored event adds no memory, hits no quota, and adds exactly its own missing edge |
| RewriteEvents.QuotasHold | src/vesmaro/context_rewrite.py:331-386 | no 60-second window ever holds more stored events than the two quotas allow |
| RewriteEvents.StoredExactly | src/vesmaro/context_rewrite.py:331-425 | in every run a valid new event is stored, as exactly one memory and its edge, if and only if both quotas have room in the last minute and its target is a memory of its project; otherwise the first of these that fails names the refusal and nothing changes |
| RewriteEvents.InvalidExactly | src/vesmaro/context_rewrite.py:156-191 | a delivery is invalid, with nothing changed, if and only if a text it gives is nothing but whitespace or the content is too long |
| Marker.MarkerExactly | src/vesmaro/ccr.py:52-56 | a marker is exactly a text so spelled: its words, 64 lower-case hexadecimal digits, two runs of decimal digits, and whitespace where the expression allows it |
| Marker.ScanExactly | src/vesmaro/ccr.py:52-56 | the greedy scan of the marker expression finds precisely its declarative matches, so at most one per position |
| Marker.MatchAtExactly | src/vesmaro/ccr.py:52-56 | scanning at a position succeeds if and only if a marker starts there, and finds its end |
| Marker.FindAllExactly | src/vesmaro/cache_aligner.py:107-109 | `finditer` reports every marker of the text and nothing else; markers never overlap |
| Marker.ParseReadsTheFirst | src/vesmaro/ccr.py:73-87 | `parse_marker` reads the first of them, or nothing if there is none |
| Marker.BuiltIsRead | src/vesmaro/ccr.py:65-87 | a built marker is a marker wherever it stands and reads as the hash and sizes it was built from |
| Marker.ParseOfBuilt | src/vesmaro/ccr.py:65-87 | `parse_marker` of a text around a built marker returns it if and only if no marker stands before it |
| Aligner.ExtractSpans | src/vesmaro/cache_aligner.py:112-160 | the filtering loop, the stable sort and the greedy loop compute the accepted spans |
| Aligner.AcceptedAreDisjoint | src/vesmaro/cache_aligner.py:130-160 | accepted spans are eligible matches in text order, disjoint and clear of every protected region |
| Aligner.OnlyDisplacedAreDropped | src/vesmaro/cache_aligner.py:146-160 | an eligible match that is not accepted starts inside an accepted span that starts earlier, or is longer, or of a more specific kind |
| Aligner.AcceptedExactly | src/vesmaro/cache_aligner.py:146-160 | the accepted spans are the only list of disjoint eligible matches that displaces every eligible match it leaves out |
| MarkerSurvival.EligibleExactly | src/vesmaro/cache_aligner.py:127-140 | a match is a candidate if and only if neither caller nor profile skips its kind and no marker of the text overlaps it |
| Aligner.RemoveSpans | src/vesmaro/cache_aligner.py:235-243 | overwriting the character list in place, right to left, leaves the static pieces joined by single spaces |
| Aligner.Align | src/vesmaro/cache_aligner.py:163-271 | the whole method: empty text, no spans, body, listing, moved characters and the prefix flag |
| Aligner.SettledExactly | src/vesmaro/cache_aligner.py:244-247 | the two whitespace passes leave a text unchanged if and only if no blank is followed by a blank or a line feed |
| Aligner.RunSettlesExactly | src/vesmaro/cache_aligner.py:244-247 | a run of blanks vanishes in front of a line feed, becomes one space if it is two or longer, and otherwise stays; with the row above this determines the passes on every text |
| Aligner.BodyKeepsTheInk | src/vesmaro/cache_aligner.py:235-248 | every character outside the spans that is not whitespace is in the body, in order, and nothing else is |
| Aligner.PiecesRebuildTheText | src/vesmaro/cache_aligner.py:229-258 | static pieces and listed values together are the whole text |
| Aligner.PrefixIsStable | src/vesmaro/cache_aligner.py:229-258 | texts with the same static pieces have one body and one prefix through the header |
| Aligner.SameStaticTextSamePrefix | src/vesmaro/cache_aligner.py:229-258 | two texts written from one list of static pieces with different values between them, each list of values being a selection of the text's matches and hence what `align` extracts, align to one body and prefix |
| Aligner.ListingIsReadable | src/vesmaro/cache_aligner.py:250-258 | line by line the aligned text is the body, an empty line, the header and, in span order, one line per extracted value: a dash, the name of its kind, and the characters of the span |
| MarkerSurvival.MarkersAreClear | src/vesmaro/cache_aligner.py:107-160 | no accepted span touches a marker |
| MarkerSurvival.SettledMarker | src/vesmaro/cache_aligner.py:244-248 | normalising any marker, however it is spaced, gives a marker with the same hash and sizes |
| MarkerSurvival.MarkerSurvives | src/vesmaro/cache_aligner.py:235-258 | whatever the patterns match, every marker of the text is a marker of what `align` returns, at a stated place, with the same hash and sizes; its characters are unchanged if and only if nothing was extracted or it has no run the passes rewrite |
| MarkerSurvival.LooseMarkerIsRespelled | src/vesmaro/cache_aligner.py:96-104 | a marker with a second blank behind its colon is a marker and does not keep its characters |
| MarkerSurvival.BuiltMarkerSurvives | src/vesmaro/ccr.py:51-87 | whatever stands around it and whatever the patterns match, a marker as built comes through `align` byte for byte and parses to what it was built from |
| Aligner.ListingRebuildsTheText | src/vesmaro/cache_aligner.py:229-258 | the values read off the returned text, woven into the static pieces, are the text that went in |
| Aligner.MovedConserves | src/vesmaro/cache_aligner.py:260 | moved characters and static pieces add up to the text |
| Ccr.CcrCache.Store | src/vesmaro/storage/sqlite_store.py:3675-3762 | inserts a row per (project, hash) or refreshes the verdict of the one there; issuer, time and counter stay |
| Ccr.StoredExactly | src/vesmaro/storage/sqlite_store.py:3675-3762 | after a store the row of the key has the new verdict; an old one keeps text, issuer, time and counter, a new one is the stored row at the end, all others are as they were |
| Ccr.CcrCache.EvictLru | src/vesmaro/storage/sqlite_store.py:3878-3901 | removes the least retrieved, then oldest rows beyond the capacity |
| Ccr.CcrCache.Retrieve | src/vesmaro/ccr.py:198-242 | scoped or first-copy lookup, with the counter bumped on that row only |
| Ccr.CcrCache.Compress | src/vesmaro/ccr.py:90-195 | below the minimum size the text itself and no store; otherwise marker, line feed, body, the row stored and the cache trimmed |
| Ccr.RunKeeps | src/vesmaro/storage/sqlite_store.py:3675-3901 | over every run of compressions, retrievals, touches and removals keys stay unique and each row holds a compressed text under its hash |
| Ccr.RetrievedIsTheOriginal | src/vesmaro/ccr.py:198-242 | in every run whose texts do not collide under the hash, a lookup by a text's hash returns that text or nothing, and a scoped one never another project's row |
| Ccr.RankIsThePosition | src/vesmaro/storage/sqlite_store.py:3878-3901 | the eviction order has each row at its rank: the number of rows with fewer retrievals, or as many and an older stamp, or the same and a lower rowid |
| Ccr.SurvivesExactly | src/vesmaro/storage/sqlite_store.py:3878-3901 | a row outlives an eviction if and only if at least as many rows rank before it as must go |
| Ccr.MarkerRedeemsExactly | src/vesmaro/ccr.py:136-182 | after any run the marker of a compression reads as the text's hash and sizes; whoever redeems it gets exactly that text if and only if some copy of the hash they may read ranks behind as many rows as eviction takes, and nothing otherwise |
| Ccr.FreshRedeemsExactly | src/vesmaro/ccr.py:136-182 | for a text without a readable copy and the newest stamp that means: the cache has room or holds enough rows nobody has retrieved |
| Ccr.CachedRedeemsExactly | src/vesmaro/ccr.py:136-182 | for a text its project cached before it means: the old row outlives the eviction, whatever the fresh verdict |
| Ccr.FullCacheRefuses | src/vesmaro/ccr.py:136-182 | for every capacity, after compressing and reading once each as many texts as it holds, the marker of the next new text does not redeem |
| Ccr.SomeCacheRefuses | src/vesmaro/ccr.py:59-62 | such runs exist together with a digest that meets the hypotheses of the theorems above |
| Chunker.HeadingSound | src/vesmaro/docs_ingest.py:164 | what is taken as a heading matches the expression |
| Chunker.HeadingComplete | src/vesmaro/docs_ingest.py:164 | every line the expression can match is taken, with the right level |
| Chunker.TitleExactly | src/vesmaro/docs_ingest.py:164 | the title is the text between the whitespace, or the last character when there is nothing but whitespace |
| Chunker.PopFor | src/vesmaro/docs_ingest.py:236-243 | popping the stack removes exactly the open headings of the new level or deeper |
| Chunker.ChunkDocument | src/vesmaro/docs_ingest.py:200-254 | the stack algorithm yields the declarative pieces, each under the titles of the headings that still cover its section, numbered in order; blank text yields none |
| Chunker.AncestorsExactly | src/vesmaro/docs_ingest.py:236-243 | a heading is on the path of a line if and only if no heading of its level or above came in between |
| Chunker.ChunksKnowTheirHeadings | src/vesmaro/docs_ingest.py:200-254 | each chunk stands in the text of one section, in document order and alone there unless the section has more than 120 lines, and its path lists exactly the titles of the headings covering the section, outermost first |
| Chunker.PathEndsAtTheHeading | src/vesmaro/docs_ingest.py:236-243 | so the path is empty exactly before the first heading, and otherwise ends with the heading right above the section |
| Chunker.ChunksKeepTheProse | src/vesmaro/docs_ingest.py:218-247 | the non-whitespace text of all lines that are not headings is conserved in order across the chunks |
| Chunker.ChunksAreShort | src/vesmaro/docs_ingest.py:218-232 | no chunk has more than 120 lines, and indices count from zero |
| DocIngest.DocStore.SweepDocumentChunks | src/vesmaro/docs_ingest.py:265-377 | the sweep loop computes the sweep function and both counts |
| DocIngest.DocStore.ReplaceDocChunks | src/vesmaro/storage/sqlite_store.py:4001-4075 | old rows out, born-quarantined rows in, version up, as one step |
| DocIngest.DocStore.AddDocChunks | src/vesmaro/docs_ingest.py:496-517 | the first-ingest pair of add and quarantine reaches the same rows as the replace path |
| DocIngest.DocStore.IngestDocument | src/vesmaro/docs_ingest.py:383-536 | error without chunks, the 500-chunk cap and its flag, replace or add, sweep, counts |
| DocIngest.NotBornAgain | src/vesmaro/docs_ingest.py:265-377 | a sweep decides a row once: only a clean verdict makes it admissible, and no decided row is sweepable |
| DocIngest.SweepWrites | src/vesmaro/docs_ingest.py:299-377 | what each verdict writes on a waiting row, that other rows stay, and that the text is never touched |
| DocIngest.SiblingsDoNotMatter | src/vesmaro/docs_ingest.py:265-377 | after a sweep each row depends on its own state and verdict only, whatever the siblings, the order and the repetitions |
| DocIngest.IngestLeavesTheLatestText | src/vesmaro/docs_ingest.py:446-517 | after a completed ingest the document's rows are exactly the capped chunks of the latest text, each admissible if and only if its own scan was clean; other rows are untouched |
| DocIngest.AdmissibleOnlyIfClean | src/vesmaro/docs_ingest.py:299-377 | over every run of adds, crashes, replacements, sweeps, foreign quarantines, manual releases and status changes by any path, a chunk is admissible only after a clean verdict on that chunk, once released by hand, or between its add and its quarantine; and no chunk gets two different verdicts |
| DocIngest.RefusedForGood | src/vesmaro/docs_ingest.py:299-335 | a refused or scanner-error chunk stays inadmissible until that chunk is released by hand, whatever later sweeps and status changes do |
| AsyncRegistry.Registry.Store | src/vesmaro/assemble.py:812-828 | assigns in place or at the end and evicts the oldest beyond the cap |
| AsyncRegistry.Registry.Fetch | src/vesmaro/assemble.py:831-854 | unknown handle, foreign session, or the result with the entry taken out |
| AsyncRegistry.RunKeeps | src/vesmaro/assemble.py:812-854 | at most 32 entries, one per handle, in every run |
| AsyncRegistry.FetchTakesAtMostItsEntry | src/vesmaro/assemble.py:831-854 | a refused fetch changes nothing; a successful one takes out its own entry and no other |
| AsyncRegistry.RedeemedOnce | src/vesmaro/assemble.py:831-854 | a handle is redeemed at most once and only by its owning session |
| AsyncRegistry.FreshHandleIsRedeemable | src/vesmaro/assemble.py:812-854 | an unfetched entry stays redeemable across any run with fewer than 32 later stores |
| Budget.BudgetStage | src/vesmaro/assemble.py:727-806 | the loop includes what the greedy rule includes, with the token, block and skip counts |
| Budget.GreedyExactly | src/vesmaro/assemble.py:757-766 | a block is included if and only if it fits in what the included ones before it leave |
| Budget.WithinBudget | src/vesmaro/assemble.py:757-766 | the included blocks never exceed the budget |
| Budget.NothingSkippedFits | src/vesmaro/assemble.py:757-766 | no skipped block would fit in what is left at the end |
| Budget.LaneSortKeepsThePrefix | src/vesmaro/lanes.py:157-189 | after the lane sort pinned lanes come first, by lane, score and recall order, so the guard cannot fire |
| Budget.LaneSortIsBestFirst | src/vesmaro/lanes.py:157-189 | pairwise: rules, decisions, knowledge, synthesized, then other lanes by name; in one lane the better score first and equal scores as recalled |
| Budget.ForeignLanesTailOnly | src/vesmaro/lanes.py:168-189 | the guard passes if and only if no pinned lane follows a foreign one |
| Budget.ApplyToPartition | src/vesmaro/assemble.py:314-321 | matched before unmatched, with the count of the matched |
| Budget.PartitionIsAStableSort | src/vesmaro/assemble.py:314-321 | the partition is the stable sort by matching: order within the groups is kept |

## Left out

- MetadataTimestamps.CanonicalReadsBack: the full-width ISO form is parsed exactly; every other spelling `datetime.fromisoformat` accepts enters as a parameter, and the order theorem holds for any such parser.
- TokenRegistry.AgentTokenStore.Issue: `int(ttl_hours * 3600)` is exact; floating-point rounding of the product is not modelled.
- TokenRuns.CopyIsFaithful: the equal lifetime holds for exact rationals. In floating point `int(lifetime / 3600.0 * 3600)` is a second short for some lifetimes, 115 s for one; `TokenRuns.RoundedLifetime` shows that no rounding to the nearest tenth of a second or finer loses more than that second or adds one.
- TokenRuns.OneEligibleAfterRotation: likewise for exact rationals; with a lifetime a second short the copy is still the only eligible token as long as its lifetime is positive.
- RewriteEvents.RewriteStore.ContextRewrite: the advisory diff, tags, the receipt's echo fields and the optional marker are not modelled; the stored row's `created_at` is the instant of the quota check, and a delivery is atomic apart from the crash between the two writes.
- DocIngest.DocStore.IngestDocument: rejections by the ordinary write path, embeddings, vault files and a failing release write are not modelled; in the runs the clustering queue and the refine cycle with its curated publication are one step that may move the status of any row.
- Ccr.CcrCache.Retrieve: snippet search and the issuance gate over it are not modelled.
- Aligner.Align: the five dynamic-literal expressions are not modelled; their matches are any non-empty in-bounds spans listed pattern by pattern.
- MarkerSurvival.MarkerSurvives: says where a marker is and how it reads, not that `parse_marker` finds it first in the aligned text, because taking a span out can complete a new marker in front of it.
- Aligner.ListingIsReadable: for values without a line feed, as the five expressions match them.
- Aligner.ListingRebuildsTheText: likewise, and the static pieces are those of the text that went in, since the body shows them normalised.
- Budget.BudgetStage: scores are reals, and recall, filtering, scanning and provenance wrapping happen before it.
- Awareness.Composer.ComposeHeartbeat: goal titles, conflict hints, federation exclusion and the text of the delta are not modelled, only which rows are read and where the cursor goes.
- Key files, TOTP, the gRPC gateway, tracing and logging: input and output only.
- `compose_session_presence`, `pre_flight_snapshot` and `record_abstention` in awareness.py: read-only snapshots and one trace write that touch no cursor.
- Compact payloads, key points and title truncation in compact.py: counters and slices that would only add easy members.
- Concurrent calls: every operation is one step, apart from the crash points named above.
