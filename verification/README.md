# AgentVeil: a verified model of the privacy gateway

AgentVeil stands between a coding agent and a remote model. It parses each request into text targets, scans
every target in all its decoded forms, blocks the request or replaces what it found by masks and reversible
tokens, writes an audit event, and forwards the rest; on the way back it restores the tokens in the event
stream. This project models that pipeline in Dafny and proves what the gateway is for: nothing protected leaves,
nothing else changes, what was replaced comes back, and nothing is sent that was not audited first.

All files verify together: `dafny verify dfyconfig.toml`.

## How the model is laid out

- `Domain`, `Utf8`, `Sorting`: the vocabulary, UTF-8 validity and character boundaries, stable sorting. A text is
  a `string` whose characters hold one byte each.
- `Views`, `Decoders`, `Escapes`, `LineFolds`, `Normalization`, `Scan`, `PlainScan`: views of a text with one source
  range per byte, the five transforms, decoding as the inverse of encoding, what normalization makes no difference
  between, the bounded search over composed decoders, a whole scan, and scans whose result can be said outright.
- `Overlaps`: merging findings into components, against a specification that does not follow the algorithm.
- `Ledger`, `LedgerRuns`, `LedgerSteps`, `Retention`, `WorkingSet`, `Transactions`, `LedgerHistory`: the token ledger
  as a class, its runs under arbitrary clocks and an adversarial random source, single operations in plain terms, how
  long it keeps a token, what one request may do to it, and the history of operations an engine carries along.
- `PolicyRules`: policy validation and the facts the engine relies on.
- `JsonTree`, `PayloadShape`, `AcceptedShape`, `Payload`, `Classification`, `ExactlyOnce`, `KeyPlaces`, `Request`: JSON
  trees, the checks on a request, what an accepted request looks like, the collectors, a description of the
  classification by position alone, the names of fields, and the request object.
- `Tokens`, `Rewriting`, `InPlace`, `Display`: tokens in text, splicing, in-place editing from right to left as a
  refinement of splicing, and restoration.
- `Summary`, `Planning`, `Rewrites`, `Outcomes`, `Engine`, `Guarantees`, `EngineRuns`: the engine as a class, the
  evidence a request leaves behind (its plans, decisions, edits and issued tokens), the theorems about that evidence,
  and those about an engine after any calls.
- `Framing`, `Chunking`, `SinkEvents`, `Frames`, `SinkFrames`: the event stream of section 9.2 of the HTML Living
  Standard, cut into frames, restored and emitted.
- `Dashboard`, `Gateway`, `GatewayRuns`, `GatewayTruth`, `GatewayStamps`: audit events and the activity list, every
  interleaving of any number of requests, the cause of every reply and event in what the environment answered before,
  and the identifiers and times of the events.

`Protect` returns, besides its outcome, ghost `Evidence` of how it came about. Its postcondition names the cause of
every refusal, and says of a forwarded request that the evidence is `Justified`; the lemmas of `Guarantees` say what
that means. They hold for every scanner whose normalization yields valid text and whose matches are nonempty and in
range, every random source, and every JSON reader whose strings are valid UTF-8. Lemmas about emitted frames also take
the JSON printer to be undone by the reader, to emit no raw line break, and to open an object with a brace. Lemmas about
broken lines and plain texts take character normalization to leave ASCII as it is, and the one about the size limit
takes it to at most double a character.

Each function that a method is proved against is tied in turn to statements that do not mention it: what policy asks of
a finding is read off the rule of its class, what a request has to look like is said field by field, and what a reply
means is said by the inputs that led to it.

The engine also carries, as a ghost field, every ledger operation it has made since its ledger was created. `Valid`
says that this history is a run of the ledger that leads to its present state; `WithRandom` establishes that and every
method keeps it. So the theorems about whole runs of the ledger hold of the engine after any calls, and what is
restored later is proved without assuming anything of the ledger but that its use counter has not run out. The tokens
of a request count as kept alive when its distinct (class, value) pairs fit the ledger and no operation since has
revoked them, come after their expiry, or asked for a new token while they and all tokens used since already filled
the ledger.

## Where the code and a claim about it differ

- docs/ARCHITECTURE.md:136 says that adjacent findings are connected. The code merges findings only where they
  strictly overlap (src/detector.rs:762), and so does the model; `MergedIffLinked` says so exactly, and
  `TouchingStayApart` shows it for any two findings that touch.
- A ledger that evicts the least recently used token might be expected to spare an unexpired token until as many others
  as it holds have been issued or restored since its last use. `FailedIssueStillEvicts` is a run in which a token goes
  although no other was ever used: an issue that fails has evicted all the same. `EvictionBoundExactly` says when the
  expectation is met, in terms of the moment before the call: exactly if that many others had been used already, or
  the draws about to be made yield a token that is free and not the evicted one. At least one less than the capacity
  have been used in any case (`EvictionNeedsUse`).
- The 1 MiB limit on events is checked only while the buffer holds no complete frame (src/sse.rs:37), so a longer
  frame passes when its end arrives in the same chunk. `CuttingIrrelevantExactly` states for exactly which streams
  the cutting into chunks makes no difference, and `LongFrameNeedsOneChunk` is a frame for which it does.

## Model

| member | source | states |
|---|---|---|
| Utf8.EncodeDecodes | src/detector.rs:678-695 | encoding a scalar as UTF-8 loses nothing: reading the bytes gives the scalar back |
| Utf8.ValidExactly | src/detector.rs:540-568 | a string is valid UTF-8 exactly if it is the encoding of some scalar values, one after the other |
| Views.CombinedSourceCovers | src/detector.rs:620-640 | for any nonempty in-range span of a well-mapped view the combined source runs from the start of the first byte's range to the end of the last one's, lies on character boundaries, and contains the range of every byte between |
| Views.RewriteMap | src/detector.rs:642-650 | one piecewise rewriting step after the other, the map keeps one nonempty in-range aligned range per byte, with starts and ends nondecreasing |
| Views.TransformKeepsWellMapped | src/detector.rs:463-592 | each of the five transforms keeps a view well mapped; percent decoding keeps the map and the text too if the decoded bytes are UTF-8 |
| Views.DecodingShrinks | src/detector.rs:511-592 | every decoder that reports a change returns a strictly shorter text |
| Decoders.IdentityWellMapped | src/detector.rs:444-461 | the untransformed view maps each byte to its own character and is well mapped |
| Decoders.CombinedInView | src/detector.rs:605-640 | a span of any well-mapped view is traced to a source range that starts and ends between characters |
| Decoders.DecodedWellMapped | src/detector.rs:511-592 | decoding a well-mapped view gives a well-mapped view or fails |
| Decoders.Normalize | src/detector.rs:444-461 | the loop over characters computes normalization followed by continuation removal, and its result is well mapped; LineFolds and Normalization say what that removes |
| Decoders.RemoveStructuralContinuations | src/detector.rs:463-490 | the index loop computes the piecewise removal of backslash, newline and blanks that FoldsRemoved describes, and keeps the map |
| Decoders.Canonicalize | src/detector.rs:492-509 | the loop drops invisible controls and normalizes character by character, keeping the map |
| Decoders.DecodeJsonEscapes | src/detector.rs:511-538 | the loop decodes exactly the JSON escapes, reporting no view when nothing changed |
| Decoders.DecodePercentEncoding | src/detector.rs:540-568 | the loop decodes exactly the percent escapes and fails exactly when the result is not UTF-8 |
| Decoders.CollapseCandidateSeparators | src/detector.rs:570-592 | the loop drops exactly the separators between token bytes, reporting no view when nothing changed |
| LineFolds.EveryTextFolds | src/detector.rs:463-490 | every text is a sequence of kept bytes and broken lines, each a backslash, LF or CRLF, and all the blanks and tabs that follow |
| LineFolds.FoldsRemoved | src/detector.rs:463-490 | of such a sequence the removal leaves exactly the kept bytes, each traced to where it stood |
| LineFolds.BreakRemoved | src/detector.rs:463-490 | breaking a text with a backslash, a line break and any indentation makes no difference to what the removal leaves, unless the break is put inside another or in front of blanks |
| Normalization.BrokenLinesScanAlike | src/detector.rs:444-509 | nor does it make a difference to the normalized text, so a secret split over lines is scanned as if it were not |
| Normalization.InvisibleScanAlike | src/detector.rs:492-509 | an invisible character put between any two characters does not change the normalized text |
| Escapes.QuadRoundTrip | src/detector.rs:697-715 | four hexadecimal digits read back to the number they were written for, in either case |
| Escapes.SurrogatePair | src/detector.rs:678-695 | the pair computed for any scalar above 0xFFFF lies in the surrogate ranges and combines to that scalar |
| Escapes.DecodingUndoesEncoding | src/detector.rs:511-568 | for any mixture of plain text, percent escapes (section 2.1 of RFC 3986), short JSON escapes and Unicode escapes with surrogate pairs (section 7 of RFC 8259), decoding gives the encoded text |
| Escapes.DecodingTraced | src/detector.rs:511-568 | every decoded byte is traced to the whole escape it came from, and every other byte to itself |
| Escapes.SurrogatesDecodeOnlyInPairs | src/detector.rs:678-695 | a surrogate escape decodes exactly if it is a high half followed by the escape of a low half; a lone one is copied as it stands |
| Scan.Successors | src/detector.rs:408-435 | the decoders applied to a canonicalized view give exactly its children in the decode graph |
| Scan.ReachedExactly | src/detector.rs:408-435 | the views in reach are the text itself, what it decodes to, and what that decodes to |
| Scan.ComposedViews | src/detector.rs:408-435 | the queue search succeeds exactly if every expansion does, and then returns, without duplicates, exactly the views reachable in at most two decode steps; there are at most seven, so the guard of eight never fires |
| Scan.AssembleViews | src/detector.rs:143-176 | the scan views are exactly the regular views and, as secret views, their collapsed forms; it fails exactly if they exceed the limit |
| Scan.FindingsIn | src/detector.rs:605-640 | every match of a view becomes a finding at its source range, and nothing else does |
| Scan.Dedup | src/detector.rs:177-200 | deduplication keeps a representative of every finding, adds none, and leaves no two equal neighbours |
| Scan.ViewCountOrderless | src/detector.rs:143-176 | the number of scan views does not depend on the order in which the search found the views |
| Scan.ScanSource | src/detector.rs:143-201 | a scan succeeds exactly if every view in reach decodes and keeps to its size and they give at most twelve scan views; then it loses no match of any of them, invents none, and reports only ranges between characters |
| PlainScan.PlainNormalized | src/detector.rs:444-509 | ASCII text without backslash and percent sign is scanned as it stands, every byte traced to itself |
| PlainScan.PlainScannable | src/detector.rs:143-201 | every such text can be scanned |
| PlainScan.PlainReported | src/detector.rs:605-640 | what a detector matches in such a text is reported with its class, where it stands |
| PlainScan.DotsDropped | src/detector.rs:570-592 | a candidate written with single dots between its parts collapses to its parts joined |
| PlainScan.SizeNeverStops | src/detector.rs:408-435 | the size limit stops no search while normalization at most doubles a text in each of the two layers |
| Overlaps.Strongest | src/detector.rs:766-778 | the chosen finding is one of the component and none is stronger in precedence, then length |
| Overlaps.Component | src/detector.rs:757-765 | the inner loop takes a maximal run without an uncrossed cut, and every later finding starts at or after its end |
| Overlaps.ResolveOverlaps | src/detector.rs:750-789 | the result is sorted and disjoint, houses every finding, has no uncrossed cut inside any span, and each span carries the strongest finding inside it |
| Overlaps.SameCoverage | src/detector.rs:750-789 | a position is covered after resolution exactly if it was covered before |
| Overlaps.PairingKept | src/detector.rs:766-786 | each merged finding has the class, detector, confidence and action of one finding inside it; none inside it is stronger, and none of the same action is longer |
| Overlaps.MergedIffLinked | src/detector.rs:757-765 | two findings are merged exactly if a chain of strictly overlapping findings links them; touching spans stay apart |
| Overlaps.OrderIndependent | src/detector.rs:750-789 | spans and actions of the result do not depend on the order of the findings, nor on how ties are broken |
| Overlaps.Idempotent | src/detector.rs:750-789 | resolving a resolution changes nothing |
| Overlaps.TouchingStayApart | src/detector.rs:757-765 | two findings that touch without overlapping are resolved to themselves, and to nothing else |
| Ledger.TokenLedger.WithRandom | src/ledger.rs:97-107 | a ledger is made exactly for capacities from 1 to 16384, and is empty |
| Ledger.TokenLedger.FindLive | src/ledger.rs:139-150 | the search finds a live token of the same scope, class and value exactly if there is one |
| Ledger.TokenLedger.EvictLru | src/ledger.rs:257-266 | exactly one entry goes, and none was used longer ago |
| Ledger.TokenLedger.GenerateToken | src/ledger.rs:239-251 | one draw is made, and the token is the class label and the hexadecimal form of the drawn bytes |
| Ledger.TokenLedger.InsertFresh | src/ledger.rs:160-183 | the retry loop inserts under the first drawn token that is not taken, within eight attempts, or changes nothing |
| Ledger.TokenLedger.IssueTracked | src/ledger.rs:121-184 | the whole new state: refusals change nothing, a live token is reused and renewed, otherwise one is created after at most one eviction |
| Ledger.TokenLedger.RollbackCreated | src/ledger.rs:186-196 | exactly the listed tokens of the scope are removed |
| Ledger.TokenLedger.RestoreExact | src/ledger.rs:198-213 | the value comes back exactly for a live token of the scope, whose use number is renewed; expired entries go |
| Ledger.TokenLedger.OwnsToken | src/ledger.rs:215-220 | true exactly for a live token of the scope; only expired entries go |
| Ledger.TokenLedger.ClearScope | src/ledger.rs:222-226 | exactly the entries of the scope go, and their number is returned |
| LedgerRuns.RunSound | src/ledger.rs:121-266 | in every run the ledger stays within capacity, no two tokens share scope, class and value, every entry has a nonempty value of a restorable class, and use numbers are pairwise distinct |
| LedgerRuns.EntriesRemembered | src/ledger.rs:121-266 | in every run an entry carries the value of the last creation of its token, the expiry of its last issue and the number of its last use, and has been there since that creation |
| LedgerRuns.RestorationSound | src/ledger.rs:198-213 | in every run a value is restored only if the last creation of the token was for it in that scope, its last issue has not expired, and nothing revoked it since |
| LedgerRuns.EvictionNeedsUse | src/ledger.rs:257-266 | an unexpired token is evicted only after capacity minus one other tokens, and with the token now issued as many as the capacity, were issued or restored since its own last use |
| LedgerRuns.EvictionBoundExactly | src/ledger.rs:152-183 | when a token is evicted, as many others as the capacity have been used since its last use exactly if they had been before the call or the draws to come yield a free token other than the evicted one |
| LedgerRuns.FailedIssueStillEvicts | src/ledger.rs:152-183 | a run in which a failing issue evicts the only token although no other token was ever used |
| LedgerSteps.RefusedExactly | src/ledger.rs:121-137 | an issue is refused, and changes nothing, exactly for an empty value, a hard-block class, or an expiry beyond 64 bits |
| LedgerSteps.LivesFor | src/ledger.rs:121-213 | a token handed out is answered with its value for the seconds asked for, and no longer |
| LedgerSteps.ExpiredGone | src/ledger.rs:253-255 | after an operation that is given a time no entry is left that has expired by then, but one issued just now |
| LedgerSteps.MintedFirst | src/ledger.rs:160-183 | minting takes the first draw whose token is free, and stops at the first draw that fails |
| LedgerSteps.CollisionExactly | src/ledger.rs:160-183 | minting makes at most eight draws and reports a collision exactly if all eight yield tokens that are taken |
| Retention.Retained | src/ledger.rs:121-266 | in every run a token in use since some moment stays, for the same value, as long as nothing revokes its set, no call comes after its expiry, and every new token finds room beside the set and all tokens used since |
| Retention.RetainedAnswers | src/ledger.rs:198-213 | such a token is answered with its value until the expiry its last issue gave it |
| Retention.FreshFindsRoom | src/ledger.rs:152-183 | a successful issue finds room if the set and all tokens handed out up to then fit the capacity |
| WorkingSet.WorkingThroughout | src/engine.rs:136-178 | while a request needs no more distinct (class, value) pairs than the ledger holds, none of its tokens is evicted and the entries it used are exactly its own |
| Transactions.IssueIs | src/ledger.rs:121-184 | an issue changes no entry but its token's, and for a nonempty value of a restorable class fails only for lack of randomness, collisions or overflow |
| Transactions.RolledBack | src/ledger.rs:186-196 | rolling back what a request created leaves no new key and no survivor with another scope, class or value |
| PolicyRules.ValidateIff | src/policy.rs:69-111 | validation accepts exactly the policies that block every hard-block class, restore exactly what they tokenize for at most half an hour, keep the limits on sizes, and have few, short detector terms without control characters |
| PolicyRules.RulesByKey | src/policy.rs:69-111 | in a validated policy the rule of every class stands under its key, key by key |
| PolicyRules.SecretsBlocked | src/policy.rs:171-189 | a validated policy blocks the five kinds of secrets and gives nothing back after half an hour, said by key |
| Tokens.IssuedIsToken | src/ledger.rs:239-251 | every token that can be issued matches the pattern that restoration searches for |
| Tokens.TokenIffIssuable | src/engine.rs:36-38 | a text matches the pattern exactly if it is the label of a restorable class and sixteen bytes in hexadecimal, as the ledger writes them |
| Tokens.TokenDelimited | src/engine.rs:36-38 | a token starts with the only opening bracket it contains |
| Tokens.RestoredConcat | src/engine.rs:182-200 | restoration distributes over a cut in front of an opening bracket, so tokens, masks and gaps cannot run into each other |
| Tokens.RestoredMask | src/engine.rs:301-303 | a mask is no token and hides none behind it |
| Rewriting.ProvenanceSound | src/engine.rs:136-178 | every byte of a rewritten text is a byte of a replacement or a copy from a position no edit covers |
| Rewriting.UncoveredCopied | src/engine.rs:136-178 | every position no edit covers is copied |
| Rewriting.SpliceValid | src/engine.rs:142-146 | splicing valid text in between characters gives valid text |
| Rewriting.RestoreRewritten | src/engine.rs:182-200 | restoring a rewritten text turns each of its tokens back into the text it stood for, leaves its masks, and restores what lies between as it would be by itself, for every text |
| Rewriting.AroundInert | src/engine.rs:182-200 | without a live token in the original that is the original with only its masked spans replaced |
| InPlace.SortedBackwards | src/engine.rs:139 | sorting disjoint findings by descending start reverses them |
| InPlace.TailStep | src/engine.rs:174 | replacing a range in place, left of everything edited so far, puts one more edit in front of the splice |
| InPlace.PartwayBoundaries | src/engine.rs:142-150 | the boundary checks on the half-edited string and the slice of the original never fail for resolved findings |
| JsonTree.VisitMap | src/payload.rs:1010-1024 | the visitor accepts an object exactly if its keys are distinct |
| JsonTree.LeavesExact | src/payload.rs:748-815 | the recursive walk lists a path exactly if it leads to a string, with the nearest key above it |
| JsonTree.NearestIsLast | src/payload.rs:748-815 | the nearest key above a string is the last field name on its path |
| JsonTree.LeavesDistinct | src/payload.rs:748-815 | it lists no path twice |
| Payload.CollectLeaves | src/payload.rs:748-815 | the recursive collector pushes the targets of all string leaves, in order |
| Payload.CollectParts | src/payload.rs:397-426 | the loop accepts exactly the content arrays whose parts are all supported and pushes one target per text part |
| Payload.CollectBody | src/payload.rs:437-504 | a text-bearing field is accepted exactly in the shapes its item kind allows, and yields the targets of its text |
| Payload.CollectStructuralItem | src/payload.rs:560-578 | every string outside the identifying fields of a structural item becomes a target |
| Payload.CollectInputItem | src/payload.rs:202-308 | an item is accepted exactly if its fields, its text and its tools are, and yields its targets |
| Payload.CollectUntracked | src/payload.rs:817-845 | testing against the growing vector gives the same targets as testing against the vector before the pass |
| Payload.CollectExplicit | src/payload.rs:74-130 | a request whose controls pass is accepted exactly if its text-bearing parts are, and yields their targets |
| PayloadShape.AllowedKeysExact | src/payload.rs:882-896 | the key check passes exactly if every key is allowed |
| AcceptedShape.ControlsExactly | src/payload.rs:38-72 | the checks before the first target pass exactly if the request is to be streamed and not stored, its tool choice is "auto", model and parallel_tool_calls are there, and every other control has its stated shape |
| AcceptedShape.ItemExactly | src/payload.rs:202-504 | an input item passes exactly if its fields, for its type, are the allowed ones in the stated shapes |
| AcceptedShape.AcceptedExactly | src/payload.rs:38-132 | a request is accepted exactly if it has unique keys, these controls, such items, and tools and metadata of the stated shapes |
| AcceptedShape.RewritableExactly | src/payload.rs:202-308 | a string may be rewritten exactly if it is the instructions, the input, or the model text of an item of its type, and then it has that class |
| AcceptedShape.BlockOnlyExactly | src/payload.rs:560-760 | of the strings that may only block, exactly those in tools, metadata and the arguments of calls have the class their place calls for; all others are structural |
| Classification.ExplicitMarked | src/payload.rs:74-130 | the collectors push a target exactly for the strings whose position calls for one, with the class of that position |
| ExactlyOnce.ClassifiedByPosition | src/payload.rs:38-132 | a path target is among the targets exactly if it names a string and has the class and mode its position calls for |
| ExactlyOnce.NamedOnce | src/payload.rs:38-132 | no string has two path targets |
| ExactlyOnce.KeysOnce | src/payload.rs:817-845 | the literal targets are the keys, one per occurrence |
| KeyPlaces.EveryFieldOnce | src/payload.rs:817-845 | the literal targets are the names of the fields at all paths that lead to a field, each path once |
| ExactlyOnce.TargetCount | src/payload.rs:38-132 | there are as many targets as strings and keys |
| Request.SetThenLocate | src/payload.rs:915-933 | the replaced string is read back and no string elsewhere changes |
| Request.SetKeepsShape | src/payload.rs:147-165 | replacing a string keeps nesting, keys, numbers, booleans and nulls |
| Request.ShapeLeaves | src/payload.rs:147-165 | values of the same shape have the same string paths and the same keys |
| Request.ShapeAndText | src/payload.rs:147-165 | values of the same shape with the same text at every string path are equal |
| Request.Walk | src/payload.rs:898-913 | the loop of `locate` returns the value at the path, or says that it is missing |
| Request.VisitValue | src/payload.rs:948-1024 | a value is accepted exactly if no object in it repeats a key |
| Request.ValidatedRequest.Parse | src/payload.rs:38-132 | parsing succeeds exactly on the requests of the stated shape, said both by the checks and field by field, and collects all their targets |
| Request.ValidatedRequest.Text | src/payload.rs:138-145 | a target reads as its literal or as the string at its path |
| Request.ValidatedRequest.ReplaceText | src/payload.rs:147-165 | the new value or the error, case by case; an error changes nothing |
| Request.TargetsReadable | src/payload.rs:138-145 | every target of an accepted request reads without error, whatever has been replaced since |
| Request.ClassificationSurvives | src/payload.rs:147-165 | after any sequence of replacements the targets still name every string once and every key once |
| Summary.Record | src/engine.rs:274-294 | counting one more finding keeps one summary per kind with the number of its occurrences |
| Summary.Summarize | src/engine.rs:270-299 | the summary has one sorted entry per kind that occurs, with its number of occurrences up to saturation |
| Summary.SortedMeans | src/engine.rs:294 | the sorted summary goes up by class, within a class by detector, and within that by field |
| Summary.ActionsReported | src/engine.rs:270-299 | an action is in the summary exactly if some resolved finding has it, so the check for Block misses none |
| Planning.ActionIs | src/engine.rs:66-78 | a finding gets Block exactly if it is no live token of the scope and its class is blocked, or not allowed in a target that may only block; Allow exactly if it is one or its class is allowed; otherwise what the rule of its class says |
| Planning.HardBlockDecided | src/engine.rs:66-78 | a finding of a hard-block class blocks unless it is a live token of the same scope, which is let through |
| Planning.TokenizeDecided | src/engine.rs:66-78 | only restorable classes in rewritable targets are tokenized, for at most half an hour |
| Planning.DetectedDecided | src/engine.rs:65-80 | every match in every decoded view is decided, by its class and its range |
| Planning.DecidedDetected | src/engine.rs:65-80 | every decided finding is such a match and lies between characters |
| Planning.BlockKept | src/engine.rs:81-99 | overlap resolution neither loses nor invents a Block |
| Planning.TokenizeResolved | src/engine.rs:81-87 | a resolved finding that is tokenized has a restorable class and overlaps no finding that blocks or masks |
| Planning.EdgesAligned | src/engine.rs:142-150 | the edges of a merged span lie between characters |
| Rewrites.WritableAt | src/engine.rs:174-177 | a text that was changed belongs to a path target whose string can be written back |
| Rewrites.OthersKept | src/engine.rs:174-177 | writing one target back changes what no other target reads |
| Display.FindCandidates | src/engine.rs:188-192 | the loop finds the leftmost non-overlapping tokens |
| Display.AnswersRestore | src/engine.rs:182-200 | splicing the answers in is restoring every token from left to right |
| Display.LookupsKept | src/engine.rs:193-198 | looking tokens up does not change what other lookups at that time return |
| Engine.PrivacyEngine.Decide | src/engine.rs:64-80 | every finding gets the action that ActionIs describes; planning only drops expired tokens; it fails only for a range off the text |
| Engine.PrivacyEngine.PlanTarget | src/engine.rs:60-88 | the plan holds the target's text and its findings decided and resolved; a readable target fails exactly if its text cannot be scanned |
| Engine.PrivacyEngine.PlanAll | src/engine.rs:60-88 | planning succeeds exactly if every target's text can be scanned, and then every target has its plan |
| Engine.PrivacyEngine.Replacement | src/engine.rs:151-173 | a finding is replaced by its mask or by a token issued for exactly its text, and every token created is recorded; it fails only where the ledger refuses a token |
| Engine.PrivacyEngine.RewriteText | src/engine.rs:136-175 | the in-place loop from right to left computes the left-to-right splice; it fails only in the ledger, on ill-placed findings or on a Block |
| Engine.PrivacyEngine.ApplyRewrites | src/engine.rs:128-180 | every target reads as its text with its edits spliced in; for resolved plans without a Block only the ledger can fail |
| Engine.PrivacyEngine.Protect | src/engine.rs:50-126 | every refusal has its cause: size, payload, a text that cannot be scanned, a token the ledger failed to issue, or an edited value that cannot be serialized; any other request is blocked, exactly if some finding calls for it, or forwarded with the evidence; a refusal leaves only survivors in the ledger, and the history shows only this request's operations |
| Engine.PrivacyEngine.RestoreDisplayText | src/engine.rs:182-200 | the in-place loop returns the restored text for the ledger as it was, and the ledger and its history have seen each lookup |
| Outcomes.BlocksWhenCalledFor | src/engine.rs:90-99 | the resolved plans hold a Block exactly if some decided finding is one |
| Guarantees.BlockedExactly | src/engine.rs:66-99 | a request is blocked exactly if some match in some decoded view of some target, no live token of the scope, has a rule that blocks, or any rule but Allow where the target cannot be rewritten |
| Guarantees.NoProtectedByteForwarded | src/engine.rs:136-178 | no byte of a forwarded text is copied from a position covered by any match, in any decoded view, unless policy allows its class or it is a live token; what is copied stands as it stood |
| Guarantees.RuleCarriedOut | src/engine.rs:66-178 | in a forwarded request every match to be masked or tokenized lies in a replaced span of a rewritable target, in a masked one if its own rule masks; a span is masked only if it houses a match whose rule masks |
| Guarantees.NothingToDo | src/engine.rs:66-120 | where policy allows everything found, the request is neither blocked nor changed |
| Guarantees.ForwardingFrame | src/engine.rs:75-103 | the forwarded value has the shape and keys of the one received, and every string that may only block is unchanged |
| Guarantees.AllowedUnchanged | src/engine.rs:112-120 | a request without anything to mask or tokenize is forwarded as it was received |
| Guarantees.ForwardedValid | src/engine.rs:142-174 | every forwarded string is valid UTF-8 |
| Guarantees.StoredValuesClean | src/engine.rs:60-110 | every value stored is the text of a span whose class policy tokenizes, and overlaps no match that policy blocks or masks and none of a hard-block class, but live tokens |
| Guarantees.RoundTrip | src/engine.rs:128-200 | restoring a forwarded text in the same scope undoes each of its replacements but the masks and restores the rest as it would be in the original, whatever the engine did for other requests before and since, as long as its tokens were kept alive |
| Guarantees.RoundTripExact | src/engine.rs:128-200 | with nothing masked and no live token in the original, the restored text is the original |
| Guarantees.AliveAtOnce | src/engine.rs:128-200 | right after a request its tokens are alive until the lifetimes it gave them end, if its pairs fit the ledger |
| Guarantees.LivesAsRuled | src/engine.rs:157-165 | right after a request each of its tokens expires when its rule says, by default after a quarter of an hour, if its pairs fit the ledger |
| EngineRuns.LedgerSound | src/ledger.rs:121-266 | after any calls of an engine its ledger keeps to its capacity, shares no value between tokens, and keeps use numbers apart |
| EngineRuns.WithinHalfHour | src/engine.rs:157-165 | any value an engine ever gave back was that of the token's last creation in that scope, and came back within half an hour of its last issue |
| EngineRuns.TextComesBack | src/engine.rs:182-200 | that round trip for an engine after any calls |
| EngineRuns.RequestsSpare | src/engine.rs:102-118 | another request, failed ones included, takes back no token that was there before it began |
| Framing.FindFrameEnd | src/sse.rs:61-71 | the scan returns the end of the earliest terminator |
| Framing.FrameEndExact | src/sse.rs:61-71 | a frame end is where the earliest terminator stops, and there is none exactly if no terminator starts anywhere |
| Framing.FrameEndsAtBlankLine | src/sse.rs:61-71 | the frame ends behind the first two line feeds in a row or the first two CRLFs in a row, whichever starts first |
| Framing.FoundStays | src/sse.rs:61-71 | a found frame end does not move when more bytes arrive |
| Framing.FoundBefore | src/sse.rs:61-71 | a frame end within the bytes already there was found before the rest arrived |
| Chunking.StreamedIsWhole | src/sse.rs:32-58 | any cutting that gets through gives the output of the stream taken as a whole |
| Chunking.FittingResult | src/sse.rs:32-58 | a stream whose frames and tail fit the limit has one verdict and one output, however it is cut |
| Chunking.CuttingIrrelevantExactly | src/sse.rs:32-58 | the cutting makes no difference exactly if the stream fails as a whole, has no frame, or its frames and tail fit the limit |
| Chunking.LongFrameNeedsOneChunk | src/sse.rs:37 | a frame of more than a megabyte passes in one chunk and is refused byte by byte |
| Chunking.DrainConserves | src/sse.rs:41-49 | consumed frames and the rest are the bytes pushed, and each emitted frame is the transform of its own |
| SinkEvents.RestoreParts | src/sse.rs:194-219 | the loop restores every part or stops at the first of the wrong shape |
| SinkEvents.RestoreMessageItem | src/sse.rs:194-209 | a message item has its parts restored, any other item is kept |
| SinkEvents.EventRestored | src/sse.rs:151-235 | restoring an event changes the text of exactly the output-text sinks of its type, each to what it restores to, and nothing else |
| SinkEvents.RestoredExactly | src/sse.rs:151-235 | an event can be restored exactly if what carries display text in it is text |
| Frames.FindData | src/sse.rs:82-97 | the loop over the lines finds the event header and the byte range of the only data line, or reports a second one |
| Frames.TransformFrame | src/sse.rs:73-131 | the transformed frame or the error, as the specification that SinksRestored, OthersEmitted and EmittedExactly describe |
| Frames.SseTransformer.Push | src/sse.rs:32-50 | the frames emitted, the new buffer and the error are those of draining the buffer with the chunk appended |
| Frames.SseTransformer.Finish | src/sse.rs:52-58 | the stream ends well exactly if only white space is left |
| SinkFrames.SplitJoined | src/sse.rs:84-97 | lines joined are split into the same lines again |
| SinkFrames.StillOneFrame | src/sse.rs:121-131 | replacing the data between a line start and its newline by text without line breaks leaves one frame |
| SinkFrames.FieldsExact | src/sse.rs:82-97 | the scan of the lines fails exactly at a second data line, and otherwise finds the only one and the last header |
| SinkFrames.DataReads | src/sse.rs:99-107 | a data line is read as what follows the colon and any blanks, up to the line break |
| SinkFrames.HeaderReads | src/sse.rs:84-90 | a header line names what follows its colon, without the blanks around it |
| SinkFrames.SinksRestored | src/sse.rs:73-149 | in either mode an emitted frame, changed or not, reads back as one frame with the same event but for its sinks, each of which holds what it restores to: all strings of display text, or the delta alone |
| SinkFrames.OthersEmitted | src/sse.rs:82-97 | a frame without data and the end marker are emitted byte for byte |
| SinkFrames.EmittedExactly | src/sse.rs:73-131 | a frame is emitted exactly if it is valid UTF-8 and carries no data, the end marker, or one event whose type agrees with the header and that can be restored and printed |
| SinkFrames.EmittedReframes | src/sse.rs:32-50 | the emitted bytes, cut again, are the emitted frames, one for each frame received |
| Dashboard.AuditState.RecordDashboardActivity | src/gateway.rs:784-805 | the entry of the request is updated in place, or a new one is put in front and the list cut to 64 |
| Dashboard.AuditState.WriteAudit | src/gateway.rs:731-782 | a stored event is logged and shown; a failure marks auditing as failed and changes nothing else |
| Dashboard.ShownFaithful | src/gateway.rs:784-805 | recording an event keeps at most 64 entries with distinct numbers, each agreeing with the latest event of its request, and shows the event even if its entry had been dropped |
| Dashboard.ShownIs | src/gateway.rs:784-805 | an event updates outcome and latency of the entry of its request where it is, or else puts its entry in front and drops only the last of 64 |
| Gateway.AuditPhases | src/gateway.rs:731-782 | the phases in which a request writes its audit event do together what WriteAudit does, and lead on to sending only if the event was stored |
| Gateway.AdvanceConsonant | src/gateway.rs:471-659 | each step of a request keeps what is persisted, shown and sent for it in the order its phase calls for; GatewayTruth says which outcome and reply it is |
| Gateway.OthersConsonant | src/gateway.rs:471-659 | a step of one request leaves the records of every other alone |
| GatewayRuns.SendsAudited | src/gateway.rs:603-631 | in every interleaving every send carries the engine's body and follows the persisted Pending event of its request, with an Allowed or Rewritten decision, and is the request's only one |
| GatewayRuns.RequestLawful | src/gateway.rs:471-659 | in every interleaving a request persists nothing, one NotStarted event, or one Pending and perhaps one Started or Failed; one that claims zero forwarded bytes was never sent; one that was blocked or rejected is never sent |
| GatewayRuns.NumbersUnique | src/gateway.rs:525 | no two requests share a sequence number |
| GatewayRuns.NeverHealthyAgain | src/gateway.rs:766-779 | the audit flag never returns to true |
| GatewayRuns.GateHolds | src/gateway.rs:485-493 | a request that reaches the gate after the flag has fallen gets no number and is never sent |
| GatewayRuns.DashboardFaithful | src/gateway.rs:784-805 | in every interleaving the activity list is faithful to the events shown, and a request shows only what it has persisted |
| GatewayTruth.RepliesEarned | src/gateway.rs:471-659 | in every interleaving each reply has its cause among the earlier inputs of its request: relayed only if the upstream answered, unavailable only if it did not, blocked and rejected only by the engine, and so for every other reply |
| GatewayTruth.EventsTrue | src/gateway.rs:525-656 | in every interleaving the first event of a request repeats what the engine answered, with its findings, and the second says Started if the upstream answered and Failed if it did not |
| GatewayTruth.SentWhenBound | src/gateway.rs:584-631 | a request is sent only if the engine let it through and an upstream was found |
| GatewayStamps.EventsStamped | src/gateway.rs:525-656 | every event persisted for a request carries the identifier drawn at its admission and the time its scan took, and the time of the judgement or, reporting on the upstream, of its answer |

## Left out

- Detectors: the patterns, terms and key searches of src/detector.rs are one arbitrary function from a view to nonempty in-range matches.
- NFKC: an arbitrary function from a character to valid text.
- JSON and YAML text: reading and printing are parameters; the tree keeps fields in document order, the original in the order of its map, so only the order of targets and the first of several errors may differ. Numbers are kept as they were written.
- Payload errors: refusing a request and failing to read or replace a target are two error types here and one in the source.
- Policy hash: the canonical form and the hash of a policy are not part of this model.
- Counters: the sequence of `request_sequence` is unbounded; the ledger's use counter saturates as in the code, and the statements about distinct uses assume that it has not, that is, fewer than 2^64 operations.
- EvictionNeedsUse: states capacity minus one others for an issue that fails or draws the evicted token again; EvictionBoundExactly says exactly when the capacity itself is reached there.
- Map order: where the code takes whichever entry its hash map yields first among equals, the model allows any of them.
- Clock and randomness: every call takes its time as an argument, in any order, and the random source is any function from draw numbers to outcomes.
- HTTP: headers, routes, URL selection, authentication and relaying of bytes are single yes-or-no inputs of a step.
- Audit sink: a write either appends the event or fails; file modes, syncing and the JSON line are not part of this model.
- SseTransformer: restoration is one function for the length of a call, as the engine lock makes it; its effect on the ledger is modelled in RestoreDisplayText.
- The response stream, the demo, the launcher, the dashboard page, wire proofs and release scripts.
