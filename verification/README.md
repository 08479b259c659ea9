# ULPF-X core, modelled and proved in Dafny

ULPF-X normalises logs. Raw bytes enter through an ingest gateway (a structural
firewall, a write-once store, an event bus). Declarative parser specs then turn the
text into canonical fields with a lineage record for each. Specs are compiled from
reviewed mappings, a candidate spec is compared with the active one in shadow, and a
policy decides whether it is deployed to a registry with rollback. This project
models those parts and proves what they promise, for every input and every run.

Code that changes state step by step is a method, or a class with methods, that is
proved equal to a specification function. The laws are lemmas about those functions. A
function is never its own specification: what it computes is also stated without it, in
the counts, steps, positions or literal values a caller could check.

| file | models |
|---|---|
| `Firewall.dfy`, `FirewallLaws.dfy` | the JSON token inspector against a recursive measure on JSON trees; the word inspector; the whole inspection, code by code |
| `EventBus.dfy`, `Envelope.dfy` | publish, subscribe, unsubscribe and receive as interleaved steps under a read-write lock |
| `BusRuns.dfy` | what every run of the bus does, said in terms of its steps alone |
| `Ingest.dfy` | the write-once raw store and the ingest service over whole runs |
| `ConcurrentIngest.dfy` | many ingests at once: store and publication as separate steps over one bus |
| `KeyValue.dfy`, `Cef.dfy`, `Text.dfy`, `Values.dfy` | the hand-written scanners and the printers they invert |
| `Lineage.dfy`, `Dsl.dfy`, `ValidatorLaws.dfy`, `Runtime.dfy` | lineage records, spec validation and what the validators accept, the field-mapping loop |
| `RuntimeLaws.dfy`, `LineageLaws.dfy` | its laws over every map order, and what stands behind every lineage record |
| `RuntimeValues.dfy` | which value each field extracts |
| `Comparator.dfy`, `ComparatorLaws.dfy`, `Rounding.dfy`, `Sorting.dfy`, `PyValue.dfy` | the shadow metrics, the verdict on rounded values, and what PASSED means |
| `VerdictLaws.dfy`, `PyValueLaws.dfy` | the exact verdict in counts, what is counted, and Python's equality and flattening behind it |
| `ShadowRunner.dfy`, `ShadowLaws.dfy`, `StructuredLaws.dfy` | dual execution, isolation, and conservative spec extensions on raw lines and on structured events |
| `ShadowEvents.dfy` | what each event of a dual run holds, entry by entry |
| `SelfHealing.dfy`, `SelfHealingLaws.dfy` | registry, promotion policy and repair workflow over whole runs |
| `SpecCompiler.dfy`, `SpecGeneration.dfy` | mapping merge and the generated parser spec |
| `PyLiteral.dfy`, `GeneratedCode.dfy` | the generated Python text, read back literal by literal, and its meaning |
| `JsonFlatten.dfy` | flattening of nested objects and its inverse |
| `Drift.dfy`, `Latency.dfy` | drift distances and latency percentiles |

Some properties hold only under a condition. Each is stated with that condition, as an
equivalence where both directions hold:

- PASSED rules out a lost critical value or a lost unknown field iff fewer than 20000
  events, or unknown fields, were compared. The verdict is taken on shares rounded to
  four places (`ComparatorLaws.CriticalBoundIsExact`, `ComparatorLaws.RetentionBoundIsExact`).
- A conservative extension never fails on raw lines. On structured events it loses exactly
  the visible keys that the candidate newly defines under another name, and all metrics
  are perfect iff there are none (`StructuredLaws.StructuredPerfectIff`).
- The result of a parse is the same for every map order iff any two mapped fields that
  share a target agree in value and lineage (`RuntimeLaws.OrderIndependenceIff`).
- The policy can promote a repair that is then not deployed: the workflow reads the
  version's leading numeral after the decision and raises when it cannot
  (`SelfHealingLaws.RepairDeploysIff`, `SelfHealingLaws.PromotedButNotDeployed`).
- The key-value scanner undoes the printer iff no empty bare value is followed by a
  separator that opens a quote without closing it at once (`KeyValue.ParseUndoesPrintIff`).
- CEF headers are recovered iff none ends in a backslash (`Cef.HeaderRoundTrip`).
- Flattened objects can be rebuilt iff no key holds a dot and no non-empty object hangs
  under an empty root key (`JsonFlatten.FlattenInvertibleIff`).
- The generated Python agrees with the sandbox iff no target's last value is null
  (`GeneratedCode.CodeMatchesSandboxIff`), and its text is the intended program iff no
  name holds a quote, a line break or a null and no backslash in a name ends it or makes
  an escape (`GeneratedCode.CodeReadsIff`).
- An unsubscribe closure called twice panics (`EventBus.PanicIffClosedTwice`).
- The fallback lineage record is written iff the text shows neither key nor value of a
  field that is not located by JSON or CSV, or the locator would be blank
  (`LineageLaws.FallbackIff`). Key-value specs never reach it, a CEF spec with an enum can.

## Model

| member | source | states |
|---|---|---|
| `Firewall.InspectJson` | apps/ingest-gateway/firewall.go:150-267 | the four-variable token loop returns the decision of the first offending token, else accepts at end of input and quarantines at a syntax error |
| `Firewall.ReadsForest` | apps/ingest-gateway/firewall.go:150-267 | on the tokens of any sequence of JSON values the machine takes each token for exactly what it is in the tree: container at its depth, n-th object key, or neither; it ends with the same stack |
| `Firewall.DepthIsStackHeight` | apps/ingest-gateway/firewall.go:156-236 | after every prefix of a JSON token stream, depth equals stack height |
| `Firewall.InspectorRefinesTreeMeasure` | apps/ingest-gateway/firewall.go:150-267 | a whole document stream is accepted iff depth, total key count and every key length of the trees are within limits; otherwise the decision is that of the first offending token of the tree |
| `Firewall.TruncationVerdict` | apps/ingest-gateway/firewall.go:164-176 | a stream cut anywhere gets the verdict of its own part: cut input is accepted iff nothing offends before the cut |
| `Firewall.InspectWords` | apps/ingest-gateway/firewall.go:270-312 | the word loop returns the decision of the first offending keyed word |
| `Firewall.WordsVerdict` | apps/ingest-gateway/firewall.go:270-312 | key-value text is accepted iff the number of keyed words and every key length are within limits |
| `Firewall.Inspect` | apps/ingest-gateway/firewall.go:93-147 | cancellation, size, encoding and structure are judged in that order; timed out iff cancelled, oversized with the measured size iff over the limit and not cancelled; quarantined for every violation, accepted for none |
| `FirewallLaws.InspectionSpelledOut` | apps/ingest-gateway/firewall.go:93-147 | every violation code has its exact condition: context, then size, then encoding, then the first token or word that breaks a limit with the quantity measured there, then syntax; accepted iff nothing of this applies, and nothing is ever rejected outright |
| `FirewallLaws.JsonInspected` | apps/ingest-gateway/firewall.go:126-147 | JSON text, cut anywhere: accepted iff admitted, not malformed and no token of the trees before the cut breaks a limit; a whole stream iff depth, key count and key lengths of its trees are within limits |
| `FirewallLaws.WordsInspected` | apps/ingest-gateway/firewall.go:270-312 | key-value text is accepted iff admitted, the words with a key (before the first '=', or the first ':' when there is no '=') are not too many, and no such key is too long |
| `EventBus.SendHitsOpenChannel` | apps/ingest-gateway/eventbus.go:38-55 | in every reachable state a publisher's next send goes to a registered, open channel with the id it iterates over |
| `EventBus.StepInv` | apps/ingest-gateway/eventbus.go:38-80 | every step of every thread keeps the wiring, queue, lock and fan-out invariants |
| `EventBus.RunInv` | apps/ingest-gateway/eventbus.go:38-80 | the invariant holds after every run |
| `EventBus.Delivery` | apps/ingest-gateway/eventbus.go:38-80 | in every interleaving ids are unique, no queue exceeds 64, and received plus queued messages are exactly the attempts on the subscriber's own topic minus those that met a full queue, in order |
| `BusRuns.FanOut` | apps/ingest-gateway/eventbus.go:38-55 | for every run and every publish call in it: once nothing is pending, the publication was tried exactly once on each subscriber made on its topic before the call whose closure had not been called by then, and on nobody else |
| `BusRuns.SentOnceToListeners` | apps/ingest-gateway/eventbus.go:38-55 | the same in steps alone: between a publish call and its return there is one send to each such subscriber and none to any other |
| `BusRuns.MapHoldsListeners` | apps/ingest-gateway/eventbus.go:57-80 | whenever the write lock is free the subscriber map holds exactly the subscribers whose closure has not been called, each under its topic and leading to its own channel |
| `BusRuns.SubscriberIsQueue` | apps/ingest-gateway/eventbus.go:38-68 | in every interleaving a subscriber sees a 64-slot queue of its own, fed by the sends addressed to it and by nothing else |
| `BusRuns.Progress` | apps/ingest-gateway/eventbus.go:38-80 | in every reachable state without a panic, publishers, lock holders, receivers and new callers can take their next step |
| `EventBus.ReleasedPublisherIsThrough` | apps/ingest-gateway/eventbus.go:39-55 | a publisher that has released the read lock has finished its loop |
| `EventBus.CallsAccounted` | apps/ingest-gateway/eventbus.go:70-80 | closures called, closures in flight and channels closed always balance |
| `EventBus.PanicIffClosedTwice` | apps/ingest-gateway/eventbus.go:59-80 | a run panics iff some closure reaches its close a second time; no send ever panics |
| `EventBus.UnsubscribingTwicePanics` | apps/ingest-gateway/eventbus.go:70-80 | from any quiet state, calling an open subscriber's closure twice panics |
| `EventBus.ClosedChannelOnlyDrains` | apps/ingest-gateway/eventbus.go:70-80 | after its close a channel is never sent to again; its consumer drains what was queued |
| `Ingest.LocalFsStore.Store` | apps/ingest-gateway/raw_store.go:39-67 | writes a fresh path once; an existing path or a failing disk changes nothing |
| `Ingest.LocalFsStore.Load` | apps/ingest-gateway/raw_store.go:70-77 | returns the bytes at the reference, or nothing |
| `Ingest.IngestService.IngestWithContext` | apps/ingest-gateway/ingest.go:47-87 | one call changes store and bus as the specification step does and returns its outcome |
| `Ingest.StepSafe` | apps/ingest-gateway/ingest.go:47-87 | one call keeps every earlier post sound, overwrites no file, and adds one file and one post exactly on success |
| `Ingest.RunSafe` | apps/ingest-gateway/ingest.go:47-87 | over every run each published envelope is on the topic of its status and its reference loads the ingested bytes with matching length and hash, then and in every later state |
| `Ingest.Conservation` | apps/ingest-gateway/ingest.go:47-87 | successful calls, stored files and (with a bus) posts are equally many |
| `Ingest.NothingDiscarded` | apps/ingest-gateway/envelope.go:52-81 | a call succeeds iff the request is complete, its transport is known, its path is unused and the disk works; it then stores the bytes and announces every field of the request under its status; a failed call changes and publishes nothing |
| `Ingest.EveryPostAnnouncesRequest` | apps/ingest-gateway/ingest.go:47-87 | over every run each post carries the event id, source, transport, reference, hash, length and status of one of the requests, on the topic of what the firewall made of its bytes |
| `Ingest.FirewallNeverCostsEvidence` | apps/ingest-gateway/ingest.go:52-74 | whatever the firewall decides, the same bytes are stored or refused alike |
| `ConcurrentIngest.RunInv` | apps/ingest-gateway/ingest.go:47-87 | with any number of calls, publishers, subscribers and consumers interleaved, store safety, bus invariant and the ledger of announcements are kept |
| `ConcurrentIngest.HeldIsEvidence` | apps/ingest-gateway/ingest.go:66-87 | in every interleaving each envelope a subscriber has received or queued announces a kept event, came on the topic of its status, and its reference loads the ingested bytes with matching length and hash |
| `ConcurrentIngest.AnnouncedExactlyOnce` | apps/ingest-gateway/ingest.go:66-87 | in every interleaving each kept event is still in hand or announced by exactly one publication, and nothing else is announced |
| `ConcurrentIngest.KeepSpelledOut` | apps/ingest-gateway/ingest.go:47-87 | the storing step of a concurrent call: a complete request on an unused path is kept, field by field, and is in hand; any other changes nothing |
| `ConcurrentIngest.BusView` | apps/ingest-gateway/ingest.go:73-87 | every run of the gateway is a run of the bus, so all that is proved of the bus holds in it |
| `ConcurrentIngest.SubscriberSeesItsQueue` | apps/ingest-gateway/ingest.go:73-87 | what a subscriber holds is what its own 64-slot queue makes of the announcements sent to it |
| `KeyValue.ParseKeyValue` | packages/parser-runtime/whitelist.go:223-287 | the index loop terminates and returns the collected bindings of the scan |
| `KeyValue.ScanValue` | packages/parser-runtime/whitelist.go:257-280 | the value branch: verbatim content up to an unescaped quote, or a trimmed run up to a pair separator |
| `KeyValue.CollectedFrom` | packages/parser-runtime/whitelist.go:282-284 | a key is in the result iff it is non-empty and some binding has it, and its value is that of the last such binding |
| `KeyValue.TurnSpelledOut` | packages/parser-runtime/whitelist.go:237-284 | one turn of the scan on any text: what is skipped, where key and value stand, quoted content up to the closing quote or the end, and when the scan is over |
| `KeyValue.SeparatorsSpelledOut` | packages/parser-runtime/whitelist.go:223-230 | which characters separate pairs and key from value, with their defaults |
| `KeyValue.ParsedAreSlices` | packages/parser-runtime/whitelist.go:223-287 | every key and value returned is a contiguous piece of the input; keys are trimmed and non-empty |
| `KeyValue.ParseUndoesPrintIff` | packages/parser-runtime/whitelist.go:223-287 | for every list of printable pairs, parsing the joined text returns exactly those pairs iff no empty bare value stands before a separator that opens a quote; then the last binding wins |
| `KeyValue.StopsAtBareToken` | packages/parser-runtime/whitelist.go:244-252 | after any printed pairs, or none, and with any separator, a token without key-value separator ends the scan for good, whatever follows |
| `Cef.SplitHeader` | packages/parser-runtime/whitelist.go:361-391 | the splitter loop returns the parts of the content |
| `Cef.HeaderRoundTrip` | packages/parser-runtime/whitelist.go:361-391 | escaping pipes, joining seven headers and appending any extension is undone iff no header ends in a backslash |
| `Cef.ParseCef` | packages/parser-runtime/whitelist.go:353-410 | prefix check, split, field count check and extension overlay, with both error outcomes |
| `Cef.MessageRoundTrip` | packages/parser-runtime/whitelist.go:353-410 | a written message comes back as its named headers overridden by the pairs of its extension |
| `Cef.MessageSpelledOut` | packages/parser-runtime/whitelist.go:393-408 | each of the seven headers comes back under its own name, the version as a number, unless the extension has a pair of that name |
| `Cef.RefusedIff` | packages/parser-runtime/whitelist.go:353-391 | a message is refused iff it lacks the prefix, or has fewer than six pipes that no backslash stands before |
| `Lineage.OffsetIffSlice` | packages/parser-runtime/lineage.go:124-134 | a span of bytes is reported iff the token's UTF-8 form is a non-empty piece of the raw bytes; it holds that form, at its first occurrence |
| `Lineage.BuildFieldLineage` | packages/parser-runtime/lineage.go:157-225 | the record with whitelisted operations only, or nothing when the raw text shows no evidence or the record does not validate |
| `Lineage.SliceKeyIsEvidence` | packages/parser-runtime/lineage.go:71-115 | a trimmed key that stands in the text, under a dotted path, always yields a valid record that points at it |
| `Runtime.ResolveField` | packages/parser-runtime/runtime.go:163-179 | exact name first, else the first raw key in scan order that differs only in case |
| `Runtime.TransformEnumMap` | packages/parser-runtime/whitelist.go:206-219 | exact entry, else the first entry in scan order that differs only in case, else the value unchanged |
| `Runtime.ApplyTransformations` | packages/parser-runtime/runtime.go:184-218 | the declared operations in sequence, a failing one leaving the value alone |
| `Runtime.VisitField` | packages/parser-runtime/runtime.go:163-267 | one turn of the field loop, as the field's outcome; what value that is, is `RuntimeValues.Extraction` |
| `Runtime.MapRawFields` | packages/parser-runtime/runtime.go:160-276 | the whole loop and the unknown-field pass, for the orders in which the maps happen to be visited |
| `Runtime.Parse` | packages/parser-runtime/runtime.go:79-280 | fails iff the spec is absent, the text empty or the body undecodable; else the mapped result, whose values are `RuntimeValues.Extraction` |
| `RuntimeValues.Extraction` | packages/parser-runtime/runtime.go:163-248 | with distinct targets, in every order: a field that reads a raw key takes its value through the declared operations one by one and then through its type's conversion, and its target holds the result, or the conversion failed, nothing is extracted and the failure is reported; a field that reads none extracts nothing |
| `RuntimeValues.PlainFieldExtracted` | packages/parser-runtime/runtime.go:220-248 | without operations the value is the conversion of the raw one to the field's type, an error iff that fails |
| `RuntimeValues.TextExtracted` | packages/parser-runtime/runtime.go:225-230 | a plain string field extracts the text of its key as it stands |
| `RuntimeValues.OneOperation` | packages/parser-runtime/runtime.go:184-218 | one law per operation: trimmed, lower case, upper case, or the printed conversion, the text itself when the conversion fails |
| `RuntimeValues.EnumExtracted` | packages/parser-runtime/runtime.go:225-228 | an enum field extracts the entry of its text, else one that differs only in case, else the text |
| `RuntimeValues.PrintedTextExtracted` | packages/parser-runtime/runtime.go:97-119 | from printed pairs to extracted fields: a plain string field extracts exactly the text of the last pair with its name |
| `RuntimeValues.ExtractedTextStands` | packages/parser-runtime/runtime.go:97-119 | in key-value text what a plain string field extracts is a piece of the text |
| `RuntimeValues.UnknownIffUnread` | packages/parser-runtime/runtime.go:269-276 | a raw key is unknown iff no spec field reads it, by name or up to case; another policy keeps no unknown fields |
| `RuntimeValues.BodyRead` | packages/parser-runtime/runtime.go:97-157 | each body kind is read by its own decoder; pairs inside a syslog frame override the frame's fields |
| `RuntimeLaws.MapFieldOrderFree` | packages/parser-runtime/runtime.go:163-267 | with keys distinct under case folding, what becomes of one field does not depend on any scan order |
| `RuntimeLaws.OrderIndependence` | packages/parser-runtime/runtime.go:161-276 | with distinct targets as well, every order of every map gives the same extracted fields, unknown fields and lineage, and the same multiset of errors |
| `RuntimeLaws.SharedTargetDependsOnOrder` | packages/parser-runtime/runtime.go:163-267 | two mapped fields with one target and different values or lineage: two orders with different results are constructed |
| `RuntimeLaws.OrderIndependenceIff` | packages/parser-runtime/runtime.go:161-276 | when keys differ under case folding, all orders give one result iff any two mapped fields that share a target agree in value and lineage |
| `RuntimeLaws.OrdersExist` | packages/parser-runtime/runtime.go:161-276 | every spec and every raw map has an order to be visited in |
| `RuntimeLaws.ResolvedAccounted` | packages/parser-runtime/runtime.go:239-267 | resolved fields are as many as writes plus errors; with distinct targets no write is lost |
| `RuntimeLaws.EveryRawFieldAccounted` | packages/parser-runtime/runtime.go:163-276 | a raw key is unknown, with its value, iff no spec field resolved to it; resolved fields equal extracted plus errors |
| `LineageLaws.ParsedIsLocated` | packages/parser-runtime/lineage.go:124-134 | every key and every non-empty value of a parsed text is found in its bytes at a span that holds exactly it |
| `LineageLaws.ZeroFabrication` | packages/parser-runtime/runtime.go:250-267 | for every validated key-value spec outside a syslog frame, lineage and extracted fields have one domain, each record validates, points at text that is there, and the fallback is never written |
| `LineageLaws.FallbackIff` | packages/parser-runtime/runtime.go:250-267 | for every validated spec, body kind, text and order, a mapped field gets the fallback iff it is not self-locating and the text shows neither key nor value, or its locator is blank; every other record validates with full evidence |
| `ValidatorLaws.SpecValidIff` | packages/parser-runtime/dsl.go:99-157 | the Go validator accepts a spec iff versions, id and formats are well formed, there is a field, each is named, typed, under a dotted target and made of known operations, and unknown fields and raw text are preserved |
| `ValidatorLaws.RecordValidIff` | packages/parser-runtime/lineage.go:71-115 | a lineage record validates iff its path is dotted, its locator is not blank and every other item is a known one |
| `LineageLaws.RecordSpelledOut` | packages/parser-runtime/lineage.go:157-225 | every item of a mapped field's record: path, extractor of the body, locator (JSON pointer with slashes for dots, or the key), score, status, the operations and the evidence, for located and for unlocated fields |
| `LineageLaws.KeepsAllowed` | packages/parser-runtime/lineage.go:196-206 | the recorded operations are the declared ones lineage knows, each kept, in order |
| `LineageLaws.JsonNeverFallsBack` | packages/parser-runtime/lineage.go:157-225 | JSON bodies never reach the fallback |
| `LineageLaws.VendorFallsBack` | packages/parser-runtime/runtime.go:250-267 | a validated CEF spec and a message on which the fallback is written |
| `Comparator.EvaluateFieldCongruence` | ml/shadow/comparator.py:291-358 | the rounded share of active flattened fields that the candidate reproduces |
| `Comparator.EvaluateCriticalSemantics` | ml/shadow/comparator.py:360-404 | the rounded share of events with a dropped or changed critical value |
| `Comparator.EvaluateUnknownRetention` | ml/shadow/comparator.py:406-439 | the rounded share of unknown fields that stay unknown or whose value shows up |
| `Comparator.CalcDps` | ml/shadow/comparator.py:447-467 | the share of security events that keep an endpoint, 1 when there are none |
| `Comparator.Compare` | ml/shadow/comparator.py:145-276 | all metrics, the verdict and the recommendation as the gates decide them; the exact verdict is `VerdictLaws.VerdictExactly` |
| `VerdictLaws.VerdictExactly` | ml/shadow/comparator.py:209-258 | FAILED iff isolation is unverified, the detection score drops, more than one event in 20000 diverges, more than one unknown field in 20000 is lost, or fewer than 17999 in 20000 fields match; SUSPECTED iff none of these and fewer than 19599 match or the candidate is slower by more than half and a millisecond; else PASSED; the recommendation follows |
| `VerdictLaws.MatchShareDecides` | ml/shadow/comparator.py:225-228 | PASSED needs 19599 of 20000 fields to match, below 17999 it is FAILED, in between never PASSED |
| `VerdictLaws.MetricsSpelledOut` | ml/shadow/comparator.py:196-207 | every reported figure from the same counts |
| `VerdictLaws.MatchesCounted` | ml/shadow/comparator.py:291-358 | compared fields are the visible fields of the active events; matches are those the candidate event has with an equal value |
| `VerdictLaws.DivergedCounted` | ml/shadow/comparator.py:360-404 | diverged events are those in which one of the seven critical values is lost or changed, actions and outcomes compared as normalised text |
| `VerdictLaws.KeptCounted` | ml/shadow/comparator.py:406-439 | retained unknown fields are those still unknown by key or whose value is among the candidate's visible fields |
| `VerdictLaws.ScoreIs` | ml/shadow/comparator.py:447-467 | the detection score is the share of denied, blocked or dropped events that name an address, 1 when there are none |
| `VerdictLaws.P95Is` | ml/shadow/comparator.py:481-487 | the latency figure is the sample with at most 95 in 100 samples below it and more than that, or all, at or below it |
| `PyValueLaws.EqSpelledOut` | ml/shadow/comparator.py:311-318 | values compare as Python's do: numbers and booleans by magnitude, lists by item, dictionaries by key |
| `PyValueLaws.FlattenedLeaves` | ml/shadow/comparator.py:278-289 | a name is in the flat event iff it is the joined path of a leaf whose keys are all visible, at any depth, and it holds the value of such a leaf |
| `Rounding.ShareVisible` | ml/shadow/comparator.py:404-404 | a share rounded to four places is positive iff it exceeds one in 20000 |
| `Rounding.ShortfallVisible` | ml/shadow/comparator.py:439-439 | a share rounded to four places is below 1 iff more than one in 20000 is missing |
| `ComparatorLaws.CriticalGate` | ml/shadow/comparator.py:360-404 | the critical gate fires iff 20000 times the diverged events exceed the events compared |
| `ComparatorLaws.RetentionGate` | ml/shadow/comparator.py:406-439 | the retention gate fires iff 20000 times the lost unknown fields exceed all of them |
| `ComparatorLaws.PassedBounds` | ml/shadow/comparator.py:213-258 | PASSED bounds diverged events and lost fields by one in 20000 and rules out a lower detection score |
| `ComparatorLaws.PassedIsSound` | ml/shadow/comparator.py:213-258 | below 20000, PASSED means every non-null critical field of every event survives and every unknown field is retained |
| `ComparatorLaws.LargeBatchPasses` | ml/shadow/comparator.py:213-258 | for every size from 20000 on there is a batch with a diverged critical value, and one with a lost unknown field, that is PASSED |
| `ComparatorLaws.CriticalBoundIsExact` | ml/shadow/comparator.py:360-404 | PASSED rules out divergence for batches of n iff n is below 20000 |
| `ComparatorLaws.RetentionBoundIsExact` | ml/shadow/comparator.py:406-439 | PASSED rules out lost unknown fields in batches with n of them, however many events, iff n is below 20000 |
| `ShadowRunner.ParseLine` | ml/shadow/runner.py:192-230 | a raw line becomes its mapped fields plus its unknown fields; what they are is `ShadowEvents.LineHolds` |
| `ShadowRunner.ParseStructured` | ml/shadow/runner.py:168-190 | a structured event has its known keys renamed and keeps the others, or raises; what it holds is `ShadowEvents.StructuredHolds` |
| `ShadowEvents.LineHolds` | ml/shadow/runner.py:212-230 | each extracted key the spec knows is under its target with the enum's value for its text, or its own; each other key is in `unknown_fields` with its own value; and there is nothing else |
| `ShadowEvents.StructuredHolds` | ml/shadow/runner.py:168-190 | the same for structured events: known keys under their targets with the enum's value or their own, other keys unchanged, the unknown fields it brought, and nothing else |
| `ShadowEvents.UnknownsRead` | ml/shadow/runner.py:172-172 | the unknown fields are read as `dict()` reads a dictionary, a list of pairs (the last of a key wins) or empty text, and raise otherwise |
| `ShadowEvents.HintSpelledOut` | ml/shadow/runner.py:194-208 | the format hint is that of the first format name, in the source's order, that the spec's format holds |
| `ShadowEvents.OutputsSpelledOut` | ml/shadow/runner.py:63-93 | each output is its own raw event parsed with its own spec, the candidate's tagged with its id, version and the shadow flag |
| `ShadowEvents.OutcomeSpelledOut` | ml/shadow/runner.py:95-121 | a completed run reports the comparison of active with candidate outputs under its isolation scan |
| `ShadowRunner.ExecuteDual` | ml/shadow/runner.py:34-121 | the bus ends as it began followed by exactly the active outputs when publishing is on; the report compares all outputs |
| `ShadowRunner.IsolationFlag` | ml/shadow/runner.py:63-104 | the flag is false iff a published active output itself carries the tag; every candidate output carries it |
| `ShadowLaws.ConservativeNeverFails` | ml/shadow/comparator.py:209-258 | a candidate that keeps all active definitions and only adds never fails on raw lines: rates 1, 0, 1, delta 0, PASSED or by latency SUSPECTED |
| `ShadowLaws.StructuredExtensionFails` | ml/shadow/runner.py:168-190 | a structured event and an extension that is FAILED on it, the witness for the next row |
| `StructuredLaws.StructuredPerfectIff` | ml/shadow/runner.py:168-190 | on any mixture of plain lines and plain structured events without collisions, the comparisons that fail are exactly the visible keys the candidate newly defines under another name, the diverged events are those that lose a critical value so, every unknown field is retained, and all metrics are perfect iff no such key occurs |
| `StructuredLaws.MixedBatchNeverFails` | ml/shadow/comparator.py:209-258 | without such keys and with a clean bus the verdict is PASSED, or by latency SUSPECTED |
| `SelfHealing.SpecDeploymentEngine.DeploySpec` | ml/deployment/deployer.py:16-39 | an unvalidated spec is refused; else the active one moves to the history |
| `SelfHealing.SpecDeploymentEngine.Rollback` | ml/deployment/deployer.py:41-55 | the latest earlier revision becomes active again, or nothing changes |
| `SelfHealing.SpecDeploymentEngine.GetActiveSpec` | ml/deployment/deployer.py:57-59 | the top of the source's stack, or nothing |
| `SelfHealing.Evaluate` | ml/self_healing/policy.py:72-129 | rejected iff one of the five refusal conditions, written out, holds; else promoted iff the mode is automatic |
| `SelfHealing.SelfHealingWorkflow.RunEmpiricalValidation` | ml/self_healing/workflow.py:280-305 | passes every threshold iff there are samples and the action and an address are mapped |
| `SelfHealing.SelfHealingWorkflow.HandleRepair` | ml/self_healing/workflow.py:141-268 | the registry changes exactly by what the repair deploys; each decision has its exact condition |
| `SelfHealingLaws.RegistryIsStacks` | ml/deployment/deployer.py:16-55 | over every run of deployments, rollbacks and repairs, history plus active spec of each source is the stack of its own pushes and pops |
| `SelfHealingLaws.RollbackUndoesDeploy` | ml/deployment/deployer.py:41-55 | a rollback after a deployment restores every stack |
| `SelfHealingLaws.LoneDeploymentStays` | ml/deployment/deployer.py:41-46 | a single deployment cannot be rolled back |
| `SelfHealingLaws.EverySpecVetted` | ml/deployment/deployer.py:16-55 | every spec on a stack was put there by a validated deployment or an open-gated repair |
| `SelfHealingLaws.RepairDeploysIff` | ml/self_healing/workflow.py:141-236 | a repair deploys iff the mode is automatic, the document is complete, samples exist, action and address are mapped, the shadow comparison is PASSED and the version numeral is readable; it deploys the candidate under its id, version and that numeral, or 2 when the version begins with no digit |
| `SelfHealingLaws.UnchangedOpensGates` | ml/self_healing/workflow.py:141-220 | a repair that proposes the active parser again passes every gate, for every parser with orderly targets that covers the detection fields and every non-empty batch of plain samples |
| `SelfHealingLaws.UnreadableVersionDeploysNothing` | ml/self_healing/workflow.py:222-236 | an empty version leaves the registry as it was although all gates are open |
| `SelfHealingLaws.PromotedButNotDeployed` | ml/self_healing/workflow.py:222-236 | such repairs exist: one is built that passes every gate in automatic mode and changes nothing |
| `SelfHealingLaws.RegisteredSpecsAreJustified` | ml/self_healing/workflow.py:141-236 | end to end: below 20000 samples, every registered spec that came from a repair preserves every critical field of the parser it was compared with on each sample |
| `SpecCompiler.MergeOverrides` | ml/spec_compiler/compiler.py:15-43 | the three loops build the merged list |
| `SpecCompiler.MergePriority` | ml/spec_compiler/compiler.py:15-43 | per raw field: the override, else the last deterministic mapping, else the first AI suggestion |
| `SpecCompiler.MergeSpelledOut` | ml/spec_compiler/compiler.py:15-43 | the same in full: the last override, marked as one, else the last complete deterministic proposal, else the first complete AI proposal, else nothing |
| `SpecCompiler.MergeOrder` | ml/spec_compiler/compiler.py:15-43 | each raw field once, in order of first usable mention |
| `SpecGeneration.GenerateUlpfParserSpec` | ml/spec_compiler/compiler.py:45-123 | the generated spec: format, identifier, one typed field per mapping, or the fallback field |
| `SpecGeneration.GeneratedSpelledOut` | ml/spec_compiler/compiler.py:45-123 | every item of the generated spec: fixed versions, format as body kind, preserved unknowns and raw text; per raw field the last mapping's target, typed by what its name holds; one fallback field without mappings |
| `SpecGeneration.FormatIs` | ml/spec_compiler/compiler.py:47-66 | the format is the first known name the detected format holds, else key-value |
| `SpecGeneration.ParserIdSpelledOut` | ml/spec_compiler/compiler.py:68-71 | the parser id is the cleaned and stripped source id, prefixed when it begins with a dot or a dash, and a default when nothing is left |
| `SpecGeneration.ParserIdValid` | ml/spec_compiler/compiler.py:68-71 | whatever the source id, the cleaned identifier is a valid parser id |
| `SpecGeneration.GeneratedSpecValidIff` | packages/parser-runtime/dsl.go:99-157 | the Go validator accepts the generated spec iff, of the mappings that stay for their raw names, all names are non-empty and all targets are dotted identifiers, whatever the source id and format |
| `SpecGeneration.CompiledSpecValidIff` | ml/spec_compiler/compiler.py:149-156 | from the package on: accepted iff every winning mapping is well named |
| `GeneratedCode.GeneratePythonNative` | ml/spec_compiler/compiler.py:131-137 | the loop writes the text of the guarded assignments in mapping order |
| `GeneratedCode.CodeSpelledOut` | ml/spec_compiler/compiler.py:131-137 | the generated text letter by letter: prologue, two lines per mapping in order, return |
| `GeneratedCode.CodeReadsIff` | ml/spec_compiler/compiler.py:131-137 | reading the generated text back, with Python's literal syntax, gives the intended program iff no name holds a quote, line break or null and every backslash stands before a character that makes no escape of it |
| `GeneratedCode.ParseFn` | ml/test_bench/sandbox.py:58-65 | the sandbox interpreter's loop |
| `GeneratedCode.SandboxSkipsNulls` | ml/test_bench/sandbox.py:58-65 | on every event the sandbox computes what the program computes on the non-null entries |
| `GeneratedCode.RunWrites` | ml/spec_compiler/compiler.py:131-137 | the program leaves under each target the value of the last mapping present in the event, nothing else, and never raises |
| `GeneratedCode.CodeMatchesSandboxIff` | ml/test_bench/sandbox.py:58-65 | generated text and sandbox agree on an event iff no target's last value is null |
| `GeneratedCode.CodeMatchesSandbox` | ml/test_bench/sandbox.py:58-65 | they agree on every null-free event |
| `GeneratedCode.NullEntryDiffers` | ml/test_bench/sandbox.py:62-64 | one mapping and one null entry on which they differ |
| `JsonFlatten.FlattenDict` | ml/source_profiler/profiler.py:597-606 | the recursion with its accumulator returns the flattened dictionary |
| `JsonFlatten.NoCollision` | ml/source_profiler/profiler.py:597-606 | no two leaves meet: the result lists every leaf under its joined path, in order |
| `JsonFlatten.FlattenInvertibleIff` | ml/source_profiler/profiler.py:597-606 | splitting keys on dots rebuilds the object, order and empty sub-objects included, iff no key holds a dot and no non-empty object hangs under an empty root key |
| `JsonFlatten.FlattenInjective` | ml/source_profiler/profiler.py:597-606 | two such objects that flatten alike are equal |
| `Drift.ClampNeverActs` | ml/drift/structural.py:316-332 | between non-negative counts with positive totals the divergence lies in [0, 1] unclamped |
| `Drift.DivergenceSymmetric` | ml/drift/structural.py:316-332 | it is symmetric |
| `Drift.DivergenceZeroIff` | ml/drift/structural.py:316-332 | it is zero iff the normalised distributions agree on every key |
| `Drift.DivergenceTriangle` | ml/drift/structural.py:316-332 | it satisfies the triangle inequality |
| `Drift.DivergenceIsLargestGap` | ml/drift/structural.py:316-332 | it is the largest amount by which the combined share of any set of keys differs between the two sides, and some set attains it |
| `Drift.EmptyIsAtDistanceZero` | ml/drift/structural.py:324-325 | counts that add up to zero are at distance 0 from everything |
| `Drift.JaccardBounds` | ml/drift/structural.py:188-197 | the key-set distance lies in [0, 1] |
| `Drift.JaccardSymmetricAndZeroIff` | ml/drift/structural.py:188-197 | it is symmetric, and zero iff the key sets are equal |
| `Drift.JaccardTriangle` | ml/drift/structural.py:188-197 | it satisfies the triangle inequality, empty sets included |
| `Drift.JaccardMeasures` | ml/drift/structural.py:188-197 | it is the share of the keys of either side that the other lacks, and 1 iff the sides share no key |
| `Latency.LatencyTracker.Record` | ml/benchmark/metrics.py:29-30 | appends the latency, negative ones as 0 |
| `Latency.LatencyTracker.RecordBatch` | ml/benchmark/metrics.py:32-34 | appends every latency of the batch in order, negative ones as 0 |
| `Latency.LatencyTracker.Summarize` | ml/benchmark/metrics.py:40-64 | the summary of the samples, all zero when there are none |
| `Latency.QuantileMonotone` | ml/benchmark/metrics.py:47-55 | the interpolated quantile grows with q across segment boundaries, from the least sample at 0 to the greatest at 1 |
| `Latency.QuantileRank` | ml/benchmark/metrics.py:47-55 | more than q(n - 1) samples are at or below the quantile and at least (1 - q)(n - 1) at or above |
| `Latency.SummaryOrdered` | ml/benchmark/metrics.py:40-64 | min, p50, p90, p99, max are in order and the mean lies between min and max |
| `Latency.ExtremesAreSamples` | ml/benchmark/metrics.py:57-59 | min and max are recorded samples and bound all of them |
| `Latency.SummaryOrderFree` | ml/benchmark/metrics.py:40-64 | the summary depends only on the multiset of samples |
| `Latency.SummarySpelledOut` | ml/benchmark/metrics.py:40-64 | least and greatest are the ends of the ordered samples, the mean times the count is the sum of what was recorded, and p50, p90 and p99 stand on the line between the samples around the shares 0.5, 0.9 and 0.99 |

## Left out

- Event bus: modelled as a state machine over values, one step per lock operation, send, deletion, close and receive, because the subject is interleaving; heap objects and goroutine scheduling are not modelled.
- Store: the temporary file, the rename and directory creation are one atomic write that succeeds or fails; path joining is an arbitrary function, so two references may meet in one file.
- Identifiers, dates, SHA-256, UTF-8 validity, regular expressions, case mappings, number and timestamp conversions, value printing, `net.ParseIP`, and the JSON, CSV, LEEF and syslog decoders are arbitrary functions or inputs. A decoder's token stream is the input of the JSON inspector, and a line's extraction is a fixed function in the shadow run.
- Text is a sequence of characters, and bytes where they matter are their UTF-8 form; text that is not valid UTF-8 is not modelled. Case mapping in the parser runtime is per character.
- Floating point: ratios, counts and latencies are exact numbers with explicit rounding to even, so the 20000 bound is that of exact arithmetic; NaN and infinities are not modelled.
- Comparator.EvaluateFieldCongruence: gives the rate but not the list of per-field divergences, because only the rate enters the verdict.
- Comparator.EvaluateCriticalSemantics: gives the rate but not the detail messages, because they are display text.
- Comparator.EvaluateUnknownRetention: gives the rate but not the detail messages, because they are display text.
- Comparator.Compare: gives state, recommendation and metrics but not the reasons, divergences and timestamps of the report, because they are display text and clock readings.
- ShadowRunner.ParseStructured: treats a pair whose key is not text as raising, because dictionaries here have text keys.
- Reports: divergence lists, reason texts, error messages, timestamps and serialisation are dropped. Of a reason list only whether it is empty matters.
- Context deadlines are checked once, at the start of an inspection, as in the source.
- Value types beyond strings, numbers, booleans, null, lists and dictionaries, and candidate documents that are not dictionaries, are not modelled.
- Spec compiler: the Vector and Logstash outputs, the JSON text of the generated spec and the spec hash are not modelled; names that are not strings are not modelled. The reader for generated Python covers programs of the generated shape only, and takes an escape that names a surrogate for an error.
- LEEF and syslog splitting, the Go-side flattening of JSON, `CanHandle`, `SafeRender`, the exporters, the normalised-event validators, detection rules, the source profiler's type inference and the rest of the drift report are left out: they rest on library engines or would only add easy members.
- HTTP servers, command line, daemon control, dashboards and hardware measurement are not modelled.
