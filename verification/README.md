# Verified model of KubeDNS Shepherd

KubeDNS Shepherd gives pods a DNS configuration. A `DNSClass` resource says which pods and which
configuration; a validating webhook checks the class, a reconciler discovers cluster fields and
publishes a status, and a pod webhook renders the search domains and patches the pod. The repository
also holds a load generator that watches the DNS packets of its own lookups and counts them. This
project models both and proves what holds of them for every input, every run and every interleaving.

**The packet observer** (`docs/dns-demo/loadgen/main.go`)

- `WireName`: names on the wire (sections 3.1 and 4.1.4 of RFC 1035). A walk is a path over labels and
  pointers to a terminator; the decoder is the loop of the source, proved to accept exactly the walks of
  at most 128 positions.
- `PlainName`, `NameCompression`: encoders as the decoder's inverses, and how far its budget reaches.
- `DnsMessage`: header, question, TCP framing, the labels and keys of the counters.
- `Counting`, `DnsTracker`: what the counters should say as functions of the packets seen, and the
  heap of counters that is updated in place.
- `WorkerPool`: the channel, the workers and the main goroutine as a state machine.

**The DNSClass pipeline**

- `SearchTemplates`: the regular expression for placeholders, the part of the template language it
  speaks about, its parser and its rendering. `DnsClass`: the resource and its template keys.
- `DeepCopy`: the resource on the heap and the generated copies.
- `DnsClassWebhook`, `DnsClassController`, `PodWebhook`: defaulting and validation, the reconciler with
  its shared pointer, the pod webhook.
- `StatusConvergence`: one class between editors, API server, cache, queue and reconciler, as a state
  machine. `StatusHistory`, `StatusLineage`: what a chain of reconciles makes of a status, and which chain
  stands behind a stored status after any run of the machine. `StatusWriter`: the retried status write.
- `ReadyMeansRenderable`: the result across all of them.

`GoStrings` holds the functions of Go's `strings` and `strconv` packages that the code calls. A Go string
or byte slice is a `string` whose characters are bytes; a Go slice is an `Option` of a sequence (`None` is
nil) or, where its storage matters, a nullable array.

## What turned out false, and the exact conditions

- *Every legal compressed name decodes.* Exactly if its labels, the pointers on its way and the terminator
  are at most 128 (`NameCompression.NameDecodesExactlyWithin`). Up to 63 labels that is always so; a chain of
  names that share their suffixes shows the bound is sharp, though 127 labels are legal
  (`NameCompression.CompressionRoundTrip`, `NameCompression.SixtyThreeIsTheBound`).
- *The dotted text identifies a name.* Two names have the same text exactly if splitting every label at its
  dots gives the same pieces (`PlainName.SameTextExactlyIfSamePieces`), so names without dots inside labels
  are told apart.
- *Splitting a counter's key gives back its name and type.* Exactly for names without a NUL byte
  (`DnsMessage.SplitRecoversNulFreeNames`); the counters themselves are never mixed up.
- *A ready class renders.* Exactly if no placeholder it uses has an empty value: an empty discovered domain
  counts as discovered (`ReadyMeansRenderable.ReadyIsRenderable`, `EmptyDomainIsReadyButUnrenderable`).
- *The webhook never dereferences nil fields.* It does exactly for a selected class that is ready, has policy
  None and no discovered fields. Over the runs of the machine these are the classes edited to policy None
  whose status was written by a reconcile that succeeded, while none behind it created fields: the status
  belongs to an older generation (`ReadyMeansRenderable.CrashNeedsAnOlderSpec`, and
  `ReadyMeansRenderable.EditedClassCrashes` for a run that leads there).
- *Discovered fields never go away, and the conditions tell all outcomes.* A reconcile starts from the status
  in its cache and its write replaces the stored one. So a stored status is the history of a chain of
  reconciles, and the chain is everything that landed exactly if each landing replaces the status that was
  read (`StatusLineage.StatusIsEveryLanding`). The fields are gone after a landing exactly if its reconcile
  read none and created none (`StatusLineage.LandingDropsFields`, `StatusLineage.StaleReadDropsFields`).
- *Admission is idempotent.* Exactly if the class that the new policy selects is the same one, none, or one
  that cannot patch (`PodWebhook.IdempotentExactlyWhen`, `PodWebhook.TwoClassesTakeTurns`).
- *The status converges.* When no work is pending, a live class has the status that a successful reconcile
  of its present generation computed, exactly unless the last reconcile gave up writing its status: that
  error is only logged and nothing tries again (`StatusConvergence.QuiescentMeansSettled`,
  `StatusConvergence.AbandonedWriteIsNotRetried`).

## Hypotheses

The sublanguage of templates is literal text and actions `{{ .key }}`: the text contains no `{{` and does not
end in `{` before an action, keys start with a letter or `_`, blanks are space, tab, carriage return and line
feed. What the template engine does with any other text is an arbitrary function; every theorem holds for every
such function. The store is observed through an informer that delivers every change in order, a key is
reconciled by one worker at a time, and an update with an old version is refused.

## Model

| member | source | states |
|---|---|---|
| WireName.DecodeName | docs/dns-demo/loadgen/main.go:309-346 | the loop over labels, offset, next and jumped computes the function `Decode`, whose meaning is the next row; a failure returns the empty name and 0 |
| WireName.NodeIsTheSwitch | docs/dns-demo/loadgen/main.go:320-341 | each position reads as the masks of the code say, on the octets as bit vectors: terminator, 14-bit pointer, label of that length, or nothing |
| WireName.DecodeIsTheWalk | docs/dns-demo/loadgen/main.go:315-345 | decoding succeeds exactly if some walk of at most 128 positions leads from the start to a terminator, and the name is the dotted labels of every such walk |
| WireName.WalkIsUnique | docs/dns-demo/loadgen/main.go:315-345 | a packet has at most one walk from a position, of whatever length |
| WireName.WalkNeverRevisits | docs/dns-demo/loadgen/main.go:326-334 | a walk that reaches a terminator visits no position twice |
| WireName.WalkFitsInPacket | docs/dns-demo/loadgen/main.go:315-345 | so it has at most as many positions as the packet has bytes |
| WireName.CycleIsRejected | docs/dns-demo/loadgen/main.go:326-334 | a start whose path comes back to a position has no walk and does not decode |
| WireName.ReservedLengthIsRejected | docs/dns-demo/loadgen/main.go:335-336 | a path to a length octet of 64 to 191, or cut off, does not decode |
| WireName.SmallPacketsNeedNoBudget | docs/dns-demo/loadgen/main.go:315-345 | in packets of at most 128 bytes the bounded loop accepts exactly what an unbounded walk accepts |
| WireName.NextIsLocal | docs/dns-demo/loadgen/main.go:322-341 | where the question goes on is fixed by the bytes from the start up to there, in any packet that holds them |
| WireName.WalkHasInPlaceEnd | docs/dns-demo/loadgen/main.go:310-325 | on success the next position lies behind the start and within the packet |
| WireName.DecodeSurvivesAppend | docs/dns-demo/loadgen/main.go:309-346 | bytes behind a packet do not change a name that decodes |
| PlainName.PlainNameDecodesUpTo127 | docs/dns-demo/loadgen/main.go:315-345 | a name written uncompressed anywhere in any packet decodes to its dotted form exactly if it has at most 127 labels |
| PlainName.LegalNameDecodes | docs/dns-demo/loadgen/main.go:315-345 | every name within 255 wire octets has at most 127 labels and decodes |
| PlainName.LongestName | docs/dns-demo/loadgen/main.go:315-345 | 127 one-octet labels reach 255 octets and decode; 128 do not |
| PlainName.SameTextExactlyIfSamePieces | docs/dns-demo/loadgen/main.go:325-338 | two names of non-empty labels have the same text exactly if their labels, split at their dots, are the same pieces |
| PlainName.DottedIsInjective | docs/dns-demo/loadgen/main.go:325 | so joining dot-free labels is injective, the root being the only name written "." |
| PlainName.DottedConfusesDots | docs/dns-demo/loadgen/main.go:325-338 | with a dot inside a label two different names have the same text |
| NameCompression.WriteNameReadsBack | docs/dns-demo/loadgen/main.go:326-343 | what a suffix-sharing writer adds for a name is walked with exactly one position for each label, each pointer and the terminator |
| NameCompression.NameDecodesExactlyWithin | docs/dns-demo/loadgen/main.go:315-343 | in a message of any names and other bytes, every name decodes to itself, going on right behind its own bytes, exactly if these positions are at most 128 |
| NameCompression.CompressionRoundTrip | docs/dns-demo/loadgen/main.go:315-343 | there is at most one pointer a label, so every name of at most 63 labels decodes |
| NameCompression.SixtyThreeIsTheBound | docs/dns-demo/loadgen/main.go:315 | names of one label more each time decode exactly up to 64 labels where first written and up to 63 where repeated |
| DnsMessage.ParsesExactly | docs/dns-demo/loadgen/main.go:292-299 | a packet parses exactly if it holds a header whose octets 4 and 5 are not both zero, a name behind it that decodes, and four octets behind the name |
| DnsMessage.ParsedOctets | docs/dns-demo/loadgen/main.go:300-306 | on the octets: the QR bit is the top bit of octet 2, the rcode the low half of octet 3, and the type "A" or "AAAA" exactly if 0, 1 or 0, 28 stand right behind the bytes of the name |
| DnsMessage.FramedOctets | docs/dns-demo/loadgen/main.go:282-291 | the framed message is the 256*a + b octets behind a prefix of the octets a, b; a packet that has fewer does not parse |
| DnsMessage.FramingAgrees | docs/dns-demo/loadgen/main.go:282-291 | a length prefix, a message below 65536 bytes and any trailer parse over TCP as the message parses alone |
| DnsMessage.FramedOnlyIfComplete | docs/dns-demo/loadgen/main.go:282-291 | whatever parses over TCP is such a prefix, message and trailer |
| DnsMessage.ParseSurvivesAppend | docs/dns-demo/loadgen/main.go:292-306 | bytes behind a message that parses do not change the result |
| DnsMessage.MessageRoundTrip | docs/dns-demo/loadgen/main.go:292-306 | a built header and question parse to the name, type label, QR bit and rcode label exactly if the question count is not zero and the name has at most 127 labels; otherwise they are rejected |
| DnsMessage.TypeNameIsInjective | docs/dns-demo/loadgen/main.go:348-357 | different 16-bit types have different labels, printed numbers included |
| DnsMessage.RCodeNameIsInjective | docs/dns-demo/loadgen/main.go:359-374 | different rcodes have different labels |
| DnsMessage.KnownNames | docs/dns-demo/loadgen/main.go:348-374 | each named label stands for exactly its number, so no other type or code is reported under it |
| DnsMessage.OtherNamesAreNumbers | docs/dns-demo/loadgen/main.go:354-374 | all other types and codes are their numbers in decimal, without leading zeros |
| DnsMessage.KeyIsInjective | docs/dns-demo/loadgen/main.go:219 | the NUL-joined key tells all (name, type) pairs apart, names with NUL bytes included |
| DnsMessage.SplitRecoversNulFreeNames | docs/dns-demo/loadgen/main.go:234 | splitting the key at the first NUL gives back name and type exactly if the name has no NUL |
| DnsMessage.NamesMayContainNul | docs/dns-demo/loadgen/main.go:234-241 | a decodable name with a NUL, whose key splits at the wrong place |
| Counting.StatsNext | docs/dns-demo/loadgen/main.go:194-216 | one more message changes the counts of its own candidate, by one, and no other's |
| Counting.KeysTellCandidatesApart | docs/dns-demo/loadgen/main.go:218-226 | two parsed packets, framed or not, reach the same counters exactly if name and type agree |
| Counting.TotalIsSumOverKeys | docs/dns-demo/loadgen/main.go:196-215 | over any messages a total equals the sum over any list of different keys that covers them |
| Counting.ResponsesAreSumOfRCodes | docs/dns-demo/loadgen/main.go:213-215 | the responses of a key are the sum over its response codes |
| Counting.ReportAddsUp | docs/dns-demo/loadgen/main.go:228-253 | requests, responses and NXDOMAIN totals are the sums over the reported lines as unsigned 64-bit numbers |
| Counting.ReportAddsUpExactly | docs/dns-demo/loadgen/main.go:228-253 | below 2^64 messages nothing wraps and the totals are the plain counts and sums |
| Counting.LineAddsUp | docs/dns-demo/loadgen/main.go:213-215 | in every reported line the responses are the sum of the response codes, in whatever order |
| Counting.PairOrder | docs/dns-demo/loadgen/main.go:245-250 | the comparator is byte order on names, then on types, with a prefix first; and it is a total order |
| Counting.SortedListIsUnique | docs/dns-demo/loadgen/main.go:245-250 | elements have only one strictly increasing order, so the sorting algorithm does not matter |
| Counting.CandidatesAreSorted | docs/dns-demo/loadgen/main.go:232-250 | the report's candidates are strictly increasing and exactly those that occur |
| Counting.ReportIsRight | docs/dns-demo/loadgen/main.go:188-253 | on the packets themselves: every line holds the numbers of packets with its name and type, and of their response codes, modulo 2^64; every packet that counts has a line; the lines are in byte order |
| Counting.TotalsAreHits | docs/dns-demo/loadgen/main.go:188-212 | each total is the number of packets that parse and agree with their side, or that carry NXDOMAIN, modulo 2^64 |
| DnsTracker.Tracker.RecordRequest | docs/dns-demo/loadgen/main.go:188-199 | after any packet every counter still equals its count over all packets seen, this one included, and candidates still share no object |
| DnsTracker.Tracker.RecordResponse | docs/dns-demo/loadgen/main.go:201-216 | the same for responses, their codes and the NXDOMAIN total |
| DnsTracker.Tracker.Candidate | docs/dns-demo/loadgen/main.go:218-226 | the counters of a key, created at zero if new, all others untouched |
| DnsTracker.Tracker.Snapshot | docs/dns-demo/loadgen/main.go:228-253 | for every order in which the map is walked the result is the report of the trace, its totals the numbers of packets, its lines in byte order of name and type, with maps of its own |
| DnsTracker.RecordAll | docs/dns-demo/loadgen/main.go:188-216 | after any sequence of record calls the counters agree with all packets seen |
| DnsTracker.RecordAfterSnapshot | docs/dns-demo/loadgen/main.go:228-253 | a snapshot stays the report of the packets seen when it was taken, whatever is recorded afterwards |
| DnsTracker.SortFuncSorts | docs/dns-demo/loadgen/main.go:245-250 | sorting lines with different pairs gives the same lines in strict order |
| DnsTracker.SortedLinesAreTheReport | docs/dns-demo/loadgen/main.go:232-250 | one line for each candidate, in any order, sorts into the report |
| WorkerPool.RunKeepsAccounts | docs/dns-demo/loadgen/main.go:129-154 | at every moment of every schedule jobs sent are successes plus failures plus jobs held, and each step does one unit of work |
| WorkerPool.NoDeadlock | docs/dns-demo/loadgen/main.go:135-154 | with a worker, a reachable state has no next step exactly if the wait is over |
| WorkerPool.DeadlockNeedsNoWorkers | docs/dns-demo/loadgen/main.go:384-396 | the pool is stuck at the start exactly without workers and with queries, which the positive-integer check excludes |
| WorkerPool.ResultsAreCounted | docs/dns-demo/loadgen/main.go:135-149 | after any run a success was added for each lookup that found something and a failure for each other one |
| WorkerPool.EveryRunEndsWithAllCounted | docs/dns-demo/loadgen/main.go:150-164 | every schedule ends after the same number of steps; at every moment successes are the lookups that found something and failures those that did not, and at the end they add up to the queries |
| SearchTemplates.WordCharacters | api/v1alpha1/dnsclass_types.go:91 | the characters of a key are the letters, the digits and the underscore, listed one by one |
| SearchTemplates.MatchHereIsTheExpression | api/v1alpha1/dnsclass_types.go:91 | the scanner matches exactly where and what the regular expression matches |
| SearchTemplates.MatchesDoNotOverlap | api/v1alpha1/dnsclass_types.go:97 | no match begins inside another |
| SearchTemplates.SkippingLosesNothing | api/v1alpha1/dnsclass_types.go:97 | so the scan that skips over matches finds the matches of every position |
| SearchTemplates.KeysAreAllMatches | api/v1alpha1/dnsclass_types.go:97-101 | a key is found exactly if the expression matches with it at some position |
| SearchTemplates.ExtractionInvertsPrinting | api/v1alpha1/dnsclass_types.go:91-101 | the keys found in a printed template are its fields, in order |
| SearchTemplates.ParseInvertsPrint | internal/webhook/pods/pods_webhook.go:154 | a printed template parses to itself |
| SearchTemplates.PrintInvertsParse | internal/webhook/pods/pods_webhook.go:154 | what parses is the print of its template |
| SearchTemplates.RendersIffKeysAreSet | internal/webhook/pods/pods_webhook.go:154-164 | rendering succeeds exactly if every field has a value |
| SearchTemplates.FilledInIsUnique | internal/webhook/pods/pods_webhook.go:154-166 | a text with the matches of the expression cut out, namespace or domain put there and all other characters kept is one text only |
| SearchTemplates.RenderedIsPlain | internal/webhook/pods/pods_webhook.go:161-166 | nothing is left to replace in rendered text if no value contains a brace |
| PodWebhook.RenderedSearch | internal/webhook/pods/pods_webhook.go:136-166 | what is rendered from a search domain is that text: the namespace where podNamespace stood, the domain where clusterDomain stood, the rest unchanged |
| DnsClass.ExtractTemplateKeysRegex | api/v1alpha1/dnsclass_types.go:89-107 | the nested loops return the first occurrences of the keys of all searches |
| DnsClass.FirstOccurrencesInOrder | api/v1alpha1/dnsclass_types.go:99-103 | these are the same keys, each once, by first occurrence |
| DnsClass.ExtractedKeysAreTheFields | api/v1alpha1/dnsclass_types.go:89-107 | for printed templates they are exactly the fields used, duplicate-free, in first-occurrence order |
| DeepCopy.CopySpec | api/v1alpha1/zz_generated.deepcopy.go:89-111 | the copy shows the same spec and reaches only new objects |
| DeepCopy.CopyStatus | api/v1alpha1/zz_generated.deepcopy.go:124-138 | the same for a status |
| DeepCopy.CopyDiscovered | api/v1alpha1/zz_generated.deepcopy.go:151-158 | the same for discovered fields |
| DeepCopy.CopyClass | api/v1alpha1/zz_generated.deepcopy.go:30-36 | the same for a class |
| DeepCopy.CopyList | api/v1alpha1/zz_generated.deepcopy.go:57-68 | the same for every item of a list |
| DnsClassWebhook.Default | internal/webhook/v1alpha1/dnsclass_webhook.go:59-73 | a nil list of policies and an empty policy get the defaults, nothing else changes |
| DnsClassWebhook.DefaultsAre | internal/webhook/v1alpha1/dnsclass_webhook.go:40-73 | a nil list allows ClusterFirst, ClusterFirstWithHostNet and None, an empty policy becomes None, all else stays as sent |
| DnsClassWebhook.Validate | internal/webhook/v1alpha1/dnsclass_webhook.go:98-133 | the errors are exactly the ones the spec has, and there are none exactly for accepted specs: the four policies, no configuration beside another policy than None, no placeholder but the two supported ones |
| DnsClassWebhook.AcceptedAfterDefaulting | internal/webhook/v1alpha1/dnsclass_webhook.go:59-133 | what a spec must meet, as it was sent, to pass defaulting and then validation; defaulting again changes nothing |
| DnsClassController.ExtractSlice | internal/controller/dnsclass_controller.go:153-166 | the loop returns all elements, or the first that is not a string |
| DnsClassController.DiscoverFields | internal/controller/dnsclass_controller.go:173-199 | through the pointer each field takes its extracted value or keeps its own, and the failed fields and errors are reported |
| DnsClassController.Extraction | internal/controller/dnsclass_controller.go:134-171 | on the fetched values: a string under clusterDomain, and an array of strings only under clusterDNS, are extracted as they are; anything else is an error |
| DnsClassController.FailsExactly | internal/controller/dnsclass_controller.go:101-117 | a reconcile fails exactly for policy None with a placeholder for the domain while the first fetch gives no string, or for the nameservers while the second gives no array of strings |
| DnsClassController.DiscoversWhatIsGiven | internal/controller/dnsclass_controller.go:101-123 | a successful reconcile for policy None holds what it was given, and otherwise what was known before |
| DnsClassController.SetStatusCondition | internal/controller/dnsclass_controller.go:271-286 | the first condition of the type is replaced in place, or the condition is appended |
| DnsClassController.UpdateStatus | internal/controller/dnsclass_controller.go:252-289 | the state and the one condition for the outcome, all else kept |
| DnsClassController.Reconcile | internal/controller/dnsclass_controller.go:72-132 | the status written in place through aliased pointers is a function of spec, earlier status and what the two fetches bring |
| StatusHistory.StoredStatusInvariant | internal/controller/dnsclass_controller.go:89-131 | what a chain of reconciles makes, each starting from the status written before: error exactly if the last failed, else ready; ready for policy None has fields; one condition for each outcome in the chain, never an initializing one |
| StatusHistory.DiscoveredExactlyOnceCreated | internal/controller/dnsclass_controller.go:101-123 | along a chain discovered fields exist exactly if they did before or a successful reconcile for policy None created them |
| StatusHistory.FieldsHoldTheLastExtraction | internal/controller/dnsclass_controller.go:102-118 | along a chain existing fields hold the last successful extraction, even one of a failing reconcile, because both write through the shared pointer |
| StatusHistory.NothingIsRememberedBefore | internal/controller/dnsclass_controller.go:102-122 | along a chain partial successes of failing reconciles are dropped until fields exist |
| StatusConvergence.StepKeepsInv | internal/controller/dnsclass_controller.go:72-132 | every edit, delivery, reconcile, read, write, conflict and abandoned write keeps the invariant: stored statuses come from reconciles of earlier objects, what is not current is being worked on, and no generation is worked on again once it is settled |
| StatusConvergence.QuiescentMeansSettled | internal/controller/dnsclass_controller.go:311-339 | over every interleaving, when no work is pending, the status of a live class was computed by a successful reconcile that read its present spec and generation, exactly unless the last reconcile gave up writing |
| StatusConvergence.AbandonedWriteIsNotRetried | internal/controller/dnsclass_controller.go:95-99 | a run in which a write is given up and the class stays without status |
| StatusConvergence.StatusWritesAreQuiet | internal/controller/dnsclass_controller.go:331-334 | a status write changes neither spec nor generation, makes no work of its own, and does nothing on a conflict |
| StatusConvergence.Convergence | internal/controller/dnsclass_controller.go:72-132 | once editors pause and discovery works, every schedule is bounded, stops exactly when no work is left, and then the status comes from the present generation exactly unless the last write was given up |
| StatusLineage.StatusOfAnyRun | internal/controller/dnsclass_controller.go:89-131 | over every interleaving a stored or cached status is what the chain of reconciles behind it makes: none yet, or error exactly if the writing reconcile failed, else ready; the condition ReconcileCompleted or ReconcileError, both true, for each outcome in the chain; fields exactly if the chain created them |
| StatusLineage.FieldsOfAnyRun | internal/controller/dnsclass_controller.go:101-123 | and the fields hold what was extracted last in the chain since they were created |
| StatusLineage.QuiescentHoldsWhatWasGiven | internal/controller/dnsclass_controller.go:101-132 | over every run a class of policy None at rest holds the domain and the nameservers that its reconcile was given, and was given the domain if it uses it |
| StatusLineage.StatusIsEveryLanding | internal/controller/dnsclass_controller.go:291-301 | at every moment the chain is all that landed since the creation, exactly if each landing replaces the status its reconcile had read |
| StatusLineage.FreshReadsAddUp | internal/controller/dnsclass_controller.go:75-99 | that is so while every reconcile starts from the stored status and no class is deleted under one |
| StatusLineage.LandingDropsFields | internal/controller/dnsclass_controller.go:101-123 | after a landing the discovered fields are gone exactly if its reconcile read none and created none; a loss needs a read that was not current |
| StatusLineage.StaleReadDropsFields | internal/controller/dnsclass_controller.go:75-123 | a run in which fields and the ready condition are lost, for any two specs of policy None of which the second uses a field that is not discovered then |
| StatusLineage.ReadsWereStored | internal/controller/dnsclass_controller.go:75-85 | whatever is cached or was read by a reconcile was stored at some moment of the run |
| StatusLineage.SettledStatusHasASource | internal/controller/dnsclass_controller.go:72-132 | a settled status is computed from an object with the present spec and generation that was stored at some moment |
| StatusWriter.WriteStatus | internal/controller/dnsclass_controller.go:291-309 | however far the cache is behind and whatever others do, spec and generation are what they left; the status landed, the class is gone from store or cache, or each of five attempts was disturbed or read a stale object |
| PodWebhook.GetDnsClass | internal/webhook/pods/pods_webhook.go:103-132 | the search loop returns the first class that covers the namespace and allows the policy |
| PodWebhook.SelectsTheFirst | internal/webhook/pods/pods_webhook.go:114-131 | the class selected is the first that allows the policy, does not disable the namespace, even if it allows it, and allows it or names no namespaces; none is selected exactly if there is none |
| PodWebhook.WriteConfig | internal/webhook/pods/pods_webhook.go:135-179 | the configuration written through the shared pointer and the error, for every outcome including the half-finished ones |
| PodWebhook.ConfigureDnsForPod | internal/webhook/pods/pods_webhook.go:134-185 | the pod and the error when the function returns, policy and annotation included |
| PodWebhook.Handle | internal/webhook/pods/pods_webhook.go:53-100 | the response is a function of the stored classes and the request, and nothing that existed before is changed |
| PodWebhook.HandleAll | internal/webhook/pods/pods_webhook.go:103-114 | any number of pods: each gets the response it would get alone and stored classes stay as they are |
| PodWebhook.WithoutCopies | internal/webhook/pods/pods_webhook.go:149-170 | configured in place without copies, a second pod gets the first one's search domains, in the same object |
| PodWebhook.PatchesOnlyDnsFields | internal/webhook/pods/pods_webhook.go:53-100 | a patch is made exactly by a selected, ready class that can configure the pod; it touches policy, configuration and one annotation and follows the class |
| PodWebhook.IdempotentExactlyWhen | internal/webhook/pods/pods_webhook.go:103-185 | admitting the result again changes nothing exactly if the class the new policy selects is the same, none, or one that cannot patch |
| PodWebhook.OneClassIsIdempotent | internal/webhook/pods/pods_webhook.go:103-185 | with at most one class for the namespace admission is idempotent, whether or not the class allows its own policy |
| PodWebhook.TwoClassesTakeTurns | internal/webhook/pods/pods_webhook.go:114-131 | two classes that hand a pod to each other |
| ReadyMeansRenderable.SearchesRenderUnlessAValueIsEmpty | internal/webhook/pods/pods_webhook.go:136-167 | the searches of an accepted spec fail to render exactly if a placeholder they use has an empty value |
| ReadyMeansRenderable.ReadyIsRenderable | internal/webhook/pods/pods_webhook.go:134-179 | for an accepted class whose ready status belongs to its spec: never nil fields, a rendering error exactly if a used value is empty, a nameserver error exactly if nobody names one, else every search is its template with the values in place |
| ReadyMeansRenderable.QuiescentClassServesPods | internal/controller/dnsclass_controller.go:101-132 | after any interleaving, once no work is pending, the pods for which an accepted class is selected from any list are patched exactly unless nobody names a nameserver; under None they get its search domains with their namespace and the discovered domain filled in |
| ReadyMeansRenderable.EmptyDomainIsReadyButUnrenderable | internal/controller/dnsclass_controller.go:179-184 | an empty discovered domain makes a ready class whose rendering fails |
| ReadyMeansRenderable.CrashesExactlyWithoutFields | internal/webhook/pods/pods_webhook.go:145 | the webhook dereferences nil exactly for a selected class that is ready, has policy None and no discovered fields |
| ReadyMeansRenderable.CrashNeedsAnOlderSpec | internal/webhook/pods/pods_webhook.go:134-147 | over every interleaving it does so exactly for a spec of policy None whose status was written by a successful reconcile while none behind it created fields; that status belongs to an older generation |
| ReadyMeansRenderable.EditedClassCrashes | internal/webhook/pods/pods_webhook.go:145 | any class that is ready under another policy and then edited to None gets there |

## Left out

- Network and process I/O of the load generator: dialer, resolver, connection wrappers, environment, timing and JSON output. A lookup is a success or a failure, at any moment.
- The mutex of the tracker: a recorded packet is one atomic step, as the lock makes it.
- Fetching and decoding the kubelet configuration: each of the two calls of a reconcile brings an arbitrary tagged value or an error.
- Templates outside the sublanguage (pipelines, trim markers, functions, form feeds): an arbitrary function of the text and the parameters.
- The API server, the informer and the work queue beyond the step rules stated above; informer relists that merge a deletion and a creation into one update are not modelled.
- Condition messages and transition times, error wording, events, logging, metrics, JSON patches.
- The value pointer of a DNS option is an immutable value, and the annotations of a pod are a value replaced as a whole.
- WorkerPool.EveryRunEndsWithAllCounted: counts are unbounded numbers, because the number of queries is a Go int and two uint64 counters cannot wrap below it.
- StatusConvergence.Convergence: a failing reconcile is retried for ever, so the bound is for runs whose reconciles succeed; requeue delays are not modelled.
- StatusWriter.WriteStatus: a class that others delete and create again between two attempts is part of StatusConvergence only.
- A write that would change nothing at all counts as a change in the state machine; the API server answers it without a new version.
