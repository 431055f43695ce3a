# Firezone Go client: a verified model

This project models the logic of the Firezone REST API client (`firezone-go`)
and proves properties of it. The client is an HTTP wrapper with five pieces of
real logic in it, and the modules follow them.

**Retrying rate-limited requests** (`Durations`, `Decimal`, `Backoff`,
`RetryMachine`, `RetryBudget`, `Clients`). `Backoff` is the arithmetic of one
wait: 64-bit nanoseconds that wrap, capped exponential backoff, the Retry-After
header as a floor, and jitter. `RetryMachine` is the loop as a labelled
transition system in which the environment chooses every reply, delay, random
draw and cancellation; its theorems are about all runs. `RetryBudget` adds the
clock: exactly which throttling windows a budget outlasts, and how long a call
can take. `Clients` has the client object, its options and constructor, and the
loop as a method whose ghost result is the run of the transition system it
followed, so every theorem about runs applies to it.

**Paths** (`ByteStrings`, `Percent`, `Paths`, `Normalise`, `Routes`). Go strings
are byte strings here. `Percent` is percent-encoding in the three modes the
client uses; `Paths` is ID checking, path building and resolution against any
base URL; `Normalise` is what a normalising proxy does (sections 6.2.2.2 and
5.2.4 of RFC 3986); `Routes` lists every operation of the client and recovers
operation and IDs from method and path.

**Merge-patch updates** (`Json`, `GoEncoding`, `Updates`). The merge of section 2
of RFC 7396, the part of `encoding/json` request bodies rely on, and the update
structs of resources, policies and actors, each with what its fields say.

**The conformance check** (`Schemas`, `Conformance`, `Embedding`). The
repository checks its request structs against an OpenAPI document. `Conformance`
proves what silence of that check guarantees about every body a struct can
encode to; `Schemas` covers reference resolution and composed schemas;
`Embedding` compares the two ways embedded structs are flattened.

**Queries, cursors, error text and memberships** (`Query`, `Cursor`,
`ErrorText`, `Memberships`). Canonical encodings with round trips, the cursor
loop against a paging server, and concurrent callers patching one group.

## Where the code falls short of its comments

Each of these is proved with the exact condition under which the code does meet
the property.

* A wait can be shorter than its base. `WithRetryMaxWait` takes any duration;
  above the largest 64-bit value less two seconds (plus one nanosecond), adding
  jitter wraps to a negative sleep (`Backoff.WaitNeverBelowBaseExactly`,
  `Backoff.OverflowingWait`). With such a cap a budget outlasts no throttling at
  all (`RetryBudget.SurvivalExactly`).
* Waits are documented never to drop below the Retry-After header
  (`firezone.go:244`). They do as soon as it names more than the cap: by default
  a server that asks for 60 seconds is asked again after 30 to 32
  (`Backoff.RetryAfterIsAFloorExactly`, `Backoff.MinuteIsCutShort`). Even a floor
  only up to the cap fails where the conversion overflows: from 9223372037
  seconds on it wraps, and a number beyond 64 bits is read as no header
  (`Backoff.CappedFloorExactly`, `Backoff.WrappedRetryAfterIsIgnored`,
  `Backoff.HeaderSeconds`).
* The default budget is described as a bit over two minutes; its bases alone add
  up to 181 seconds (`Backoff.DefaultBudgetCovers181Seconds`).
* `README.md` of the repository says ten attempts by default; the loop makes up
  to ten retries after the first attempt, and a bound on attempts holds for every
  call exactly from eleven on (`RetryBudget.AttemptsExactly`,
  `Clients.ElevenAttemptsByDefault`).
* A pointer to a nil slice in an update is sent as `null`, not as an empty list
  (`GoEncoding.SliceFieldSays`).
* The request rules pass a struct that uses one JSON name twice, whose body then
  never carries that key, and do not look at fields their tags do not name
  (`Conformance.CheckerSoundExactly`, `Conformance.DuplicateTagsPass`,
  `Conformance.DuplicateTagsAreDropped`).
* The second walk over struct declarations misses a wrapper without tags of its
  own, such as `EmailOTPAuthProvider` (`Embedding.WalksAgreeExactly`,
  `Embedding.TaglessWrapperIsMissed`).

## Assumptions about the server

Stated in the contracts, not proved: a 429 means the request was not applied
(section 4 of RFC 6585), a 2xx that it was applied once, and after any other
failure either is possible (`RetryMachine.ServerMay`); update endpoints merge as
RFC 7396 says (`Updates.Served`), after reading an empty string in a nullable
field as null where stored records are meant (`Updates.Stored`); membership patches remove before they add
(`Memberships.Applied`); list endpoints clamp the limit and hand out opaque
cursors (`Cursor.Serve`). A timer never fires early. Only the upper bound on
total time assumes there is no scheduling delay.

## Model

| member | source | states |
|---|---|---|
| Backoff.ExponentialBackoff | retry.go:96-103 | backoff is never negative and at least a second for every attempt of the loop, with no overflow below attempt 30 |
| Backoff.RetryJitter | retry.go:108-114 | jitter is non-negative and strictly below its window when the window is positive |
| Backoff.JitterCoversItsWindow | retry.go:108-114 | every value of the window can be drawn |
| Backoff.WaitInterval | retry.go:81-85 | for every attempt, Retry-After and draw the wait lies between min(max(Retry-After, backoff), cap) and that plus min(half of it, 2 s), strictly below the end |
| Backoff.WaitReachesItsBound | retry.go:108-114 | some draw pads a base with half of it, or two seconds, less a nanosecond |
| Backoff.LongestDefaultWait | retry.go:13-24 | a capped default wait can last 31.999999999 seconds |
| Backoff.WaitNeverBelowBaseExactly | retry.go:81-92 | waits never fall below their base exactly when the cap leaves room for two seconds of jitter in 64 bits |
| Backoff.OverflowingWait | retry.go:81-92 | otherwise attempt 30 has a draw whose wait is negative |
| Backoff.EveryWaitCanOverflow | retry.go:81-114 | otherwise a long Retry-After and an unlucky draw make the wait after any attempt negative |
| Backoff.StrictEscalationExactly | retry.go:69-85 | while backoff dominates Retry-After and the next base is not capped, consecutive waits grow strictly for every pair of draws exactly before attempt 29 or when the cap leaves room for jitter |
| Backoff.PastTheCapConstant | retry.go:81-92 | from the first capped attempt on the base is the cap |
| Backoff.HeaderSeconds | errors.go:97-106 | a header that starts with a decimal number is read as that many seconds, whatever follows, modulo 2^64 nanoseconds, and as zero when the number is beyond 64 bits |
| Backoff.HeaderSecondsInside | errors.go:97-106 | spaces and tabs, and a plus sign, in front of the number change nothing |
| Backoff.OtherHeadersAskForNothing | errors.go:97-106 | a header that does not start with a number, or starts with a negative one, is read as zero |
| Backoff.RetryAfterIsAFloorExactly | firezone.go:244-246 | for every number of seconds, no wait drops below the header exactly when the seconds do not exceed the cap and adding jitter cannot overflow |
| Backoff.CappedFloorExactly | retry.go:81-85 | every wait reaches min(Retry-After, cap) exactly when the seconds fit in 64 bits, or the value read or the backoff reaches the cap, and adding jitter cannot overflow |
| Backoff.MinuteIsCutShort | retry.go:81-92 | by default a header of 60 seconds is followed by a wait of 30 to 32 |
| Backoff.WrappedRetryAfterIsIgnored | errors.go:97-106 | a header of 9223372037 to 18446744073 seconds can be followed by a one-second wait |
| Backoff.WaitBelowCapAndJitter | retry.go:81-92 | for every cap a wait stays below the cap plus two seconds |
| Backoff.BackoffSumClosedForm | retry.go:81-103 | for every cap and k, k bases add up to (2^m - 1) seconds and k - m caps, m being the first capped attempt or, before it, to 2^k - 1 seconds |
| Backoff.DefaultBudgetCovers181Seconds | firezone.go:228-238 | the default budget and cap cover 181 seconds |
| RetryMachine.RunSafety | retry.go:37-56 | over every run: at most budget + 1 attempts, every one but the last throttled, and the result is the last outcome or the cancellation of a wait; a 429 result means the budget is used up |
| RetryMachine.AtMostOnceEffect | retry.go:26-31 | over every run the request acts at most once, once if it succeeded, and not at all if the result is a 429 or a cancelled wait |
| RetryMachine.RunsTerminate | retry.go:37-56 | no run is longer than twice the budget plus one event, and only finished runs cannot go on |
| RetryBudget.SurvivalExactly | firezone.go:228-238 | no run under a throttling window ends in a 429 exactly when the window is empty, or the cap leaves room for jitter and the window is no longer than the sum of the backoff bases |
| RetryBudget.AttemptsExactly | retry.go:37-56 | a number bounds the attempts of every run exactly when it is at least the budget plus one |
| RetryBudget.TotalWait | retry.go:81-114 | for every cap a run's completed waits add up to less than their number times cap plus two seconds, and to at least the backoff sum if the cap leaves room for jitter |
| RetryBudget.TotalTime | firezone.go:201-226 | for every cap, with a positive request timeout a call takes less than one timeout for each attempt plus cap and two seconds for each retry |
| Clients.Client.constructor | firezone.go:319-327 | a new client has the default fields |
| Clients.Client.Apply | firezone.go:147-276 | an option sets its field or, refusing its argument, changes nothing |
| Clients.AcceptedExactly | firezone.go:147-276 | which base URLs are accepted and which options refused |
| Clients.LastOptionOfItsKindWins | firezone.go:329-334 | an earlier option of the same kind leaves no trace |
| Clients.RetryOptionBoundsAttempts | firezone.go:240-262 | after WithRetry(enabled, n) the least bound on attempts is n + 1 if enabled and one if not |
| Clients.MaxWaitOptionBoundsWaits | firezone.go:264-276 | after WithRetryMaxWait waits stay below the cap, or 30 seconds, plus two seconds and can reach it |
| Clients.TimeoutOptionBoundsCalls | firezone.go:201-226 | after WithRequestTimeout punctual calls end within a timeout for each attempt and the longest waits |
| Clients.DefaultBudgets | firezone.go:319-327 | a new client keeps its arguments, times an attempt out after 30 seconds, retries ten times and caps waits at 30 seconds |
| Clients.NewClient | firezone.go:310-351 | a client is returned exactly when the base URL and every option are accepted; it holds what the options add up to and is sound; the first refusal is the one reported |
| Clients.AcceptedOptionsKeepSound | firezone.go:131-138 | accepted options keep the budget and timeout non-negative, the HTTP client present and the user agent non-empty |
| Clients.Client.RawRequest | firezone.go:413-461 | one round trip takes a run one exchange further; it succeeds with the reply's body exactly on a 2xx status and is throttled exactly on a 429 |
| Clients.Client.Sleep | retry.go:51-55 | the select ends in cancellation or, no earlier than the wait, in the next attempt |
| Clients.Client.RequestWithRetry | retry.go:31-67 | the loop follows a run of the transition system and returns the result of the call |
| Clients.PlayedExactly | retry.go:37-56 | in terms of statuses: a body is returned exactly when it is that of the first reply that is no 429, a 2xx, an API error exactly when that reply's status is neither, a 429 with its Retry-After exactly when every attempt got one, a cancellation exactly when it ended a wait |
| Clients.Result | firezone.go:446-458 | a call's result answers the replies in that sense |
| Clients.RunsArePlayed | retry.go:31-67 | conversely, the result of every finished run is what a call returns when the environment replies and cancels as the run records |
| Clients.ElevenAttemptsByDefault | firezone.go:228-238 | of a client with the default fields eleven is the least bound on attempts |
| Clients.GuardUnreachable | retry.go:58-66 | for every client that can be built the guard after the loop is dead and a call makes an attempt |
| Percent.EscapeRoundTrip | path.go:39-49 | decoding undoes escaping on every byte string, in every mode, and escaped text is well formed |
| Percent.EscapeAlphabet | path.go:39-49 | escaping leaves only kept bytes and escape sequences |
| Percent.EscapeExactly | path.go:39-49 | exactly the strings of the bytes a mode leaves alone escape to themselves |
| Percent.EscapedByByte | path.go:39-49 | any other byte becomes a percent sign and two upper-case hex digits |
| Percent.EscapeInjective | path.go:39-49 | different strings escape differently |
| Paths.BuildPath | path.go:50-56 | the loop joins the escaped segments |
| Paths.SplitBuiltPath | path.go:39-56 | splitting a built path gives back the escaped segments one for one |
| Paths.BuiltPathInjectiveExactly | path.go:50-56 | two lists of segments share a path exactly when equal, but for no segment and one empty segment |
| Paths.ResolveBuiltPath | path.go:58-79 | on every base URL a built path resolves, Path is the decoding of RawPath, and the escaped form is what is sent |
| Paths.ResolvedPathDecodes | path.go:67-79 | the decoded path is the base's followed by the segments as given |
| Paths.SentPath | path.go:67-79 | a base whose escaped path is p, or p and a slash, sends p, a slash and the built path, and decodes to p's decoding and the segments |
| Paths.RootBase | path.go:67-79 | a base without a path, or with just a slash, sends one slash and the built path |
| Paths.OrdinaryBasePath | path.go:67-68 | a base path of letters, digits and path marks is its own escaped form |
| Paths.GivenEncodingKeptExactly | path.go:67-68 | an encoding the base came with is kept exactly if it decodes to the path and holds no byte that must be escaped |
| Paths.CheckIDExactly | path.go:29-37 | exactly the empty ID and the two dot segments are rejected |
| Normalise.NormalisationImmunity | path.go:21-37 | normalising leaves a path of checked segments unchanged, and under any base URL leaves it byte for byte behind the normalised base |
| Normalise.UncheckedDotsClimb | path.go:24-28 | without the check a ".." segment climbs out of its parent |
| Normalise.EncodedDotsClimb | path.go:24-28 | encoding the dots by hand does not stop them |
| Normalise.RemoveDotsIsAStack | path.go:24-28 | on absolute paths the buffer machine of section 5.2.4 does what a stack of segments does |
| Routes.RouteRoundTrip | gateways.go:123-125 | a router recovers every operation and its IDs from method and path |
| Routes.RoutesInjectiveExactly | path.go:39-56 | two calls share method and path exactly when they are the same operation on the same IDs, Disable and Enable being updates |
| Routes.PathOfIsBuilt | resources.go:162-176 | the collection names list and create use as they are equal their built paths |
| Routes.FirstRejectionExactly | gateways.go:128-134 | a call is refused exactly when one of its IDs is empty or a dot segment, and then with the error of the first that is |
| Routes.SentCallsReachTheirRoute | path.go:29-79 | a call is sent exactly when all its IDs pass, and what is sent reaches the same operation and IDs after normalisation under any base URL |
| Json.MergeIdempotent | null.go:5-13 | merging a patch twice is merging it once, at any depth |
| Json.FlatMerge | null.go:5-13 | a flat patch replaces or removes exactly the members it names |
| Json.NestedMerge | null.go:5-13 | a nested patch merges into the object it meets and leaves its other members |
| Json.MergeCompose | null.go:5-13 | two patches in a row are one |
| GoEncoding.RegularField | null.go:38-45 | in a struct with distinct tags each field alone decides whether and how its key is sent |
| GoEncoding.TagBeatsGoName | spec_test.go:360-434 | of two fields with one key the one named by its tag is sent, unless both are |
| GoEncoding.NullFieldSays | null.go:5-13 | a *Null keeps when nil, clears when invalid and assigns when valid |
| GoEncoding.SliceFieldSays | resources.go:84-104 | a pointer to a slice sends an empty list exactly for an empty non-nil slice, and null for a nil one |
| GoEncoding.PointerFieldSays | policies.go:110-111 | a pointer to a plain value keeps when nil and can assign every value, the zero value included |
| GoEncoding.CombineEncodes | resources.go:81-83 | the body of two combined requests is the overlay of their bodies |
| Updates.NullRoundTripExactly | null.go:40-65 | whatever it is decoded into, an encoded Null comes back exactly when it is invalid, or its value encodes other than as null and its type's own decoder restores it |
| Updates.NullVar.UnmarshalJSON | null.go:54-65 | the receiver's new state after null, after an error and after a value |
| Updates.ValidExactly | null.go:54-65 | a Null is valid after decoding exactly if it read a value, or failed to and was valid before |
| Updates.UpdateRefines | firezone.go:366-375 | encoding a request and merging it does exactly what its fields say and touches nothing else |
| Updates.NilIsNeverSent | firezone.go:366-375 | a nil request is refused and never sent as null; any other is an object under the endpoint's key |
| Updates.UpdatesCombine | null.go:5-13 | two updates in a row are the one that combines them |
| Updates.UpdateIdempotent | null.go:5-13 | repeating an update changes nothing more |
| Updates.ResourceUpdate | resources.go:88-105 | for every record and request each resource field is kept, cleared or assigned as its value says and no other member changes |
| Updates.ResourceFilters | resources.go:47-55 | stored filters are the request's in order, each with its protocol and, if there are any, its ports; no pointer keeps them and a nil slice removes them |
| Updates.ResourceStored | resources.go:81-105 | after empty strings are read as null each resource field does what it says, the nullable ones clearing on Set("") |
| Updates.ChangesetRefines | null.go:17-20 | for every update struct, merging after empty strings in nullable fields are read as null does what the fields say, but that Set("") clears |
| Updates.AddressThreeStates | null.go:9-20 | nil keeps, Clear and Set("") clear and every other Set assigns, whatever else the request says |
| Updates.ResourceUpdatesCombine | resources.go:88-105 | two resource updates equal the combined one |
| Updates.PolicyUpdate | policies.go:95-107 | the same for every policy update |
| Updates.PolicyConditions | policies.go:65-69 | stored conditions are the request's in order, each with its property, operator and values, null for a nil slice |
| Updates.PolicyUpdatesCombine | policies.go:95-107 | two policy updates equal the combined one |
| Updates.ActorUpdate | actors.go:67-75 | the same for every actor update |
| Updates.ActorUpdatesCombine | actors.go:67-75 | two actor updates equal the combined one |
| Updates.SwitchPolicyTouchesOnlyIsDisabled | policies.go:191-210 | disabling or enabling a policy sets is_disabled and nothing else |
| Updates.LastPolicySwitchWins | policies.go:185-210 | switching is idempotent and only the last switch counts |
| Updates.SwitchActorTouchesOnlyIsDisabled | actors.go:164-183 | the same for actors |
| Updates.LastActorSwitchWins | actors.go:158-183 | switching is idempotent and only the last switch counts |
| Schemas.ResolveChain | spec_test.go:489-501 | a chain of at most nine references resolves to its end and a longer or circular one to its tenth schema |
| Schemas.ResolvesExactly | spec_test.go:489-501 | resolution ends at a schema that refers nowhere exactly when one is at most nine references away |
| Schemas.ReferenceResolves | spec_test.go:489-501 | a reference behind the schema prefix leads to the schema of that name, and nowhere if there is none |
| Schemas.LoadedExactly | spec_test.go:535-570 | a request schema is loaded exactly when an object with properties is nested under one key, with its required list and properties, nullable and of the kind the document says there or where references end |
| Schemas.CollectPropertyNames | spec_test.go:194-205 | the loops collect the property names of every branch |
| Schemas.PropertyNamesAreTheClosure | spec_test.go:194-205 | the names are the union over every schema reached through allOf |
| Schemas.NestingIsPathLength | spec_test.go:194-205 | the recursion has a bottom exactly when allOf paths are bounded |
| Conformance.PrefixesClassify | spec_test.go:412-417 | the prefixes of a type's text tell *Null[T] and *[]T from all other types |
| Conformance.CheckRequest | spec_test.go:397-434 | the loops report exactly the findings of the four rules, in order |
| Conformance.SilentExactly | spec_test.go:397-434 | the rules report nothing exactly for structs that break none of the four |
| Conformance.FindingsExactly | spec_test.go:397-434 | each kind of finding is reported exactly when it is deserved |
| Conformance.CheckerSoundExactly | spec_test.go:360-434 | when the rules report nothing, every body keeps to the schema and carries the required keys exactly when fields without a tag name go by a schema name and every required key has a field that is neither shadowed nor droppable |
| Conformance.RegularIsWellTagged | spec_test.go:360-434 | exported fields named by distinct tags are well tagged as soon as the rules report nothing |
| Conformance.DuplicateTagsPass | spec_test.go:397-434 | a struct that uses one tag twice passes |
| Conformance.DuplicateTagsAreDropped | spec_test.go:397-434 | and its body is always empty |
| Conformance.MergeBodyReach | spec_test.go:408-418 | on a passing merge body null is reachable for nullable fields and the empty list for array fields, no field is both, and it can be left out exactly when it carries omitempty |
| Conformance.CheckedBodiesConform | spec_test.go:542-570 | bodies of a struct that passes have only keys the document declares under the wrapper, and all it requires |
| Conformance.DocumentToMergeBody | spec_test.go:542-570 | when the check against a loaded schema is silent, null can be sent for every field the document marks nullable and the empty list for every array |
| Conformance.NotClearableExactly | spec_test.go:412-414 | a field is reported as not clearable exactly when the document marks it nullable and its type is no *Null |
| Embedding.WalksAgreeExactly | spec_test.go:267-284 | the two walks agree on a struct exactly when it has a JSON name of its own and no path of embeds reaches a struct with JSON names through one without |
| Embedding.FlattensExactly | spec_test.go:267-284 | the first walk flattens a struct, rather than reporting a cycle, exactly when no path of embeds has more than nine structs |
| Embedding.FlatteningListsExactly | spec_test.go:267-284 | a walk lists a JSON name exactly if some path of embeds it follows reaches a field tagged with it |
| Embedding.TaggedStructsAgree | spec_test.go:803-838 | they agree on a struct that, with everything it transitively embeds, has JSON names of its own, whatever else the table holds |
| Embedding.TaglessWrapperIsMissed | auth_providers.go:48-50 | a wrapper that only embeds is flattened by the first walk and missing from the second |
| Query.FilterQuery | firezone.go:525-533 | the loop sets exactly the non-empty filters on top of the pagination parameters |
| Query.ListQueryEmptyExactly | firezone.go:507-519 | nothing is sent exactly for nil options, or a limit below one and no cursor |
| Query.QueryRoundTrip | firezone.go:429-431 | a form decoder reads back every pair once, in ascending order of key |
| Query.EncodingCanonical | firezone.go:429-431 | the bytes do not depend on the order the map is ranged over |
| Query.EncodingInjective | firezone.go:429-431 | equal bytes come exactly from equal queries |
| Query.QuerySaysExactly | firezone.go:507-533 | a query holds exactly the positive limit, the non-empty cursor and the non-empty filters |
| Query.FilterOrderIrrelevant | firezone.go:521-533 | filters with distinct keys may come in any order |
| Query.GroupQueryReads | groups.go:82-94 | a group listing's query can be read back into its options |
| Query.GroupQueriesDistinctExactly | groups.go:68-94 | two group listings send the same bytes exactly when they mean the same; nil, empty and a directory ID stay apart |
| Cursor.WalkPages | example_test.go:51-66 | the loop ends with every item seen once and in order, in the item count divided by the page size (50 by default, at most 100), rounded up, and at least one, requests |
| ErrorText.FormatValidationErrors | errors.go:47-59 | the text is the canonical one, and reading it back gives every field once in ascending order with its messages in order |
| ErrorText.CanonicalUnique | errors.go:47-59 | there is only one such text, however the map is ranged over |
| ErrorText.CanonicalReads | errors.go:54-58 | a reader that splits at the separators recovers every field and its messages, when none of them holds a separator and no list is empty |
| ByteStrings.BelowExactly | errors.go:52 | the order is that of the first byte that differs, a prefix coming first |
| Memberships.ReplaceBody | memberships.go:65-72 | the loop sends one entry for each ID |
| Memberships.PatchRoundTrip | memberships.go:38-42 | leaving out empty lists loses nothing: the patch is read back |
| Memberships.ReplaceRoundTrip | memberships.go:33-36 | every ID is read back, and no IDs as an empty list |
| Memberships.AppliedExactly | memberships.go:38-90 | after a patch an ID is a member exactly if added, or if it was one and is not removed; after a replacement exactly if listed |
| Memberships.InterleavingsConverge | memberships.go:80-90 | callers touching disjoint IDs end in one set however their calls interleave |
| Memberships.IntentKept | memberships.go:80-90 | the IDs a caller touches end up as that caller's calls alone would leave them, when callers touch disjoint IDs |
| Memberships.LastCallDecides | memberships.go:85-90 | an ID ends up a member exactly if the last call touching it adds it, or none touches it and it was one |
| Memberships.RedeliveryHarmless | memberships.go:85-88 | sending a patch again, also after others' patches of other IDs, changes nothing |
| Memberships.ReplaceAllDetermines | memberships.go:48-54 | a replacement determines the set alone, whatever came before |

## Left out

- HTTP transport, headers, TLS and reading bodies: one round trip is an outcome and the time it took.
- Errors of a caller's own transport that wrap an API error: a transport failure is never taken for a 429.
- `url.Parse` and the text of JSON: base URLs and bodies are values.
- Reading the specification file and the Go syntax tree: the struct and schema tables are inputs.
- The read-model rules and wrapper-key rule of the conformance check, beyond the walks they rest on: they repeat the shapes of the request rules.
- JSON numbers other than integers, maps, and embedded structs in request bodies: no request struct uses them.
- The server's validation of updates, beyond reading an empty string in a nullable field as null.
- Structs that encode as something other than an object: no request struct holds one.
- Fields of the update structs that hold named string types share the encoding of plain strings.
- Backoff.HeaderSecondsInside: blanks other than spaces and tabs in front of the number are not skipped by the model, HTTP having trimmed them.
- Cursor.WalkPages: the list does not change while it is paged, and previous-page cursors are not followed.
- Updates.UpdatesCombine: for bodies without nested objects, which are all the update structs have.
- Schemas.CollectPropertyNames: requires that allOf does not nest forever, where the original recursion would not end.
- Read-only services and flat create, read and delete calls beyond their routes, token rotation, and the predicates on API errors: each is settled in a line.
