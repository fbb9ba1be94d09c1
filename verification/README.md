# spec-mock: verified models

spec-mock serves mock APIs from OpenAPI, AsyncAPI and protobuf documents.  This project
models its stateful engine and the transformations it applies when a document is loaded,
and proves what they keep.

| file | models |
|---|---|
| `StoreProtocol.dfy`, `StoreLinear.dfy` | the bounded resource store under concurrency: every atomic access is a step, and steps of any number of callers interleave |
| `Store.dfy` | the store run one call at a time: entry map, order index and counter against an insertion-ordered list |
| `Scenario.dfy` | scenario state machines, the unreachable-state report, sidecar validation, and interleaved requests on one instance |
| `RuntimeSpec.dfy`, `ScenarioRuntime.dfy`, `RuntimeLaws.dfy`, `RuntimeOutcomes.dfy`, `RuntimeBooks.dfy`, `Routing.dfy`, `Identifiers.dfy` | the scenario runtime: an abstract map from (scenario, session) to state and resources, the heap of instances that refines it, and laws over every run |
| `Router.dfy`, `Template.dfy`, `Location.dfy` | the path trie against a scan over all templates (Path Templating Matching, section 4.8.8 of the OpenAPI Specification 3.1.0), and Location headers rendered from a match |
| `RefSpec.dfy`, `RefResolver.dfy`, `RefLaws.dfy`, `RefTargets.dfy` | `$ref` inlining: a cache-free function, the resolver with its FIFO cache, the laws of inlining, and what references denote |
| `PointerLaws.dfy`, `Rfc6901.dfy`, `KeyPointers.dfy` | JSON pointers (RFC 6901), and when the resolver and the runtime read them so |
| `Schema.dfy`, `SchemaMeaning.dfy` | schema semantics with and without `nullable` (section 4.7.24 of the OpenAPI Specification 3.0.3), and the rewrite between them |
| `Faker.dfy`, `FakerShapes.dfy` | the schema-driven generator with arbitrary in-range draws, a validator, and schemas written in a small language |
| `Xml.dfy` | the XML writer and a tag reader (sections 2.4 and 3.1 of XML 1.0) |
| `CacheKey.dfy` | the byte stream behind the validator cache key |
| `RateLimiter.dfy` | the WebSocket message limiter |
| `Basics.dfy`, `Text.dfy`, `Json.dfy`, `Scalars.dfy`, `JsonReader.dfy`, `KeyOrder.dfy`, `LetterCase.dfy` | options and results, string searching and splitting, JSON values, what the text of a scalar says, a reader for printed values, the order of map keys, letter case |

`dafny verify dfyconfig.toml` checks the whole project.

JSON objects are sequences of members in the order the original's sorted map yields them.
The clock, the file system, the random generator, the reply the generator produced for a
request, and the outcome of request validation are parameters or arbitrary choices.

Where the code says something other than its documentation, the model follows the code:

- The comments of the store call the capacity check advisory.  The code never overshoots
  (`StoreProtocol.Safety`); what can happen is a refusal with room to spare
  (`StoreProtocol.SpuriousRefusal`).
- The limiter's constant is documented as messages per second.  That holds per window; a
  second across a window boundary can see 200 (`RateLimiter.TwoHundredIsAttained`).
- The Location round trip fails when a template repeats a parameter name and the request
  has different segments there, since the router keeps the last
  (`Location.RepeatedNameFails`), and when a literal holds a bound placeholder
  (`Location.BracesInLiteralFail`).  `Location.LocationRoundTrip` gives the exact condition
  for every template, `Location.OrdinaryRoundTrip` for requests without braces.
- Key pointers are called JSON pointers, but the runtime drops every leading slash,
  unescapes nothing and enters no array.  `KeyPointers.KeyPointersAgree` says exactly which
  texts are read alike, `KeyPointers.IndexPointerMisses` gives one that is not.
- A create with a `key` but no `keyFrom` passes validation, yet never finds an identifier
  (`Identifiers.KeyedCreateNeverFiles`); `Identifiers.ValidatedIsAddressable` says exactly
  which operations can find one.
- Catalogue keys join method and path with a space, so a method that holds one can collide
  with another request (`Routing.SpacesCollide`); without one they do not
  (`Routing.KeyMeaning`).
- Requests on one session are not served one at a time: two can be admitted on the same
  snapshot (`InstanceProtocol.BothAdmitted`).
- The resolver takes the pointer `/` for the whole document, though under RFC 6901 it names
  the member with the empty name (`PointerLaws.LoneSlashMisses`), and accepts texts that
  RFC 6901 does not (`Rfc6901.LenientTexts`).  `Rfc6901.ResolverAgrees` says exactly on which
  texts the two agree.
- A generated value can violate its schema: `Faker.LowMaximumFails`, `Faker.FactorFails`,
  `Faker.UndeclaredRequiredFails` and `Faker.ExtraCollisionFails`.
  `Faker.IntegerConditionIsExact`, `Faker.SizeConditionIsExact` and
  `Faker.ArrayConditionIsExact` say exactly when bounds, factors and uniqueness are
  respected.  A schema in the fair fragment has proper shapes at every level
  (`Faker.Legible`) and no constraining keyword that the validator does not interpret
  (`Faker.Foreign`).

## Model

| member | source | states |
|---|---|---|
| `StoreProtocol.StepConserves` | crates/specmock-core/src/store.rs:113-175 | one atomic access by any caller keeps the law: counter = live entries + callers between reserving and inserting, colliding and releasing, or removing and decrementing; counter within the limit |
| `StoreProtocol.RunConserves` | crates/specmock-core/src/store.rs:113-175 | the conservation law holds after every interleaving of any number of creates, reads, updates, deletes and length reads |
| `StoreProtocol.Safety` | crates/specmock-core/src/store.rs:113-175 | in every reachable state entries never exceed the limit, no 64-bit `fetch_sub` wraps, and a create is refused for capacity exactly when entries plus held units fill the store |
| `StoreProtocol.LenIsExactAtQuiescence` | crates/specmock-core/src/store.rs:199-201 | when no caller is in the middle of a create or delete, `len` returns the number of entries |
| `StoreProtocol.CreatesAndDeletesAlternate` | crates/specmock-core/src/store.rs:113-175 | over any stretch of any run, insertions of a key less removals of it are the change in its liveness |
| `StoreLinear.Linearizable` | crates/specmock-core/src/store.rs:113-175 | every interleaving is linearizable: a referee who knows only the calls, the moments at which operations met the entries and the answers accepts every answer as the one a plain map gave there (or a capacity refusal or a length the entries and the operations under way account for), and its map is the entries |
| `StoreLinear.DoneAnswersAlternate` | crates/specmock-core/src/store.rs:113-175 | over any run, creates of a key told Done less deletes of it told Done are its liveness and one for each delete still untold, so two creates are never both told Done without a delete between |
| `StoreLinear.AloneIsAnswered` | crates/specmock-core/src/store.rs:113-175 | nothing waits on anyone: from any state a caller left to itself is answered within five accesses |
| `StoreProtocol.SpuriousRefusal` | crates/specmock-core/src/store.rs:113-143 | a concrete schedule in which a create is refused for capacity although the store has room, because a colliding create still holds its unit |
| `StoreSpec.LookupAppend` | crates/specmock-core/src/store.rs:113-143 | after filing a resource, every key reads as before except the new one, which reads the new value unless it was taken |
| `StoreSpec.LookupReplace` | crates/specmock-core/src/store.rs:157-162 | after an update, the key reads the new value if it was live and every other key reads as before |
| `StoreSpec.LookupWithout` | crates/specmock-core/src/store.rs:165-175 | after a delete, the key is absent and every other key reads as before |
| `StoreSpec.IdsAppend` | crates/specmock-core/src/store.rs:135-143 | filing a resource appends its identifier to its own namespace's order and no other |
| `StoreSpec.IdsReplace` | crates/specmock-core/src/store.rs:157-162 | an update leaves every namespace's order as it was |
| `StoreSpec.IdsWithout` | crates/specmock-core/src/store.rs:165-175 | removing a resource drops exactly its identifier from its namespace's order |
| `StoreSpec.DistinctKept` | crates/specmock-core/src/store.rs:113-175 | create, update and delete keep the resources' keys distinct |
| `StoreSpec.WithoutLive` | crates/specmock-core/src/store.rs:165-175 | a delete shrinks the store by one exactly when the key was live |
| `StoreModel.Store.constructor` | crates/specmock-core/src/store.rs:104-106 | a new store is empty and its three structures agree |
| `StoreModel.Store.Create` | crates/specmock-core/src/store.rs:113-143 | capacity is tested before collision; on success the resource is appended in creation order, otherwise nothing changes; entries, order index and counter stay in agreement |
| `StoreModel.Store.Read` | crates/specmock-core/src/store.rs:152-154 | reads exactly what the insertion-ordered list holds at the key |
| `StoreModel.Store.Update` | crates/specmock-core/src/store.rs:157-162 | replaces a live resource in place in the order, or reports it missing and changes nothing; agreement kept |
| `StoreModel.Store.Delete` | crates/specmock-core/src/store.rs:165-175 | removes the resource from entries, order and count together, or reports it missing; agreement kept |
| `StoreModel.Store.List` | crates/specmock-core/src/store.rs:182-195 | returns the namespace's resources in creation order, none skipped |
| `StoreModel.Store.Len` | crates/specmock-core/src/store.rs:199-201 | the counter is the number of resources and of map entries |
| `StoreModel.Store.Clear` | crates/specmock-core/src/store.rs:219-225 | empties entries, order and counter together and returns how many resources there were |
| `ScenarioMachine.UnreachableStates` | crates/specmock-core/src/scenario.rs:155-174 | returns, in key order, exactly the declared states outside the reflexive-transitive closure of the transitions from the initial state; the worklist ends on cyclic graphs, duplicate frontier entries and undeclared targets |
| `ScenarioMachine.Scenario.ReachableStep` | crates/specmock-core/src/scenario.rs:127-129 | the next state of a reachable state is reachable |
| `ScenarioMachine.Scenario.ClosedHoldsReachable` | crates/specmock-core/src/scenario.rs:155-174 | a set closed under transitions that holds the initial state holds every reachable state |
| `SidecarModel.ValidateOperation` | crates/specmock-core/src/sidecar.rs:359-372 | accepts exactly the operations that can find their resource and do not shadow the control endpoints; otherwise reports the first of a bad pointer, a missing key and a reserved path |
| `SidecarModel.ValidateScenario` | crates/specmock-core/src/sidecar.rs:373-405 | accepts exactly the scenarios whose initial state and transition targets are declared and whose operations are in the catalogue; otherwise reports the first fault in key order |
| `SidecarModel.Validate` | crates/specmock-core/src/sidecar.rs:346-408 | the document is accepted exactly when it is well formed; otherwise the error describes a fault that is present and the first in document order |
| `SidecarModel.FirstIsUnique` | crates/specmock-core/src/sidecar.rs:346-408 | the first fault settles the error, so the contract of validation says exactly which is reported |
| `InstanceProtocol.StepStaysOnTrack` | crates/specmock-runtime/src/http/scenarios.rs:225-248 | each snapshot, store, move or reset step keeps the current state and every snapshot in flight reachable |
| `InstanceProtocol.RunStaysOnTrack` | crates/specmock-runtime/src/http/scenarios.rs:579-636 | the same over every interleaving of requests on one instance with resets in between |
| `InstanceProtocol.ReachableIsDeclared` | crates/specmock-core/src/sidecar.rs:373-405 | in a validated scenario every reachable state is declared |
| `InstanceProtocol.CurrentIsNeverDead` | crates/specmock-runtime/src/http/scenarios.rs:579-636 | with a validated sidecar the current state is always declared, reachable, and never one the load-time report calls unreachable |
| `InstanceProtocol.AloneMovesAsDeclared` | crates/specmock-runtime/src/http/scenarios.rs:579-636 | served alone, a validated legal request moves the state to its declared target, if any; any other request leaves it |
| `InstanceProtocol.BothAdmitted` | crates/specmock-runtime/src/http/scenarios.rs:579-636 | two requests can both be admitted on one snapshot although neither is legal after the other, and the last to move decides the state |
| `ScenarioRuntime.Instance.constructor` | crates/specmock-runtime/src/http/scenarios.rs:189-199 | a new instance is at its initial state with its seed filed in order |
| `ScenarioRuntime.Instance.ApplySeed` | crates/specmock-runtime/src/http/scenarios.rs:201-216 | files every seed item in order, under its id or index, skipping those whose create fails |
| `ScenarioRuntime.Instance.Reset` | crates/specmock-runtime/src/http/scenarios.rs:244-248 | whatever the instance held, it is again as newly built |
| `ScenarioRuntime.ReadPointer` | crates/specmock-runtime/src/http/scenarios.rs:807-819 | the loop yields the text at the pointer, nothing for a missing segment or a null |
| `ScenarioRuntime.ApplyStore` | crates/specmock-runtime/src/http/scenarios.rs:836-905 | each store action answers and changes the store as the insertion-ordered specification does, with every error mapped |
| `ScenarioRuntime.ServeOn` | crates/specmock-runtime/src/http/scenarios.rs:577-639 | one request on one instance: legality, validation gate, store, override, move, as specified |
| `ScenarioRuntime.Runtime.constructor` | crates/specmock-runtime/src/http/scenarios.rs:293-317 | a new runtime has no sessions and its catalogue index answers as the catalogue does, a later entry replacing an earlier one |
| `ScenarioRuntime.Runtime.BuildInstance` | crates/specmock-runtime/src/http/scenarios.rs:657-692 | a session unknown so far gets a freshly seeded instance shared with no other session |
| `ScenarioRuntime.Runtime.ServeLive` | crates/specmock-runtime/src/http/scenarios.rs:577-639 | serving one instance changes the abstract value of that session and of no other |
| `ScenarioRuntime.Runtime.ResolveWith` | crates/specmock-runtime/src/http/scenarios.rs:535-639 | the heap of instances answers exactly as a map from (scenario, session) to a state and an ordered list of resources, and the abstract map moves the same way |
| `ScenarioRuntime.Runtime.ResolveOn` | crates/specmock-runtime/src/http/scenarios.rs:657-692 | an existing session is served, a new one is built if the cap allows and refused otherwise |
| `ScenarioRuntime.Runtime.Release` | crates/specmock-runtime/src/http/scenarios.rs:351-353 | drops exactly the named session and says whether it was live |
| `ScenarioRuntime.Runtime.ResetAll` | crates/specmock-runtime/src/http/scenarios.rs:359-367 | every live session is freshly seeded again, in whatever order they are visited, and the count is the number of sessions |
| `ScenarioRuntime.Runtime.ExecuteAll` | crates/specmock-runtime/src/http/scenarios.rs:535-639 | over any sequence of requests, releases and resets, the replies and the final sessions are the specified ones |
| `LetterCase.LowerMeaning` | crates/specmock-runtime/src/http/scenarios.rs:701-703 | two methods lower to the same text exactly when they differ at most in the case of ASCII letters |
| `Routing.KeyMeaning` | crates/specmock-runtime/src/http/scenarios.rs:701-703 | without a space in the methods, two requests share a catalogue key exactly when the paths are equal and the methods are up to case |
| `Routing.SpacesCollide` | crates/specmock-runtime/src/http/scenarios.rs:701-703 | with a space in a method, two different requests share a key |
| `Routing.GovernedMeaning` | crates/specmock-runtime/src/http/scenarios.rs:547-583 | a request is governed, by which scenario, operation and session, in terms of the request and the sidecar alone: no status asked for, the named scenario or else the first, the last operation declared for the path and the method in any case, the named session or else the default one |
| `Routing.UngovernedMeaning` | crates/specmock-runtime/src/http/scenarios.rs:547-577 | any other request touches no session and is left alone, unless it names a scenario that does not exist |
| `Routing.ControlEndpointsAreFree` | crates/specmock-core/src/sidecar.rs:359-372 | no request to a control endpoint is governed by a validated sidecar |
| `Routing.SessionsDoNotMeet` | crates/specmock-runtime/src/http/scenarios.rs:573-577 | while the session cap has room, a request anywhere in a run changes no later reply to a request of another session name, whatever is done in between |
| `RuntimeLaws.RunInvariant` | crates/specmock-runtime/src/http/scenarios.rs:535-692 | after every run both caps hold, keys in each store are distinct and every current state is reachable in its scenario |
| `RuntimeLaws.RunIsIsolated` | crates/specmock-runtime/src/http/scenarios.rs:535-692 | requests change no instance but their own and end none: an instance that no command of a run concerns is as it was |
| `RuntimeLaws.RejectionsLeaveNoTrace` | crates/specmock-runtime/src/http/scenarios.rs:577-592 | leaving out of a run the requests that failed validation or were illegal where they stood changes neither the final sessions nor any other reply |
| `RuntimeLaws.RunKeeps` | crates/specmock-runtime/src/http/scenarios.rs:836-905 | nothing is evicted: a stored resource keeps its value over any run until it is updated, deleted, reset or released |
| `RuntimeLaws.ResetIsObservablyFresh` | crates/specmock-runtime/src/http/scenarios.rs:359-367 | after any past and a reset, any later requests to a live instance get the replies they would get had that instance never existed |
| `RuntimeLaws.AlignReadsBack` | crates/specmock-runtime/src/http/scenarios.rs:778-804 | after aligning, the pointer path reads the identifier, whatever was in the way |
| `RuntimeLaws.AlignKeepsTheRest` | crates/specmock-runtime/src/http/scenarios.rs:778-804 | any path that leaves the aligned one reads what it read before |
| `KeyOrder.PutKeepsOrder` | crates/specmock-runtime/src/http/scenarios.rs:778-804 | writing a member keeps an object's members in key order |
| `RuntimeLaws.CreateFilesItsReply` | crates/specmock-runtime/src/http/scenarios.rs:850-881 | a create that files the generated reply hands out and stores a document whose identifier at the key pointer is the key it is filed under, and which reads as generated on every path that leaves the pointer |
| `RuntimeLaws.CreateThenGet` | crates/specmock-runtime/src/http/scenarios.rs:445-468 | create, then anything short of replacing or removing it, then a read naming the identifier: the reply is exactly the document first handed out |
| `KeyPointers.KeyPointersAgree` | crates/specmock-runtime/src/http/scenarios.rs:807-819 | the runtime reads a key pointer's text as RFC 6901 does, in every document, if and only if it is empty, or rooted names without tildes that are no array indices, with no empty name in front of others |
| `KeyPointers.ValidPointerMeaning` | crates/specmock-core/src/sidecar.rs:489-491 | validation accepts exactly the texts that are empty or rooted, and no other text evaluates to anything |
| `KeyPointers.IndexPointerMisses` | crates/specmock-runtime/src/http/scenarios.rs:761-772 | a pointer that validation accepts and RFC 6901 resolves, into an array, finds nothing, so every create keyed by it answers with a missing resource |
| `RuntimeOutcomes.StateIsReplayed` | crates/specmock-runtime/src/http/scenarios.rs:535-639 | over any run the state of a live session is what its machine makes of the validated operations and resets alone: bodies, store failures, overrides and other sessions have no say |
| `RuntimeBooks.BooksAgree` | crates/specmock-runtime/src/http/scenarios.rs:535-692 | over any run, books kept from the commands and their replies alone (state, contents, live sessions) agree with every session: a refused or unvalidated request enters nothing, a failed store action still moves the state |
| `RuntimeBooks.RepliesDecideReplies` | crates/specmock-runtime/src/http/scenarios.rs:535-919 | after any run the reply to any governed request is exactly the one the books foretell: session cap when the register is full and this session not on it, illegal by the booked state, full, taken and missing by the booked contents, no override masking a failure, otherwise the override's status and body or the booked document, a list in the booked order |
| `Identifiers.ParameterNameMeaning` | crates/specmock-runtime/src/http/scenarios.rs:740-758 | a key names a parameter with or without braces around it |
| `Identifiers.FoundText` | crates/specmock-runtime/src/http/scenarios.rs:807-819 | the text found at a pointer: a string itself, nothing for a null or a missing place, a text that shows any other scalar |
| `JsonReader.PrintReadsBack` | crates/specmock-runtime/src/http/scenarios.rs:814-818 | every printed value, followed by anything that cannot continue a number, reads back as itself and leaves the rest, so different values give different identifiers |
| `Identifiers.AddressMeaning` | crates/specmock-runtime/src/http/scenarios.rs:740-772 | a create is identified by its message alone; a read, update or delete by the bound parameter its key names, else by the message; a list by nothing |
| `Identifiers.FiledMeaning` | crates/specmock-runtime/src/http/scenarios.rs:850-881 | what a create files: the document its key came from, or the generated reply with the identifier written at the key pointer |
| `Identifiers.PlainNamespace` | crates/specmock-runtime/src/http/scenarios.rs:710-732 | a collection without parameters is its own namespace |
| `Identifiers.ValidatedIsAddressable` | crates/specmock-core/src/sidecar.rs:410-431 | after validation some request addresses a resource of each keyed operation, if and only if it is not a create without a key source |
| `Identifiers.KeyedCreateNeverFiles` | crates/specmock-runtime/src/http/scenarios.rs:850-860 | a create with a key but no key source passes validation and always answers with a missing resource |
| `Identifiers.ScenariosKeepTheirNames` | crates/specmock-core/src/sidecar.rs:373-383 | every scenario of a validated sidecar is found by its name |
| `Identifiers.StepsAreDeclared` | crates/specmock-core/src/sidecar.rs:385-405 | every step of a validated sidecar is an operation of its catalogue and leads to a state of its scenario |
| `Identifiers.SeedIdMeaning` | crates/specmock-runtime/src/http/scenarios.rs:252-259 | a seed item is filed under its id, shown as text, or under its place in the list |
| `Identifiers.StatusMeaning` | crates/specmock-runtime/src/http/scenarios.rs:619-621 | a declared status that is a number below 65536 is that number, and any other text is none |
| `RuntimeOutcomes.SeedIsHeld` | crates/specmock-runtime/src/http/scenarios.rs:201-216 | a new instance whose seed fits its store holds every seed item that is the first under its key |
| `Identifiers.TenantsNeverCollide` | crates/specmock-runtime/src/http/scenarios.rs:705-732 | for every collection template: two requests that differ in a parameter it names, outside any open brace, never address the same resource |
| `Router.BuildShape` | crates/specmock-runtime/src/http/router.rs:125-147 | the trie built from any declarations has one edge per distinct first segment in first-declaration order, with the trie of the remaining segments behind it |
| `Router.Walk` | crates/specmock-runtime/src/http/router.rs:162-198 | the recursive walk with backtracking returns the chosen node and extends the parameter map only along the successful branch |
| `Router.ChooseCorrect` | crates/specmock-runtime/src/http/router.rs:70-198 | on every trie, path and method, a match is found exactly when some declared operation matches, and it is the preferred one |
| `Router.FirstEntryWins` | crates/specmock-runtime/src/http/router.rs:84-93 | the first operation of the method at the chosen node is the one a scan over all declarations selects, the lowest index with those segments |
| `Router.WinnerIsUnique` | crates/specmock-runtime/src/http/router.rs:70-198 | the scan's selection is unique, so it specifies the router completely |
| `Router.LiteralBeatsParameter` | crates/specmock-runtime/src/http/router.rs:149-198 | at the first segment where the selected template differs from another matching one it is never a parameter facing a literal |
| `Router.PathRouter.constructor` | crates/specmock-runtime/src/http/router.rs:70-79 | the built trie is the one the declarations, parsed and inserted in order, stand for |
| `Router.PathRouter.MatchRoute` | crates/specmock-runtime/src/http/router.rs:84-93 | no match exactly when no operation answers; otherwise the selected operation with the parameters its template binds |
| `Router.BindMeaning` | crates/specmock-runtime/src/http/router.rs:162-198 | exactly the declared names are bound, each to the segment at its last use |
| `Router.ParseSegmentMeaning` | crates/specmock-runtime/src/http/router.rs:101-114 | a segment is a parameter exactly when braces enclose a name that is not empty |
| `Template.SubstitutePathParams` | crates/specmock-runtime/src/http/openapi.rs:633-657 | the buffer loop replaces each closed placeholder that is bound and leaves everything else verbatim |
| `Template.SubstituteLiteral` | crates/specmock-runtime/src/http/openapi.rs:633-657 | substitution passes over text that opens no brace |
| `Template.SubstitutePlaceholder` | crates/specmock-runtime/src/http/scenarios.rs:710-732 | substitution replaces a leading placeholder, or leaves it visible when unbound, and carries on behind it |
| `Template.SubstituteNothing` | crates/specmock-runtime/src/http/openapi.rs:633-657 | with nothing bound a template renders as itself |
| `Template.RenderOverSlash` | crates/specmock-runtime/src/http/openapi.rs:633-657 | for every template, rendering goes segment by segment and carries over a slash only whether a brace is open |
| `Template.StandsAsItIs` | crates/specmock-runtime/src/http/openapi.rs:633-657 | with no opening brace in a value, a text renders as itself if and only if none of its holes is bound |
| `Template.HolesCanTrade` | crates/specmock-runtime/src/http/openapi.rs:633-657 | with braces in values two bound holes can leave the text as it was, so no condition on single holes is exact |
| `Location.RenderLocationHeader` | crates/specmock-runtime/src/http/openapi.rs:616-626 | every declared Location header, in any case, is re-rendered in place; no other header changes and none is added |
| `Location.IsLocationMeaning` | crates/specmock-runtime/src/http/openapi.rs:621-623 | a header is a Location header whatever the case of its letters |
| `Location.RenderedSegments` | crates/specmock-runtime/src/http/openapi.rs:633-657 | for every template, the rendered path splits into the template's segments, each rendered in its place |
| `Location.LocationRoundTrip` | crates/specmock-runtime/src/http/openapi.rs:616-657 | for every template and matching request, rendering gives back the request's segments if and only if each literal renders as itself and each parameter reads its own segment, or is spoilt by a brace and left as that very text |
| `Location.LiteralGivesBack` | crates/specmock-runtime/src/http/openapi.rs:633-657 | a literal outside any open brace gives back its segment, when no value holds an opening brace, if and only if none of its holes is bound |
| `Location.CleanRoundTrip` | crates/specmock-runtime/src/http/openapi.rs:616-657 | when literals open no brace and parameter names close none, the round trip holds if and only if every repeated name met equal segments |
| `Location.OrdinaryRoundTrip` | crates/specmock-runtime/src/http/openapi.rs:616-657 | the same for every template whose parameter names close no brace, on every request without an opening brace |
| `Location.DistinctNamesRoundTrip` | crates/specmock-runtime/src/http/openapi.rs:616-657 | when literals open no brace, parameter names close none and are distinct, the round trip always holds |
| `Location.RepeatedName` | crates/specmock-runtime/src/http/router.rs:162-198 | every template of two segments that repeats a name, on every request with two different segments, renders to another path |
| `Location.BracesInLiteralFail` | crates/specmock-runtime/src/http/openapi.rs:633-657 | a literal segment with a bound placeholder in it is rewritten: `/x/{a}.json` on `/{a}/{a}.json` |
| `Location.RepeatedNameFails` | crates/specmock-runtime/src/http/router.rs:162-198 | one such request: `/x/y` on `/{a}/{a}` |
| `RefResolver.FollowPointer` | crates/specmock-core/src/ref_resolver.rs:301-327 | the loop finds what the pointer denotes, with its escapes and array indices |
| `PointerLaws.UnescapeOfEscape` | crates/specmock-core/src/ref_resolver.rs:306-310 | the two replacements, in the order they are made, undo the escape of every name |
| `PointerLaws.PointerRoundTrip` | crates/specmock-core/src/ref_resolver.rs:301-327 | every place in every document is found by its pointer, if and only if it is not the member with the empty name at the root |
| `PointerLaws.LoneSlashMisses` | crates/specmock-core/src/ref_resolver.rs:301-304 | the failing document: the pointer to the member with the empty name gives the whole document |
| `Rfc6901.EvaluateRoundTrip` | crates/specmock-core/src/ref_resolver.rs:297-301 | by RFC 6901, the pointer written for a place evaluates to it, in every document and without exception |
| `Rfc6901.ResolverAgrees` | crates/specmock-core/src/ref_resolver.rs:301-327 | the resolver reads a text as RFC 6901 does, in every document, if and only if it is empty, or is rooted, is not a lone slash, and has only well-escaped tokens that are taken for indices exactly when they are |
| `Rfc6901.LenientTexts` | crates/specmock-core/src/ref_resolver.rs:301-327 | texts that differ: a leading zero, a plus sign and a missing slash reach an element that RFC 6901 does not give |
| `RefResolver.Resolver.constructor` | crates/specmock-core/src/ref_resolver.rs:43-88 | a new resolver has an empty cache; a cache limit of zero becomes one |
| `RefResolver.Resolver.EvictIfNeeded` | crates/specmock-core/src/ref_resolver.rs:265-273 | oldest first, until one more document fits; the key set stays equal to the queue without duplicates |
| `RefResolver.Resolver.Document` | crates/specmock-core/src/ref_resolver.rs:219-240 | through the cache a path yields exactly what its file holds, for every limit and cache state; the lookup after loading never misses |
| `RefResolver.Resolver.LocateTarget` | crates/specmock-core/src/ref_resolver.rs:189-256 | the target found through the cache is the one found by loading afresh, with the same error otherwise |
| `RefResolver.Resolver.ResolveValue` | crates/specmock-core/src/ref_resolver.rs:119-186 | resolution with the bounded cache equals resolution that loads every file afresh, and it terminates on the remaining depth |
| `RefResolver.Resolver.ResolveReference` | crates/specmock-core/src/ref_resolver.rs:189-263 | a reference into a file is resolved against that file before it is handed back, as in the cache-free form |
| `RefResolver.Resolver.ResolveValueTree` | crates/specmock-core/src/ref_resolver.rs:111-115 | resolving a document against itself starts with the whole depth budget |
| `RefLaws.ResolvedIsPlain` | crates/specmock-core/src/ref_resolver.rs:119-186 | a success leaves no `$ref` anywhere and its height fits the budget |
| `RefLaws.PlainIsFixed` | crates/specmock-core/src/ref_resolver.rs:119-186 | a reference-free value that fits resolves to itself in any document, directory and file system |
| `RefLaws.ResolutionIsIdempotent` | crates/specmock-core/src/ref_resolver.rs:119-186 | resolving a result again, anywhere and under any limit at least as large, changes nothing |
| `RefLaws.FileRefIgnoresReferrer` | crates/specmock-core/src/ref_resolver.rs:245-261 | a reference into a file without siblings resolves the same in every referring document, though the inlined value is walked there again |
| `RefLaws.FileMembersAreNotCaptured` | crates/specmock-core/src/ref_resolver.rs:119-186 | with siblings, each member the file supplied is kept as resolved there, and only the others are resolved against the referring document |
| `RefLaws.LargerLimitsAgree` | crates/specmock-core/src/ref_resolver.rs:119-186 | a success under one depth limit is the same success under every larger one |
| `RefLaws.ChainsFitTheBudget` | crates/specmock-core/src/ref_resolver.rs:119-186 | a success had budget for every chain of members, items and references from its start |
| `RefLaws.CyclesNeverResolve` | crates/specmock-core/src/ref_resolver.rs:119-186 | a value on a reference cycle fails under every depth limit |
| `RefLaws.DepthFailureHasChain` | crates/specmock-core/src/ref_resolver.rs:119-186 | a depth failure is never spurious: it exhibits a chain one longer than the budget |
| `RefTargets.LocalTarget` | crates/specmock-core/src/ref_resolver.rs:189-207 | a hash sign and the pointer of a place denote that place in the same document |
| `RefTargets.FileTarget` | crates/specmock-core/src/ref_resolver.rs:208-256 | a file, a hash sign and the pointer of a place denote that place in the file's document, to be resolved from the file's own directory |
| `RefTargets.WholeFileTarget` | crates/specmock-core/src/ref_resolver.rs:208-256 | a file alone denotes its whole document |
| `RefTargets.LocalRefInlines` | crates/specmock-core/src/ref_resolver.rs:119-186 | a local reference resolves as the place it points to does, one level down |
| `RefTargets.FileRefInlines` | crates/specmock-core/src/ref_resolver.rs:119-263 | a reference into a file resolves as the place does in its own document and directory, one level down |
| `RefTargets.LocalRefWithSiblings` | crates/specmock-core/src/ref_resolver.rs:130-166 | a local reference with siblings resolves as its target with the siblings added where the target has none |
| `RefTargets.FileRefErrors` | crates/specmock-core/src/ref_resolver.rs:208-256 | what is reported when a reference into a file leads nowhere: the first of an unknown file, one outside the roots, an unreadable one and a missing place |
| `RefTargets.UrlsAreRefused` | crates/specmock-core/src/ref_resolver.rs:196-200 | a reference over HTTP is refused under every limit |
| `RefTargets.OnlyAllowedFilesMatter` | crates/specmock-core/src/ref_resolver.rs:208-226 | two file systems that agree within the allowed roots give every resolution the same result |
| `NullableRewrite.RewritePreservesMeaning` | crates/specmock-runtime/src/http/openapi.rs:920-966 | for every schema, instance and reading of the other keywords, the schema under nullable rules accepts exactly when the rewritten one accepts under plain rules, through all nested keywords |
| `NullableRewrite.RewriteIsIdempotent` | crates/specmock-runtime/src/http/openapi.rs:920-966 | rewriting twice equals rewriting once |
| `NullableRewrite.WithNullMeaning` | crates/specmock-runtime/src/http/openapi.rs:943-960 | null is added to a type at most once, at the end |
| `NullableRewrite.NoRewriteIsIdentity` | crates/specmock-runtime/src/http/openapi.rs:920-966 | without the transform the walk changes nothing |
| `SchemaMeaning.CombinationMeaning` | crates/specmock-runtime/src/http/openapi.rs:920-966 | acceptance in the semantics the rewrite keeps: allOf asks for all, anyOf for some, oneOf for one and no second, not for refusal |
| `SchemaMeaning.ChildMeaning` | crates/specmock-runtime/src/http/openapi.rs:920-966 | acceptance in the semantics the rewrite keeps: declared members, additional ones and elements each meet their schema |
| `Faker.GenerateJsonValue` | crates/specmock-core/src/faker.rs:18-21 | for every random stream and every schema of the fair fragment, generation succeeds and a validator that refuses every constraining keyword it does not interpret accepts the value |
| `FakerShapes.ConsistentIsFair` | crates/specmock-core/src/faker.rs:23-97 | the fair fragment contains every schema written with types, consistent bounds, enum, const, items, properties, declared required names and anyOf, up to the depth limit |
| `FakerShapes.AcceptedConforms` | crates/specmock-core/src/faker.rs:23-97 | what the validator accepts under such a schema conforms to it in plain terms |
| `FakerShapes.GenerateConforming` | crates/specmock-core/src/faker.rs:18-21 | for every random stream, generating from such a schema succeeds and the value conforms in plain terms |
| `Faker.Generate` | crates/specmock-core/src/faker.rs:23-97 | an example is returned at any depth, else the first of the examples, else a default; anything else beyond depth 32 fails; and a fair schema yields an accepted value |
| `Faker.GenerateObject` | crates/specmock-core/src/faker.rs:121-159 | a fair object schema yields an accepted object; fair or not, every member is declared or invented, and the stock extra is there when anything is allowed |
| `Faker.GenerateProperties` | crates/specmock-core/src/faker.rs:121-138 | every generated member is declared and valid, and every required name is present |
| `Faker.GenerateArray` | crates/specmock-core/src/faker.rs:173-208 | a fair array schema yields an accepted array |
| `Faker.GenerateInteger` | crates/specmock-core/src/faker.rs:210-215 | the integer is the one the random pick selects in the drawn range |
| `Faker.IntRangeMeaning` | crates/specmock-core/src/faker.rs:210-215 | the drawn range in terms of the keywords: the declared bounds, zero for an absent minimum, 100 above it for an absent maximum, saturating, never empty |
| `Faker.EveryIntegerIsDrawn` | crates/specmock-core/src/faker.rs:210-215 | with consistent bounds only values between them are drawn, and each of them is |
| `Faker.FirstNamedMeaning` | crates/specmock-core/src/faker.rs:99-119 | a list of types names its first one that is not null |
| `Faker.GenerateString` | crates/specmock-core/src/faker.rs:225-274 | without format or pattern, lower-case letters of a length in the drawn range |
| `Faker.MergeValues` | crates/specmock-core/src/faker.rs:312-321 | members of the source replace those of the target; anything else replaces it whole |
| `Faker.IntegerConditionIsExact` | crates/specmock-core/src/faker.rs:210-215 | for every plain integer schema: every draw is valid if and only if the declared minimum (or zero) meets both bounds, exclusive bounds leave out the drawn range, and a factor other than one meets a range of a single multiple |
| `Faker.SizeConditionIsExact` | crates/specmock-core/src/faker.rs:173-189 | every drawn size respects the declared bounds if and only if the least one, the declared minimum or one but never above the cap, does |
| `Faker.SizeRangeMeaning` | crates/specmock-core/src/faker.rs:173-189 | the drawn range of sizes in terms of the keywords: one for an absent minimum, slack for an absent maximum, never above the cap and never empty |
| `Faker.SchemaTypeMeaning` | crates/specmock-core/src/faker.rs:99-119 | a single type name is the type; an empty list is none; a list that names nothing but null is null |
| `Faker.ArrayConditionIsExact` | crates/specmock-core/src/faker.rs:173-208 | arrays of every drawn size holding one repeated value are valid if and only if the sizes agree and uniqueness is only asked of at most one element |
| `Faker.LowMaximumFails` | crates/specmock-core/src/faker.rs:210-215 | a failing schema: with a maximum of -1 the only draw is 0, which is invalid |
| `Faker.FactorFails` | crates/specmock-core/src/faker.rs:210-215 | a failing schema: with a factor of 7 the draw may be 3, which is invalid |
| `Faker.TupleItemsAreUnfair` | crates/specmock-core/src/faker.rs:191-205 | a schema whose items are a list of schemas by position is outside the fair fragment |
| `Faker.UndeclaredRequiredFails` | crates/specmock-core/src/faker.rs:121-159 | every object generated for a schema that requires a name it neither declares nor invents is invalid |
| `Faker.ExtraCollisionFails` | crates/specmock-core/src/faker.rs:140-146 | every object generated for a schema that allows anything and declares the invented name with a schema refusing the stock text is invalid |
| `Faker.ObjectValid` | crates/specmock-core/src/faker.rs:121-159 | required names present, declared properties valid and extras allowed are enough for the validator |
| `Faker.ArrayValid` | crates/specmock-core/src/faker.rs:173-208 | a size within bounds and valid elements are enough for the validator |
| `Faker.StringValid` | crates/specmock-core/src/faker.rs:262-273 | in a plain string schema whose sizes agree, any text of a drawn length is accepted |
| `Faker.AnyOfValid` | crates/specmock-core/src/faker.rs:46-66 | a value valid for the chosen variant is valid for the whole |
| `XmlWriter.SanitizeXmlName` | crates/specmock-runtime/src/http/media.rs:213-225 | the loop keeps the legal characters after the first legal start, or falls back to an underscore |
| `XmlWriter.SanitizedNames` | crates/specmock-runtime/src/http/media.rs:213-225 | a sanitised name is non-empty and legal, legal names are unchanged, and sanitising twice is sanitising once |
| `XmlWriter.SanitizeMeaning` | crates/specmock-runtime/src/http/media.rs:213-225 | the name is the first character that can start one and all that can follow it, in order; an underscore when none can start one |
| `XmlWriter.EscapeXmlText` | crates/specmock-runtime/src/http/media.rs:197-210 | the loop escapes each character of the text in order |
| `XmlWriter.EscapeRoundTrip` | crates/specmock-runtime/src/http/media.rs:197-210 | unescaping recovers the text, and no bracket and no quote remains |
| `XmlWriter.WriteXmlElement` | crates/specmock-runtime/src/http/media.rs:153-175 | the writer appends exactly the element's text to the buffer |
| `XmlReader.RenderedReadsBack` | crates/specmock-runtime/src/http/media.rs:153-187 | any rendered value followed by anything reads back as its element tree, leaving the rest |
| `XmlReader.XmlRoundTrip` | crates/specmock-runtime/src/http/media.rs:147-151 | for every value and root name the reader consumes all output and recovers one tree, which is the value's own: sanitised names, children in order, strings as they are, nothing for null, true and false, decimals as they are and integers by sign and digits |
| `CacheKey.Hasher.HashJsonValue` | crates/specmock-core/src/validate.rs:36-67 | the hasher is fed exactly the value's byte stream |
| `CacheKey.TextPrefixFree` | crates/specmock-core/src/validate.rs:43-50 | terminated UTF-8 strings are prefix-free |
| `CacheKey.StreamPrefixFree` | crates/specmock-core/src/validate.rs:36-67 | equal streams, each followed by anything, come from equal values with equal remainders |
| `CacheKey.StreamInjective` | crates/specmock-core/src/validate.rs:30-34 | different values feed the hasher different bytes |
| `CacheKey.HeaderReads` | crates/specmock-core/src/validate.rs:36-67 | each kind of value has its own first byte, and a container's length follows it |
| `RateLimiter.Limiter.CheckAndUpdate` | crates/specmock-runtime/src/http/ws_handler.rs:37-51 | one message moves the window as specified, and the count never passes 100 |
| `RateLimiter.ExactAcceptance` | crates/specmock-runtime/src/http/ws_handler.rs:37-51 | from the start of any one-second interval, the number accepted is exactly what is left of the current window plus at most one further window's worth |
| `RateLimiter.AtMostHundredPerWindow` | crates/specmock-runtime/src/http/ws_handler.rs:37-51 | a window opened by a message accepts at most 100 |
| `RateLimiter.AtMostHundredInCurrentWindow` | crates/specmock-runtime/src/http/ws_handler.rs:33-51 | the window in force, in particular a connection's first, accepts at most 100 in all |
| `RateLimiter.AtMostTwoHundredPerSecond` | crates/specmock-runtime/src/http/ws_handler.rs:37-51 | any half-open second accepts at most 200 |
| `RateLimiter.TwoHundredIsAttained` | crates/specmock-runtime/src/http/ws_handler.rs:22-51 | arrivals for which 200 are accepted within one second, so 100 per second does not hold across a window boundary |

## Left out

- Transport (HTTP, WebSocket, gRPC), proxying, callbacks, the SDK and the command line.
- File access, canonicalisation, allowed-root checks and YAML or JSON parsing: the resolver takes the file system as fixed functions that may fail.
- The `jsonschema` validator, the regular-expression generator, the random generator and protobuf reflection, none of which is this repository's code.
- The order index under concurrent creates and deletes: its check-then-insert is not atomic, so listing order is claimed for sequential runs only.
- `clear` in the interleaved store: it overwrites the counter and would break the conservation law if run beside a create or delete.
- Concurrent first access to one session: finding or building an instance is one step here.
- Stored values in the interleaved requests of `InstanceProtocol`: that model tracks states and snapshots, and the store's interleaving is `StoreProtocol`.
- Faker.GenerateVariant: promises validity for `anyOf` without a discriminator only; `oneOf` exclusivity and discriminators are executed but promise nothing, because the code picks without ensuring them.
- Faker.GenerateAll: promises nothing about validity of merged `allOf` values, because the code merges without ensuring it.
- Faker.GenerateScalar: promises nothing for `number`, whose floating-point draw is an arbitrary decimal.
- Faker.GenerateString: format and pattern texts are arbitrary, since the format table and the pattern generator are not part of this model.
- Faker.GenerateJsonValue: enum, const and pinned values must themselves be accepted by the schema that declares them, and a schema with no type must accept the empty object; the code returns these unexamined.
- Faker.GenerateJsonValue: schemas with `not` or `oneOf` anywhere, a list of schemas under `items`, or a constraining keyword in `Faker.Foreign` (`pattern`, `contains`, `minProperties`, `if` and so on) are outside the fragment, and an array of two or more elements that must be unique is too; `format` is read as an annotation.
- Faker.IntegerConditionIsExact: a decimal bound or factor counts as not met, since decimals are texts here.
- Unused-operation warnings, error texts, problem documents and status tables.
- Update in place of JSON trees (the nullable rewrite, reference inlining, identifier alignment) and of trie nodes: these are modelled on values, so aliasing is not captured. The nullable rewrite and identifier alignment are functions without the original's loops.
- NullableRewrite.RewritePreservesMeaning: a `type` that is neither a string nor a list does not constrain, a subschema that is neither an object nor a boolean accepts nothing, and schemas beneath keywords the code does not visit are read by the arbitrary interpretation, the same way before and after.
- XmlReader.XmlRoundTrip: the reader is this project's own and control characters that XML 1.0 forbids are not excluded, because the writer does not exclude them.
- PointerLaws.PointerRoundTrip: array indices fit a 64-bit word.
- CacheKey.StreamInjective: container lengths fit a 64-bit word, numbers are identified by their text, and collisions of the 64-bit hash itself are outside the model.
- The validator cache around the key, media-type classification, header parsing, gRPC framing and AsyncAPI parsing.
