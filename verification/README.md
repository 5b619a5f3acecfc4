# Verified mechanisms of the defender agent

A Dafny model of the parts of the alert-triage agent whose correctness is an invariant rather than a
feature: scanners that stand in for trees, a wire format, paging over a store that changes, caches and
handles shared by threads, crash-safe writes, the life of a sandbox box, and the canonical name of its
image. Each file states what the source does and proves what it is for, over every input, every
interleaving or every outcome of the outside world.

The outside world is the actions of a state machine, or the values of a parameter every theorem
quantifies over: the daemon, the token endpoint, the clock's readings, the child process and its pipes,
the failure of any call and the order in which threads run are unconstrained. What is assumed of the rest
is little, and written into `Enabled`: other threads close only descriptors that are their own, and get
only numbers that are free; nobody but the modelled writers creates, writes or renames in the folder,
though anybody may unlink a target; an unnamed inode and a staged name are new; clocks do not run
backwards. Exceptions are constructors of a result type.

| file | mechanism | main results |
|---|---|---|
| `YamlLocations.dfy` | event loop over a YAML stream | the pushdown loop lists exactly the recursive walk; cut anywhere, a prefix of it |
| `SharedValues.dfy` | identity-keyed walk of an object graph | terminates, and refuses exactly the values with a mutable container at two places |
| `JsonDepth.dfy`, `JsonNames.dfy` | token scan of a JSON text | equals the value's depth on every legal printing under RFC 8259; when the decoder keeps that depth, and when two spellings are one name |
| `Paging.dfy` | cursor pagination | no position twice under any store; nothing that lasted is missed; an unchanged store is served whole |
| `AccessTokens.dfy`, `TokenRequests.dfy` | OAuth token cache behind gates | one exchange at a time; only the asker's own unexpired tokens; entries leave for cause |
| `Descriptors.dfy`, `DescriptorWalks.dfy` | shared directory handle | own descriptors only, each closed once, nothing touched after close, the lock never leaked |
| `CrashSafeWrites.dfy`, `CrashSafeOutcomes.dfy` | create and replace | absent or whole at every crash point; exactly one winner |
| `TextOrder.dfy`, `CanonicalForm.dfy`, `BoxClosure.dfy`, `LockLinks.dfy`, `ImageName.dfy` | the image's name | the worklist is reachability; the hashed parts ignore order and unreachable packages |
| `JsonQuoting.dfy`, `CanonicalText.dfy`, `TextDecides.dfy`, `ImageIdentity.dfy`, `ImageStream.dfy` | what the name tells apart | the hashed bytes are the same if and only if every input is, up to the order that does not matter; when a value's text is its own |
| `ReplyFrames.dfy`, `ProxyRecord.dfy`, `ProxyReply.dfy` | the credential proxy's reply | decode inverts encode, uniquely, prefix-free; every record is one the caller accepts; the caller ends with the system's whole body or none of it |
| `BoxLifecycle.dfy` | executor and windows | no command past an ending; entered only running, left only stopped |
| `BoundedCapture.dfy` | bounded exchange with a child | the outcome is exactly what each pipe's own events in time make it, in whatever order the pipes become ready |
| `MirrorTree.dfy` | in-place tree mirror | equal to the filtered source whatever was there; a second run writes nothing |
| `StopAndScrub.dfy` | teardown and verdict | exactly when a tree is called verified, whatever verdict it had; which failure wins |
| `ModelView.dfy` | model and host paths | what is shown names what it was shown for; operands stay inside |

`Options.dfy` and `Characters.dfy` hold what several models share.

Check everything with `dafny verify dfyconfig.toml`.

## Reading the models

- State machines (`AccessTokens`, `Descriptors`, `CrashSafeWrites`) have an `Action` type, `Enabled` and
  `Apply`; `Run` folds a list of actions. A theorem about `Run` is a theorem about every interleaving,
  because the list is arbitrary. A second file beside each (`TokenRequests`, `DescriptorWalks`,
  `CrashSafeOutcomes`) reads what an operation did and was told off its own steps, and shows that nothing
  but its surroundings can keep it from succeeding.
- Loops are methods whose contract states the promised property of the result; the function beside each
  one is what lemmas speak of.
- What the source computes through code outside these files (JSON text, UTF-8, quoting, `resolve()`) is
  a function parameter, with only the law a proof needs as a hypothesis; the quoting is also given outright, and
  its law proved, in `JsonQuoting.dfy`.

## Model

| member | source | states |
|---|---|---|
| `YamlLocations.WrittenLocations` | defender/_yaml.py:260-311 | on the events of any stream the loop returns exactly the recursive listing; on any prefix of them it does not fail and returns a prefix of the listing |
| `YamlLocations.StreamIsListed` | defender/_yaml.py:281-309 | the automaton ends a whole stream with nothing open and exactly the listing of all its documents |
| `YamlLocations.ValueIsListed` | defender/_yaml.py:297-309 | a node in value position lists its recursive listing and returns the stack with its mapping awaiting the next key |
| `YamlLocations.KeyIsNamed` | defender/_yaml.py:286-303 | a key, a collection of any depth included, lists nothing and leaves its scalar text or `?` |
| `YamlLocations.KeyPartIsSkipped` | defender/_yaml.py:286-290 | inside a collection used as a key, any node leaves the key depth as it found it |
| `YamlLocations.CutStreamListsAPrefix` | defender/_yaml.py:310-311 | a parse error after any event leaves a prefix of the whole listing |
| `SharedValues.RefuseShared` | defender/_yaml.py:154-180 | on every finite graph whose cycles pass through a mutable container the walk ends, and refuses if and only if some mutable container stands at two root paths, itself included |
| `SharedValues.ListedTwiceIsShared` | defender/_yaml.py:165-180 | a container of either kind that lists one mutable container twice shares it |
| `SharedValues.ListedBelowItselfIsShared` | defender/_yaml.py:165-180 | and so does a mutable container that is listed by itself or below itself |
| `SharedValues.FrozenBelowShrinks` | defender/_yaml.py:171-180 | why it ends: along immutable links strictly fewer objects remain below |
| `SharedValues.PoppedStaysBookkept` | defender/_yaml.py:163-180 | popping one object keeps every place accounted for exactly once |
| `SharedValues.EmptyStackMeansTree` | defender/_yaml.py:163-164 | an emptied stack proves no mutable container is shared |
| `JsonDepth.JsonNestingDepth` | defender/_filesystem/json.py:48-64 | for every value and every legal printing of it the scan returns the value's container depth |
| `JsonDepth.StringToken` | defender/_filesystem/json.py:40-43 | where the string token ends, an unclosed one and an escaped line feed included |
| `JsonDepth.LiteralIsTaken` | defender/_filesystem/json.py:43-58 | a legal string literal, whatever brackets and quotes it holds, ends at its own closing quote |
| `JsonDepth.ValueScans` | defender/_filesystem/json.py:54-64 | a printed value raises the maximum by its depth and gives its brackets back |
| `JsonDepth.DepthGate` | defender/_filesystem/json.py:81-82 | the gate refuses exactly the values nested deeper than the limit |
| `JsonDepth.DecodedIsNoDeeper` | defender/_filesystem/json.py:81-84 | what the decoder builds, keeping the last of repeated names, is never deeper than what the gate judged |
| `JsonDepth.RepeatedNameHidesDepth` | defender/_filesystem/json.py:81-84 | and can be shallower: an object with a repeated name, whatever the name |
| `JsonDepth.UnrepeatedIsDecodedWhole` | defender/_filesystem/json.py:81-84 | where no object repeats a name the decoder builds the value as written |
| `JsonDepth.DecoderKeepsDepthExactlyWhen` | defender/_filesystem/json.py:81-84 | the gate's depth is the decoded value's if and only if the value is no container or a deepest container lies on a path that takes only the last member of each name |
| `JsonDepth.RefusedThoughShallowRepeatsAName` | defender/_filesystem/json.py:81-84 | a text refused though its decoded value is within the limit repeats a name, on every path to a deepest container |
| `JsonNames.OneNameExactlyWhenSameUnits` | defender/_filesystem/json.py:84 | two legal spellings are one string to the decoder, which joins escaped surrogate pairs, if and only if they write the same UTF-16 units |
| `JsonNames.WrittenReadsBack` | defender/_filesystem/json.py:84 | the decoder's string is what reads back from those units |
| `JsonNames.OtherSpellingHidesDepth` | defender/_filesystem/json.py:81-84 | the decoder loses a member, and a level the gate counted, to a later one spelled otherwise, if and only if both spellings write the same units |
| `JsonNames.FaceHidesDepth` | defender/_filesystem/json.py:81-84 | a text that does: a character past the basic plane as itself and as its escaped pair |
| `Paging.Advances` | defender/api/pages.py:89-99 | accepts exactly the answers of at most the asked size in which each row strictly follows the one before |
| `Paging.Paginate` | defender/api/pages.py:102-136 | a cursor is refused exactly when it does not decode, is of another list, tenant or filters, or is no position of the order; the store's answer is a broken promise exactly when too long or not advancing; else the first rows, and a cursor of this query at the last exactly when there are more |
| `Paging.CursorOfAnotherQuery` | defender/api/pages.py:116-126 | a cursor another query was issued is refused exactly when the queries differ in list, tenant or filters, whatever the store; one that does not decode always is |
| `Paging.NewestAreServedFirst` | defender/api/pages.py:50-56 | each row served is later than those after it, or of one moment with the greater id |
| `Paging.IdsAreServedInOrder` | defender/api/pages.py:59-65 | each row's id is less than every later one's |
| `Paging.CursorComesBack` | defender/api/pages.py:116-126 | a cursor this query issued resumes at the position it was issued for |
| `Paging.CursorOfAnotherOrder` | defender/api/pages.py:50-65 | a cursor of the other order is refused |
| `Paging.NewestFirstIsLawful` | defender/api/pages.py:50-56 | newest-first is a strict total order whose positions survive a cursor |
| `Paging.OrderedByIdIsLawful` | defender/api/pages.py:59-65 | by-id is a strict total order whose positions survive a cursor |
| `Paging.WalkServesInOrder` | defender/api/pages.py:127-136 | whatever the stores answered, what a walk serves is strictly in order: no position twice |
| `Paging.LastingRowIsServed` | defender/api/pages.py:127-136 | rows inserted and deleted between pages: a position present at every page of a finished walk was served |
| `Paging.UnchangedStoreIsServedWhole` | defender/api/pages.py:127-136 | over an unchanged store a finished walk serves the rows sorted, each once, and an unfinished one has served a full page a step |
| `Paging.SortedIsOrdered` | defender/api/fakes.py:42-51 | rows at distinct positions sort into the strict order of the same rows |
| `Paging.StoreKeepsPromise` | defender/api/fakes.py:42-51 | the in-memory answer is at most the size asked and strictly advances |
| `Paging.StoreNeverBreaks` | defender/api/fakes.py:42-51 | so no query of it is ever a broken promise |
| `Paging.TenantRowsHaveDistinctIds` | defender/api/fakes.py:60-64 | the rows a table gives a tenant carry distinct ids |
| `Paging.TenantRowsAreAllThere` | defender/api/fakes.py:60-64 | none of a tenant's rows is missing from its list |
| `Paging.TenantListsNeverBreak` | defender/api/fakes.py:60-64 | so both list orders over a tenant's rows never break |
| `Paging.Table.Put` | defender/api/fakes.py:105-137 | assigning a row to its key replaces that key's row alone and keeps the table keyed by the ids its rows carry |
| `AccessTokens.OneExchangeAtATime` | defender/credential_proxy/_credentials.py:139-161 | in every interleaving at most one thread of a key is between dropping its entry and storing the new one, and no token of that key is held meanwhile |
| `AccessTokens.NoGateIsLeaked` | defender/credential_proxy/_credentials.py:139-161 | in every interleaving a thread holds a gate exactly while it is past it, so an idle one holds none |
| `AccessTokens.WaitingIsNeverStuck` | defender/credential_proxy/_credentials.py:139-161 | a thread that waits finds its gate free, or held by a thread that can go on |
| `AccessTokens.ServedTokensAreTheAskersOwn` | defender/credential_proxy/_credentials.py:148-159 | every token served was issued for the same tenant, system, version and digest, and a reused one strictly before asked-at + lifetime - margin |
| `AccessTokens.GoodTokenIsServedAgain` | defender/credential_proxy/_credentials.py:149-153 | a held token of this version and declaration, not within the margin of its end, is served again with no exchange; any other entry is dropped |
| `AccessTokens.IssuedIsServedAndHeld` | defender/credential_proxy/_credentials.py:154-159 | what an exchange issued is served to its asker, and held exactly when its lifetime is known and longer than the margin |
| `AccessTokens.HeldUntilThereIsCause` | defender/credential_proxy/_credentials.py:149-169 | over every run, a held token stays until an eviction names it or a check finds it of no use |
| `AccessTokens.LifetimeIsStatedExactlyBy` | defender/credential_proxy/_credentials.py:224-231 | a lifetime is stated by a number not negative or a text of digits, and by nothing else |
| `TokenRequests.RequestGoesItsWay` | defender/credential_proxy/_credentials.py:139-169 | in every interleaving a thread back at rest has given up at its gate, been served what was held, exchanged once, or evicted, step after step |
| `TokenRequests.IssuesAreExchanges` | defender/credential_proxy/_credentials.py:155-159 | whatever is said to be issued was answered to an exchange of the run, for a request of that ask, begun when the clock read its asked-at |
| `TokenRequests.ReusedWithinItsLife` | defender/credential_proxy/_credentials.py:149-159 | a reused token was answered to such an exchange, and served before that moment plus its lifetime less the margin |
| `TokenRequests.EvictionDropsWhatItWasAsked` | defender/credential_proxy/_credentials.py:163-169 | an eviction drops the entry of the key it was asked for if it has the text it was asked for, and nothing else |
| `TokenRequests.RequestCanBeServed` | defender/credential_proxy/_credentials.py:139-161 | a request at a free gate can be served any token its exchange may issue, and leaves its gate free |
| `AccessTokens.TokensLeaveForCause` | defender/credential_proxy/_credentials.py:149-169 | an entry leaves only by an eviction naming its key and text, or by a request of its key that may not reuse it; nothing overwrites it |
| `AccessTokens.EvictedIsNotServedAgain` | defender/credential_proxy/_credentials.py:163-169 | in every run on from an eviction, the text it names is neither held nor served under its key until an exchange issues it anew |
| `AccessTokens.GatesKept` | defender/credential_proxy/_credentials.py:135-137 | every step keeps one gate a key and the gate's owner the only thread past it |
| `AccessTokens.TokensKept` | defender/credential_proxy/_credentials.py:148-169 | every step keeps held entries backed by an exchange and served tokens justified by one |
| `AccessTokens.LifetimeReadsBothSpellings` | defender/credential_proxy/_credentials.py:224-231 | a lifetime reads the same as a number and as its decimal text |
| `Descriptors.StepsUseOwnDescriptors` | defender/_filesystem/bound.py:521-555 | every descriptor handed to the kernel is open and its caller's own, or the handle's under its lock |
| `Descriptors.DoneOperationClosedEachOnce` | defender/_filesystem/bound.py:372-469 | on every outcome each descriptor a finished operation opened has been closed exactly once |
| `Descriptors.StartStaysOpen` | defender/_filesystem/bound.py:399-417 | the walk's start descriptor stays the same opening at the same number until the operation closes its duplicate |
| `DescriptorWalks.LeafIsOpenedAfterEveryFolder` | defender/_filesystem/bound.py:400-414 | in every interleaving the leaf is opened after exactly as many folders were found as the path names, off the last of them |
| `DescriptorWalks.FolderIsOpenedOffTheLast` | defender/_filesystem/bound.py:400-414 | each folder is opened while fewer were found than named, off the last one found |
| `DescriptorWalks.JudgesWhatItOpened` | defender/_filesystem/bound.py:372-395 | what is judged is what was just opened, and what is read is the leaf, once found plain |
| `DescriptorWalks.ReadIsToldWhatDecidedIt` | defender/_filesystem/bound.py:435-469 | a finished read is told what the one step that decided it said, and data only from a plain leaf after every folder |
| `DescriptorWalks.CloseClosesOnce` | defender/_filesystem/bound.py:551-555 | a finished close leaves the handle closed, its own opening closed exactly once |
| `DescriptorWalks.ReadCanSucceed` | defender/_filesystem/bound.py:398-469 | a read the kernel refuses nothing comes to its data, however many folders its path names |
| `Descriptors.AfterCloseNothingIsTouched` | defender/_filesystem/bound.py:538-555 | once the handle is closed it stays so, and an operation not yet past its `dup` opens nothing and ends with a bad descriptor |
| `Descriptors.LockIsNotLeaked` | defender/_filesystem/bound.py:521-559 | in every interleaving the handle's lock is held exactly by a thread that stands where it is needed, never by an idle or finished one |
| `Descriptors.WaitingIsNeverStuck` | defender/_filesystem/bound.py:521-559 | a thread that wants the lock finds it free, or held by one that can go on |
| `Descriptors.LedgerKept` | defender/_filesystem/bound.py:372-469 | every step keeps each opening open at one number or closed once |
| `Descriptors.OwnersKept` | defender/_filesystem/bound.py:398-417 | every step keeps the open descriptors of an operation exactly those it stands on, numbers reused or not |
| `CrashSafeWrites.NameIsAbsentOrWhole` | defender/_io.py:631-650 | at every point of every run a target name is absent, a file from before untouched, or the whole body of a job for that name |
| `CrashSafeWrites.TargetsChangeWhole` | defender/_io.py:838-867 | only a link or a rename changes a target, to its own whole body; failures, kills and clean-up never do |
| `CrashSafeWrites.AtMostOneCreatorWins` | defender/_filesystem/write.py:161-185 | of any creators racing for a name nobody unlinks at most one link takes effect, and none where something stood |
| `CrashSafeOutcomes.CreatedIsLinked` | defender/_io.py:838-867 | in every run whoever is told it created is a creator whose link took effect, and whoever linked is told so or stopped first |
| `CrashSafeOutcomes.OneIsToldItCreated` | defender/_io.py:838-867 | while nobody unlinks the name, two who are told they created it are one, and nothing stood there |
| `CrashSafeOutcomes.ToldCreatorsBodyStands` | defender/_io.py:838-867 | among creators, the name holds the whole body of the one who is told |
| `CrashSafeOutcomes.ToldForCause` | defender/_io.py:600-656 | every outcome has the step that explains it: created after its link, replaced with its body in place, taken only where something stood, failed with every target as it was |
| `CrashSafeOutcomes.OccupiedNameStops` | defender/_io.py:600-636 | whoever finds anything but one plain file at its name, and a creator who finds that, does nothing more |
| `CrashSafeOutcomes.NothingStagedIsLeft` | defender/_io.py:639-656 | a finished writer, unless killed or failed at its clean-up, has left no file under any name but a target's |
| `CrashSafeOutcomes.CreatorCanWin` | defender/_io.py:838-867 | a creator whose name is free can be told it created, the name holding its body |
| `CrashSafeOutcomes.ReplacerCanWin` | defender/_io.py:631-656 | and a replacer that it replaced, its staged name gone |
| `CrashSafeWrites.BoundNameHasItsWinner` | defender/_io.py:838-867 | a name bound among creators has exactly one winner and holds its whole body |
| `CrashSafeWrites.StepKeeps` | defender/_filesystem/write.py:161-185 | every step keeps each writer's file its own and exactly the prefix it has written |
| `TextOrder.SortHolds` | defender/box/_image.py:148-149 | the stable sort orders by key and keeps the elements |
| `TextOrder.TextLessAtFirstDifference` | defender/box/_image.py:148-149 | texts are ordered by code point where they first differ, a beginning before what it begins |
| `TextOrder.OrderedIsUnique` | defender/box/_image.py:148-149 | an arrangement ordered by a key that tells elements apart is the only one |
| `CanonicalForm.CanonIgnoresOrder` | defender/box/_image.py:139-150 | values that differ by reordering lists at any depth, or keys, have one canonical text, for any quoting |
| `CanonicalForm.OrderFreeIsAReordering` | defender/box/_image.py:143-150 | the canonical form is itself a reordering of the value: nothing is lost or added |
| `CanonicalForm.CanonOfList` | defender/box/_image.py:148-149 | a list's canonical text depends only on the multiset of its elements' canonical texts |
| `BoxClosure.BoxClosure` | defender/box/_image.py:58-85 | returns, in lock order, exactly the entries with reachable names; fails exactly when the root or a reachable name has no entry, naming one; terminates on cyclic locks |
| `LockLinks.EntryLinksToExactly` | defender/box/_image.py:50-55 | an entry links to a name exactly when its dependencies list a link of that name, or any of its optional sets does |
| `LockLinks.RootLinksToExactly` | defender/box/_image.py:45-47 | the root does exactly when its dependencies do or its `box` set does |
| `LockLinks.NameIsTheField` | defender/box/_image.py:95-98 | a link is named by the text under its name key |
| `LockLinks.EntryIsExactly` | defender/box/_image.py:101-118 | an entry is let through exactly with a string name and lists of named links for its dependencies and every optional set |
| `BoxClosure.IndexByName` | defender/box/_image.py:67-69 | every name's entries, by position, and no other name |
| `BoxClosure.LinkedNames` | defender/box/_image.py:45-55 | exactly the names the given entries link to, as roots or as packages |
| `BoxClosure.ClosedHoldsReachable` | defender/box/_image.py:75-84 | a set holding the root's links and closed under links holds everything reachable |
| `BoxClosure.NormalizedIsStable` | defender/box/_image.py:39-42 | normalising a name twice is normalising it once, for any lowering that is stable and brings in no separator |
| `BoxClosure.CollapsedHasOneDashEach` | defender/box/_image.py:42 | every run of separators becomes one dash, and nothing else is a separator |
| `BoxClosure.CollapsingKeepsTheLetters` | defender/box/_image.py:42 | nothing but the separators changes, and no two dashes, no underscore and no dot are left |
| `BoxClosure.LatinLowersWell` | defender/box/_image.py:42 | lowering basic Latin letters is such a lowering |
| `ImageName.ReorderedLockSameName` | defender/box/_image.py:168-181 | a lock reordered at any depth, packages included, is usable alike and gives the same closure and roots text |
| `ImageName.UnreachedPackagesDoNotMatter` | defender/box/_image.py:168-181 | adding or removing packages that neither carry the root's name nor are reached leaves the closure and the roots as they are |
| `ImageName.RequirementOrderIsFree` | defender/box/_image.py:128-131 | the order of requirement strings does not change their hashed text |
| `JsonQuoting.EscapeReadsBack` | defender/box/_image.py:139-140 | an `ensure_ascii` escape, surrogate pairs included, is read back as the character written, whatever follows |
| `JsonQuoting.QuoteReadsBack` | defender/box/_image.py:139-140 | no quoted text is the beginning of another, and different texts are quoted differently |
| `CanonicalText.ReorderedSymmetric` | defender/box/_image.py:143-150 | being a reordering goes both ways |
| `CanonicalText.ReorderedTransitive` | defender/box/_image.py:143-150 | and composes |
| `CanonicalText.JsonQuotesWell` | defender/box/_image.py:139-140 | the encoder's quoting meets the one hypothesis made of a quoting below |
| `CanonicalText.PlainReadsBack` | defender/box/_image.py:139-140 | values without dates whose encodings agree up to a delimiter differ only in the order of keys, and what follows agrees |
| `TextDecides.EncodeReadsBack` | defender/box/_image.py:139-140 | the same of any values, dates and times read as their texts |
| `TextDecides.EncodedAlikeExactlyWhenRekeyed` | defender/box/_image.py:139-140 | two values are encoded alike if and only if, dates and times read as texts, they differ only in the order of keys |
| `TextDecides.SameTextExactlyWhenReordered` | defender/box/_image.py:139-150 | two values have the same canonical text if and only if, dates and times read as texts, one is the other reordered; where neither holds one, if and only if one is the other reordered |
| `TextDecides.HashedAlikeExactlyWhenReordered` | defender/box/_image.py:139-150 | the same for the text as the encoder quotes it, with nothing supposed of the quoting |
| `TextDecides.DateHashedAsItsText` | defender/box/_image.py:140 | a date and the string that spells it: not each other's reorderings, one canonical text |
| `TextDecides.TextIsItsOwnExactlyWhenUntimely` | defender/box/_image.py:139-150 | a value shares its canonical text with its reorderings only, if and only if it holds no date or time and no text that spells one |
| `ImageIdentity.RequirementsTextDecides` | defender/box/_image.py:128-131 | the requirements part is the same text if and only if both lists hold the same strings, each as often |
| `ImageIdentity.ClosureTextDecides` | defender/box/_image.py:168-181 | the closure part is the same text if and only if the two closures are one up to order at any depth, dates and times read as texts; in locks without them, exactly up to order |
| `ImageIdentity.RootsTextDecides` | defender/box/_image.py:168-181 | and the roots part if and only if the roots' links are, in the same sense |
| `ImageStream.Digested` | defender/box/_image.py:189-194 | what the digest is fed: each part's name, a NUL, its content, a NUL |
| `ImageStream.StreamDeterminesParts` | defender/box/_image.py:171-194 | the stream determines every part, though the first may hold NULs of its own |
| `ImageStream.EncodeIsPrintable` | defender/box/_image.py:139-140 | an encoded value is printable ASCII, so no later part holds a NUL |
| `ImageStream.NameDecides` | defender/box/_image.py:153-195 | up to the digest, two sets of inputs get one name if and only if: same Dockerfile bytes, same `[tool.uv]` with lists as written, same requirement strings each as often, same roots' links and same closure up to order |
| `ReplyFrames.DecodeReply` | defender/_proxy_client.py:81-103 | the frame loop computes the specified decoding, each malformation its own refusal |
| `ReplyFrames.DecodeInvertsEncode` | defender/_proxy_client.py:70-103 | every list of chunks shorter than 2^32 bytes and every valid record decode to themselves |
| `ReplyFrames.AcceptedExactlyWhenFramed` | defender/_proxy_client.py:81-103 | a reply is accepted as some chunks and a record if and only if it is their frames and a final frame holding that record |
| `ReplyFrames.FramingIsUnique` | defender/_proxy_client.py:81-103 | no bytes frame two different lists of chunks or payloads |
| `ReplyFrames.NoPrefixOrExtensionIsAccepted` | defender/_proxy_client.py:92-103 | no strict prefix and no proper extension of an accepted reply is accepted |
| `ReplyFrames.LengthInvertsBigEndian` | defender/_proxy_client.py:37-37 | the four length bytes read back |
| `ReplyFrames.RecordOfInvertsAsDocument` | defender/_proxy_client.py:106-123 | a record's document is accepted exactly when the record is valid, as that record |
| `ReplyFrames.AcceptedDocumentIsItsRecords` | defender/_proxy_client.py:106-123 | an accepted document is exactly the fields of the record it gives, which is valid |
| `ReplyFrames.BodyIsWholeOrEmpty` | defender/_proxy_client.py:191-200 | the caller keeps the chunks joined when the record says the body is whole, and nothing otherwise |
| `ProxyRecord.Sent` | defender/credential_proxy/_app.py:323-368 | what the leg's events and end make of a request, and what they leave on its trail |
| `ProxyRecord.Proxy.Handle` | defender/credential_proxy/_app.py:213-242 | the record, its audit entry written first, or the withheld refusal when the sink fails |
| `ProxyRecord.EveryRecordIsValid` | defender/credential_proxy/_app.py:371-411 | on every path the record satisfies its caller's rule |
| `ProxyRecord.SentSaysWhetherItMayHaveArrived` | defender/credential_proxy/_app.py:344-367 | `sent` is false exactly when the call never began, or never connected with no status reported |
| `ProxyRecord.ClaimsAreTheSystems` | defender/credential_proxy/_app.py:371-399 | a whole body, a status, a reader fault and a system-side mark are claimed only for what happened |
| `ProxyRecord.FaultsByStatus` | defender/credential_proxy/_app.py:371-411 | the fault of a reply that came to its end, by its status and by being withheld |
| `ProxyRecord.BrokenOffAfterAStatus` | defender/credential_proxy/_app.py:350-364 | a leg broken off after a status keeps it, counts no body, and is the reader's fault exactly when it waited for the run or was left by it |
| `ProxyRecord.BrokenOffBeforeAStatus` | defender/credential_proxy/_app.py:354-367 | one broken off before has none, and is of the system's side where its call failed |
| `ProxyRecord.FailuresAreClassified` | defender/credential_proxy/_app.py:223-233 | every other failure is answered as the fault it is |
| `ProxyRecord.UnauditedIsWithheld` | defender/credential_proxy/_app.py:234-242 | without its audit no answer leaves but the withheld refusal, which still says whether the request may have arrived |
| `ProxyRecord.HeadersAreShownJoined` | defender/credential_proxy/_app.py:384-388 | every header but the hop's is shown, its values joined in order |
| `ProxyRecord.AuditSaysWhatBecame` | defender/credential_proxy/_app.py:185-188 | the audited outcome is a status or a fault, but for a success returned whole by a leg that never reported its status |
| `ProxyReply.CallerKeepsOnlyWholeBodies` | defender/_proxy_client.py:191-200 | whatever befell the request, the caller decodes what the leg passed on and this record, and keeps those bytes exactly when the audited reply came back with nothing withheld |
| `ProxyReply.StreamReply` | defender/credential_proxy/_reply.py:77-106 | a reply is passed on whole exactly when it is empty, or uncompressed and within the cap by its declaration and its bytes; never more than the cap goes on |
| `ProxyReply.Delivered` | defender/credential_proxy/_app.py:523-536 | from the system to the caller: streamed, recorded, framed and decoded, the caller ends with the system's body or with none of it |
| `ProxyReply.JudgedWhole` | defender/credential_proxy/_app.py:371-390 | and its record says which, with no fault exactly for a success that went whole |
| `BoxLifecycle.Drive` | defender/box/_spec.py:221-346 | for every script: nothing exchanged past the fence or, until a window is seen started, past a loss; bodies entered only running; closed windows seen stopped; and exactly the commands the script's own answers call for are exchanged |
| `BoxLifecycle.NothingAfterAnOverflow` | defender/box/_spec.py:253-283 | after a command whose answer overflowed nothing in the script is exchanged |
| `BoxLifecycle.NothingAfterALoss` | defender/box/_spec.py:221-259 | after a loss nothing is, until a window proves it started |
| `BoxLifecycle.CleanFramesAreAllExchanged` | defender/box/_spec.py:276-292 | while every answer is a frame every command is exchanged and none refused |
| `BoxLifecycle.BoxExecutor.RunParsed` | defender/box/_spec.py:240-325 | a refused command repeats the ending; any other is exchanged exactly when its clock was written; an overflow ends the run at the fence, a frame is the result, and what is neither loses the box unless the box runs and the end explains itself |
| `BoxLifecycle.BoxExecutor.Unframed` | defender/box/_spec.py:294-318 | the box is lost unless it says it runs and the helper was killed, timed out or met its own deadline |
| `BoxLifecycle.BoxExecutor.End` | defender/box/_spec.py:329-346 | an ending refuses every later command and keeps its identity whatever the stop does |
| `BoxLifecycle.BoxExecutor.Readmit` | defender/box/_spec.py:221-225 | lifts a loss's refusal, never the fence's |
| `BoxLifecycle.BoxRuns.Stop` | defender/box/_lifecycle.py:1003-1026 | proven exactly by the daemon's word that the box is down, or, for the run box, being removed or gone |
| `BoxLifecycle.BoxRuns.Run` | defender/box/_lifecycle.py:1028-1070 | entered exactly when the start is proven, closed without a fault exactly when the stop is; a window refused exchanges nothing and asks for a stop; one entered exchanges what its body calls for |
| `BoxLifecycle.SafeMeans` | defender/box/_spec.py:197-200 | step-by-step safety of a trace is the four properties of the whole trace |
| `BoundedCapture.Exchange` | defender/box/_output.py:35-90 | the limit fault exactly when the two streams, each read on its own, give more than the limit in time; both streams whole exactly when all three pipes are done in time and the child is reaped; a time-out otherwise; never more than limit + 1 bytes taken; what is written is a prefix of the frame, and all the child took |
| `BoundedCapture.EndsReachedInTime` | defender/box/_output.py:60-80 | once the ends are reached in time, the limit alone decides between the whole streams and the fault |
| `BoundedCapture.ReadinessOrderDoesNotMatter` | defender/box/_output.py:60-80 | two schedules that agree on each pipe's own events have one outcome |
| `BoundedCapture.EndIsMet` | defender/box/_output.py:69-76 | one read more than a stream has bytes always meets its end |
| `BoundedCapture.SendingEndsExactlyWhen` | defender/box/_output.py:62-68 | nothing is left to send exactly when the frame is taken or the pipe is broken, after which the child takes no more |
| `BoundedCapture.Send` | defender/box/_output.py:84-90 | what the child takes of the next chunk, nothing when it would block, and nothing left to send on a broken pipe |
| `BoundedCapture.ReadOnce` | defender/box/_output.py:69-79 | one read never asks for nothing, closes only at the end, and keeps nothing past the limit |
| `MirrorTree.Disk.Mirror` | defender/box/_stage.py:57-79 | below the destination, exactly the source's folders and regular files less the skipped names; nothing else changed; no write where it already was so |
| `MirrorTree.Disk.CarryFile` | defender/box/_stage.py:41-54 | the target becomes the file, over whatever stood there, and is left alone when it already is |
| `MirrorTree.Disk.CarryFolder` | defender/box/_stage.py:68-73 | a folder replaces anything that is not one and is mirrored whole |
| `MirrorTree.Disk.Remove` | defender/box/_stage.py:24-28 | an entry goes with all it holds and nothing else does |
| `MirrorTree.RefreshTwice` | defender/box/_stage.py:115-118 | a second refresh leaves the tree and the record of writes as the first did |
| `MirrorTree.MirrorIsStable` | defender/box/_stage.py:57-79 | a mirrored destination mirrors the source as it now stands |
| `StopAndScrub.RunTree.Scrub` | defender/box/_scrub.py:183-218 | every entry judged, the verdict written before the findings are raised |
| `StopAndScrub.FindingsTellTheWalk` | defender/box/_scrub.py:62-94 | no finding exactly when everything met is permitted; partial exactly when something was not classified |
| `StopAndScrub.JudgedAsItIs` | defender/box/_scrub.py:62-94 | each sighting's finding names its path and its fault: wrong type, hard link, or unreadable |
| `StopAndScrub.FindingsAreOfTheirSightings` | defender/box/_scrub.py:196-206 | the findings are those of the sightings, each and no other |
| `StopAndScrub.RunTree.StopAndScrub` | defender/box/_lifecycle.py:1083-1133 | the verdict left and the failure raised; the walk runs exactly when the stop returned |
| `StopAndScrub.RunLifecycle` | defender/run.py:527-565 | when the job records a verified tree, when a taint or a teardown fault is raised, and when the drive's own failure is what leaves, for every outcome of drive, stop, walk and writes and anything on file |
| `StopAndScrub.VerifiedExactlyWhen` | defender/run.py:557-560 | when a tree is called verified, whatever verdict it had before |
| `StopAndScrub.VerifiedExactlyWhenClean` | defender/run.py:557-560 | starting with no verdict, verified if and only if the stop returned, every entry was permitted, and the sweep and the verdict's writes and reads worked |
| `StopAndScrub.StaleVerdictMisleads` | defender/box/_scrub.py:165-177 | verified implies a clean reap exactly when no earlier verdict says it ran |
| `StopAndScrub.TaintOutranksEverything` | defender/box/_lifecycle.py:1103-1104 | a taint is raised exactly when the box stopped and something was not permitted, whatever else failed |
| `StopAndScrub.TeardownNeverReplacesADriveFailure` | defender/box/_lifecycle.py:1110-1119 | a teardown fault is raised exactly over a drive that ended well and not by its box |
| `StopAndScrub.DriveFailureStandsExactlyWhen` | defender/run.py:550-560 | a failing drive's failure leaves if and only if the stop failed or the reap was clean, and nothing foreign stands on file for the last read |
| `StopAndScrub.SummaryExactlyWhen` | defender/run.py:547-565 | when a run ends by returning, with and without a faulted teardown, and when by another failure |
| `StopAndScrub.ForeignVerdictHidesTheFailure` | defender/box/_scrub.py:165-177 | a failed stop never hides the drive's failure, if and only if what was on file is neither undecodable nor JSON without an object |
| `ModelView.ToHost` | defender/_model_view.py:91-106 | the first root's host path for an operand, none for `..` or outside |
| `ModelView.Accepts` | defender/_model_view.py:33-46 | the constructor accepts exactly views of clean, disjoint model roots, hosts of distinct places, and a working directory inside |
| `ModelView.BelowARootIsBelowItsHost` | defender/_model_view.py:101-105 | what lies below a model root names what lies as far below its host root |
| `ModelView.RelativeIsBelowTheWorkingDirectory` | defender/_model_view.py:96-105 | a relative operand names what lies as far below the working directory |
| `ModelView.DotsAndSlashesAreNothing` | defender/_model_view.py:96 | a dot component, an empty one and a slash at the end name nothing of their own |
| `ModelView.ToModel` | defender/_model_view.py:109-131 | a host path is shown under a deepest root over it as spelled, else as resolved, and is refused exactly when it is under none either way |
| `ModelView.ResolvedPathComesBack` | defender/_model_view.py:91-131 | a path found by resolving is shown as one that names what lies as far below the same root |
| `ModelView.DeepestResolvedIsUnique` | defender/_model_view.py:43-44 | the resolved roots have one deepest over a path too |
| `ModelView.WorkingDirectoryIsNamedExactlyWhenPlain` | defender/_model_view.py:45-98 | relative operands name something if and only if the working directory is spelled with one leading slash |
| `ModelView.ShownPathComesBack` | defender/_model_view.py:91-131 | what is shown names the host path it was shown for, if and only if that path has no `..` |
| `ModelView.DeepestIsUnique` | defender/_model_view.py:39-44 | an accepted view has one deepest root over a path |
| `ModelView.OperandsStayInside` | defender/_model_view.py:91-106 | whatever operand is named, its host path is under a declared root and holds no `..` |
| `ModelView.NamedPathIsShownAsNamed` | defender/_model_view.py:111-126 | a model path comes back as itself exactly when its own root is the deepest over the host path it names |
| `ModelView.NestedRootRenames` | defender/_model_view.py:111-113 | a nested host root for which it does not |
| `ModelView.ParseInvertsRender` | defender/_model_view.py:96-98 | a path reads back from its text |

## Notes on the code

- `json_nesting_depth` judges the text. `json.loads` keeps only the last of repeated names, so a decoded
  object can be shallower than its text; it is never deeper (`DecodedIsNoDeeper`), and
  `DecoderKeepsDepthExactlyWhen` says when it is as deep. A name spelled with an escaped surrogate pair and
  the same name spelled literally are one name to the decoder (`OneNameExactlyWhenSameUnits`).
- `_JSON_TOKEN` ends a string token before a backslash that precedes a line feed or the end of the text,
  because `.` does not match a line feed. No legal JSON has one; the model follows the code.
- `_sent` reads the first status of a leg that may have reported none. The resulting `IndexError` is
  caught by `handle` and answered as an unforeseen failure, so validity of the record needs no assumption
  on the order of the leg's events.
- `scrub_verified` is only as good as the verdict file's history: over a file that already says
  `ran: true`, a teardown fault whose own verdict write fails leaves a tree verified that no walk ran
  over (`StaleVerdictMisleads`).
- `tree_verified` catches a read that fails and text that is no JSON, but not bytes that are not UTF-8 nor
  JSON that is no object: over such a leftover file it raises out of the `finally` and over the drive's own
  failure (`ForeignVerdictHidesTheFailure`). A taint is raised before that read, so nothing hides it.
- `_encode` writes a value JSON has no form for as its text (`default=str`), so a TOML date and a string
  that spells it are hashed alike (`DateHashedAsItsText`); every other difference but order is told apart.
- `ModelView` accepts a working directory spelled `//runs/current`, folding the two slashes, but `to_host`
  joins a relative operand to it unfolded and then finds no root
  (`WorkingDirectoryIsNamedExactlyWhenPlain`).
- `refuse_shared` does not end on a cycle of immutable containers alone, which a read-only view of a
  mapping that holds the view makes; its theorem supposes there is none.

## Left out

- AccessTokens: the gates, the held entries and the threads are one state value stepped by actions rather
  than an object with methods, because the promise is about interleavings; the exchange's HTTP, the
  deadline's arithmetic and Python's limit on the digits of an integer are not modelled.
- Descriptors: the handle, the kernel's table and the threads are one state value stepped by actions; what
  a read returns, its size cap and its refusal wording are not modelled, nor an interrupt inside a
  statement.
- CrashSafeWrites: one folder, stepped by actions; the named `O_EXCL` fallback of `_create_at`, `fsync`
  ordering below a process kill, file modes and the holding folders' walk are not modelled.
- ModelView: a host path spelled with two leading slashes is not told from one with one, and resolving a
  root does not fail.
- MirrorTree.Disk.Mirror: the disk is one map from paths to entries, so aliasing by links is not modelled; permission
  bits and failing system calls are not either.
- BoundedCapture.Exchange: batches of readiness are flattened into one schedule; the reaping of the local client after a
  failure is not modelled.
- ProxyRecord.Proxy.Handle: everything before the system's call is one failure or none; the wording of details is
  not modelled.
- Paging: cursors are their bodies, the Base64 and JSON around them and the id grammar left to the
  codec; the list filters of the store (time window, alert id) select rows before what is modelled.
- JsonDepth: the decoder itself, and `json_safe` with its replacement rules.
- ImageStream: the digest itself and the file reads.
- ProxyReply.StreamReply: a reply that breaks off while it is read is an end of the leg in `ProxyRecord`, not of this loop.
- BoxLifecycle: box start-up probes, container removal and the run clock's contents; commands run one at a
  time.
- StopAndScrub: the report's wording and order; the verdict is marked through the run's own record handle,
  which answers undecodable bytes as no text, not through the plain read a caller without one would get.
- HTTP routes, wire models, docker argument lists, seccomp text, CLIs, the investigation agent itself and
  its evaluation harnesses.
