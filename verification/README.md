# A model of the customer-service platform's filter, hall and message code

This project models, in Dafny 4.11, the parts of the platform whose correctness is hard to see from one function,
and proves what they promise. `dafny verify dfyconfig.toml` checks all of it.

| file | what it models |
|---|---|
| `Collections.dfy` | options, sets and sequences |
| `StableSorting.dfy` | stable sorting by time, for the message store and the agent console |
| `Runes.dfy` | runes and suffixes |
| `Automaton.dfy` | the Aho-Corasick automaton of the text filter, against naive matching |
| `TextViews.dfy` | the compact view with its index, and the link view with dot words |
| `KeywordHits.dfy` | keyword hits as intervals of the original text |
| `DigitRuns.dfy` | the digit-run scanner |
| `Masking.dfy` | allow spans, merging and splicing |
| `TextFilter.dfy` | `Compile` and `Check` |
| `MessageStore.dfy` | the widget's bounded, tombstoned message store |
| `HallView.dfy` | the displayed list that mirrors the store |
| `Slots.dfy` | leased slots on a Redis sorted set |
| `Reconcile.dfy` | LiveKit permissions, turning media on and off, the bounded reconcile round |
| `HallSteps.dfy` | moderation, revocation and webhook steps |
| `HallRuns.dfy` | all of the hall's calls over whole runs: what makes a violator, and how enforcement keeps up |
| `ConversationList.dfy` | the two-stage visitor list against the direct query |
| `QueryFlight.dfy` | shared list queries |
| `TabTakeover.dfy` | which of several tabs is in the hall |
| `ChatPipeline.dfy` | hall messages from frame to broadcast |
| `RateLimits.dfy` | fixed and sliding windows |
| `ContentDisposition.dfy` | the download header, written in Go and read in JavaScript |
| `ColumnNames.dfy` | spreadsheet column names |
| `MessageStatus.dfy` | message status, identity and the merge of two copies |
| `MessageMerge.dfy` | the merge of cached, optimistic and fetched messages, each traced to its copies |

Code that changes state step by step is a class whose methods are proved against functions on values; protocols of
several parties are state machines whose runs are sequences of steps in any order.

What is outside comes in as parameters: Unicode tables, the built-in word lists and the regular expressions of the
filter (each matcher reports non-empty spans of the view it is given, under its own category, and the full stop is no
letter or digit); the text filter and the sanitiser of the chat pipeline; the answers of LiveKit, Redis and MySQL;
clocks, which do not go back.

## What the proofs found

- A merge of two copies of a message takes a server id back to a `local-*` id when the incoming copy has one, although
  the comment in `messageState.js` promises the opposite: the guard runs after the fields were overlaid. The promise
  holds for receipts (`IdNeverRegresses`); `MergeTakesIncomingId` says exactly when it fails for merges, and
  `ServerIdDisplaced` shows two copies.
- A merge can lose an identity key, in exactly one family of cases (`KeysKeptExactly`); in a merge of lists they come
  about only by resemblance (`LostByResemblance`, `InvalidIdLosesKey`), and a well-formed incoming id rules them out.
- Tab takeover needs an answering announcement to be later, by time and then tab id, than the one it answers
  (`SameMillisecondOverlaps`, `AnswerExact`). Two things make a tab active without any announcement: a click on "listen
  here" (`ClickOverlaps`), and a kick told to a tab that is idle or closed (`KickOverlaps`, `KickActivatesExactly`). With
  these three exceptions at most one tab is active (`AtMostOneTab`).
- The visitor count is the length of the visitor list exactly when every counted visitor has a visitors row
  (`CountIsLength`): the count query does not join visitors.
- A safe filename ends in white space exactly where the cut at 80 characters falls behind some (`SafeNameIsSafe`,
  `CutLeavesSpace`): the trim comes before the cut.
- A blocked visitor's permission is synchronised to the slots, not to the block, so a moderation step alone can leave a
  blocked visitor who still holds another slot a violator until the next round: exactly then (`SyncedOffendsExactly`),
  and a mute can leave such a state (`MutedYetOffending`). `BlameExact` says of every step in the
  model exactly when it makes a violator.
- In `digitRunHits` the phone-number test never decides, since eleven digits are reported anyway, and the branch for an
  empty run is never taken.

## Model

| member | source | states |
|---|---|---|
| NaiveMatching.EndingHereExact | backend/internal/textfilter/automaton.go:81-83 | the words reported at a position are exactly the words that are a suffix of the text read so far |
| NaiveMatching.EndingHereOrdered | backend/internal/textfilter/automaton.go:58-58 | at one position longer words are reported first and equal words by index, so each once |
| NaiveMatching.MatchesExact | backend/internal/textfilter/automaton.go:65-85 | the reference: word p is reported at i exactly when text[..i+1] ends with it |
| NaiveMatching.MatchesOrdered | backend/internal/textfilter/automaton.go:65-85 | all reports come by position, longest first, by index, without repetition |
| Automata.TrieExtend | backend/internal/textfilter/automaton.go:28-32 | a new child keeps the nodes a prefix tree: one node per prefix, each edge adding one rune |
| Automata.WalkStep | backend/internal/textfilter/automaton.go:72-77 | following a failure link loses no candidate and strictly lowers the depth |
| Automata.WalkEnd | backend/internal/textfilter/automaton.go:53-57 | where the walk stops, the edge taken leads to the longest suffix in the trie |
| Automata.LongestKeepsWords | backend/internal/textfilter/automaton.go:81-83 | the node of the longest suffix has the same words ending in it as the whole text |
| Automata.NextLevel | backend/internal/textfilter/automaton.go:42-45 | the queue is breadth-first: when a node is taken, all shallower nodes are linked |
| Automata.AllDone | backend/internal/textfilter/automaton.go:42-61 | when the queue is empty every node has been linked |
| Automata.LinkChild | backend/internal/textfilter/automaton.go:46-59 | linking one child keeps the finished part finished: its link is the longest proper suffix in the trie, its output every word ending there |
| Automata.Automaton.constructor | backend/internal/textfilter/automaton.go:22-63 | building yields, for any iteration order of the edges, correct failure links and complete output lists for the given words |
| Automata.Automaton.InsertWords | backend/internal/textfilter/automaton.go:24-36 | after insertion the nodes are exactly the prefixes of the words, and each lists the words it spells |
| Automata.Automaton.LinkRoot | backend/internal/textfilter/automaton.go:37-41 | the first level is linked to the root and queued |
| Automata.Automaton.LinkChildren | backend/internal/textfilter/automaton.go:45-60 | one queue step links and queues all children of a node |
| Automata.Automaton.Walk | backend/internal/textfilter/automaton.go:46-52 | the fail loop of the build ends at the node whose edge gives the longest proper suffix |
| Automata.Automaton.LinkFailures | backend/internal/textfilter/automaton.go:37-61 | every node's link is the longest proper suffix of its path in the trie and its output all words that end its path |
| Automata.Automaton.Step | backend/internal/textfilter/automaton.go:72-80 | one rune moves to the longest suffix in the trie; links followed plus new depth never exceed old depth plus one |
| Automata.Automaton.Scan | backend/internal/textfilter/automaton.go:65-85 | the scan reports exactly the naive matches, in order, and follows at most one failure link per rune over the whole text |
| TextViews.BuildCompact | backend/internal/textfilter/textfilter.go:309-316 | the compact view is the folded kept runes and its index their positions |
| TextViews.NormalizeWord | backend/internal/textfilter/textfilter.go:96-105 | a word's normal form is its compact view |
| TextViews.AlikeCompact | backend/internal/textfilter/textfilter.go:280-300 | a text with runes written full width, with an ideographic space or with another script's full stop has the compact view of the plain one |
| TextViews.PlainCompact | backend/internal/textfilter/textfilter.go:293-300 | any other rune compacts to its lower case if that is a letter or digit, and to nothing otherwise |
| TextViews.KeptIdxSound | backend/internal/textfilter/textfilter.go:310-316 | index entry k is a kept rune with exactly k kept runes before it |
| TextViews.KeptIdxComplete | backend/internal/textfilter/textfilter.go:310-316 | every kept rune is in the index at that place |
| TextViews.WindowCompact | backend/internal/textfilter/textfilter.go:168-174 | a window of the compact view is the compaction of the original interval the index maps it to, and so are the parts before and after it |
| TextViews.ReadDots | backend/internal/textfilter/textfilter.go:323-338 | rewriting dot words in place while looking at neighbours gives the simultaneous reading of the original view |
| TextViews.NeighboursKept | backend/internal/textfilter/textfilter.go:328-336 | a dot already written does not change what a later dot word sees |
| TextViews.DroppedInsertionsVanish | backend/internal/textfilter/textfilter.go:292-306 | inserting dropped runes anywhere leaves the compact view unchanged |
| KeywordHits.AddWords | backend/internal/textfilter/textfilter.go:114-123 | words join the list in normal form with length, category and ASCII flag; empty ones are left out |
| KeywordHits.HitsFor | backend/internal/textfilter/textfilter.go:168-174 | each match becomes a hit on original positions unless a pure-ASCII word touches a letter or digit |
| KeywordHits.SpanHits | backend/internal/textfilter/textfilter.go:168-174 | automaton, boundary test and index together give the keyword hits of the text |
| KeywordHits.BoundaryIffSeparate | backend/internal/textfilter/textfilter.go:369-377 | the boundary test looks at exactly the two neighbours in the compact view |
| KeywordHits.AcceptedIffOccurs | backend/internal/textfilter/textfilter.go:168-174 | a match is accepted exactly when its interval of the original text is an occurrence of its word |
| KeywordHits.OccursSpells | backend/internal/textfilter/textfilter.go:168-174 | an occurrence starts and ends on letters or digits and compacts to the word; for a pure-ASCII word the next letters or digits around it are not ASCII |
| KeywordHits.KeywordHitsExact | backend/internal/textfilter/textfilter.go:168-174 | the keyword hits are exactly the intervals that start and end on kept runes, compact to a compiled word and respect the ASCII boundary |
| KeywordHits.KeywordHitsInText | backend/internal/textfilter/textfilter.go:168-174 | hits are non-empty and lie inside the text |
| KeywordHits.NoiseKeepsKeywords | backend/internal/textfilter/textfilter.go:292-316 | inserting dropped runes anywhere leaves the sequence of matched categories and words unchanged |
| DigitRuns.BlocksDisjoint | backend/internal/textfilter/textfilter.go:530-584 | two maximal digit blocks that share a digit are the same block |
| DigitRuns.BlockOf | backend/internal/textfilter/textfilter.go:530-584 | every digit lies in a maximal block, so the blocks partition the digits |
| DigitRuns.RunFrom | backend/internal/textfilter/textfilter.go:539-560 | the inner loop finds the chain of digits at most two separators apart that nothing extends, and counts its digits |
| DigitRuns.DigitRunHits | backend/internal/textfilter/textfilter.go:530-584 | reported are exactly the maximal blocks with at least 9 digits, or 5 to 8 after a contact hint; spans are ordered, disjoint and non-empty |
| DigitRuns.LongNumberFound | backend/internal/textfilter/textfilter.go:530-584 | nine digits in a row, in any script and with up to two separators between, lie in a reported block |
| DigitRuns.DigitsExactly | backend/internal/textfilter/textfilter.go:489-517 | the characters that read as each digit |
| DigitRuns.SeparatorsExactly | backend/internal/textfilter/textfilter.go:519-525 | the characters that may stand between digits |
| Masking.UncoveredExact | backend/internal/textfilter/textfilter.go:187-211 | what stays after allow filtering is exactly the hits no allow span contains |
| Masking.UncoveredCount | backend/internal/textfilter/textfilter.go:197-210 | a kept hit is kept as often as it was found |
| Masking.DropCovered | backend/internal/textfilter/textfilter.go:197-210 | the in-place filter leaves exactly the uncovered hits, in order, at the front of the array |
| Masking.SortHits | backend/internal/textfilter/textfilter.go:216-221 | the hits are permuted into order of start, longest first |
| Masking.MergeHits | backend/internal/textfilter/textfilter.go:236-246 | merged intervals are ordered, strictly separated and have the same union as the hits |
| Masking.Splice | backend/internal/textfilter/textfilter.go:247-256 | splicing the merged intervals gives the position-by-position masking: uncovered runes in order, one ** per maximal covered run |
| Masking.MaskRun | backend/internal/textfilter/textfilter.go:250-254 | a maximal covered run becomes one ** in the reference masking |
| TextFilter.BuildLink | backend/internal/textfilter/textfilter.go:311-338 | the link view: folded runes, format characters as spaces, dot words as dots |
| TextFilter.LinkOfPlain | backend/internal/textfilter/textfilter.go:317-322 | a format character reads as a space, another plain rune as its lower case |
| TextFilter.DotWordReads | backend/internal/textfilter/textfilter.go:323-336 | the dot word between two ASCII letters reads as a full stop |
| TextFilter.CategoriesOf | backend/internal/textfilter/textfilter.go:222-230 | the result lists each category of a hit once, in the fixed order |
| TextFilter.OrderMeans | backend/internal/textfilter/textfilter.go:259-275 | that order is advertising, links, pornography, gambling, contacts, custom |
| TextFilter.CompileKeywords | backend/internal/textfilter/textfilter.go:112-139 | the keyword list is the enabled built-in lists and then the custom words, each word with the category of its list |
| TextFilter.AroundIffCovered | backend/internal/textfilter/textfilter.go:187-211 | an allow span contains a hit exactly when an allow word occurs around it |
| TextFilter.Filter.constructor | backend/internal/textfilter/textfilter.go:107-153 | compiling builds both automata from the configuration; any mode but whole is mask |
| TextFilter.Filter.FindHits | backend/internal/textfilter/textfilter.go:164-182 | the hits are exactly keyword occurrences, addresses, contact matches and digit runs of the enabled categories |
| TextFilter.Filter.DropAllowed | backend/internal/textfilter/textfilter.go:187-211 | kept are exactly the hits no allow word occurs around |
| TextFilter.Filter.Check | backend/internal/textfilter/textfilter.go:159-257 | the result reports exactly the hits that count, each as often as found, with their text, the categories in order and the exactly masked text; without such hits the text is unchanged |
| TextFilter.Filter.KeywordSpells | backend/internal/textfilter/textfilter.go:112-139 | a keyword hit of a category spells a word of the list of that category, built-in and switched on, or custom |
| TextFilter.Filter.AllowedSpells | backend/internal/textfilter/textfilter.go:187-211 | a hit is allowed exactly if an interval around it spells an allow word |
| TextFilter.Filter.OtherFormsChangeNoHit | backend/internal/textfilter/textfilter.go:280-338 | writing runes of a text in full width, with an ideographic space or another full stop, or back, changes no hit, no count and nothing allowed |
| TextFilter.Filter.LongNumberCounts | backend/internal/textfilter/textfilter.go:530-584 | with contacts on, nine digits in a row are in a hit that counts unless an allow word occurs around it |
| Messages.SortIsStable | widget/public/hall-core.js:159-164 | the batch sort orders by time, permutes, and keeps the arrival order of equal times |
| Messages.InsertByTsIsStable | widget/public/hall-core.js:159-164 | inserting at the slot found from the end is the insertion step of that stable sort |
| Messages.EvictionCommutes | widget/public/hall-core.js:186-197 | inserting and evicting the oldest gives the newest of the sorted whole: streaming refines batch |
| Messages.IndexInsert | widget/public/hall-core.js:186-189 | insertion keeps order, unique ids and the index by id |
| Messages.IndexRemove | widget/public/hall-core.js:204-217 | removal keeps order and the index and removes exactly that id |
| MessageStores.MessageStore.constructor | widget/public/hall-core.js:152-158 | an empty bounded store |
| MessageStores.MessageStore.FindIndexFor | widget/public/hall-core.js:159-164 | the search from the end finds the slot after the last message that is not newer |
| MessageStores.MessageStore.Upsert | widget/public/hall-core.js:173-203 | invalid and deleted ids are ignored; of a known id every field given gets its new value and every other keeps the old one, and it moves to its time; a new one is inserted with eviction; the result describes the change; order, uniqueness, index and bounds are kept |
| MessageStores.MessageStore.InsertNew | widget/public/hall-core.js:186-202 | the list becomes the newest limit messages of the sorted insertion |
| MessageStores.MessageStore.EvictOverLimit | widget/public/hall-core.js:190-197 | the oldest go until the limit holds |
| MessageStores.MessageStore.Remove | widget/public/hall-core.js:204-217 | the id is remembered as deleted and leaves list and index |
| MessageStores.MessageStore.Bury | widget/public/hall-core.js:206-210 | at most 500 deletions are remembered, the oldest forgotten first |
| MessageStores.MessageStore.Drop | widget/public/hall-core.js:219-225 | a dropped message leaves list and index without a tombstone |
| MessageStores.MessageStore.UpsertAll | widget/public/hall-core.js:173-203 | after inserting messages with distinct ids the list is the last min(n, limit) of the stable sort by time of all of them |
| MessageStores.MessageStore.UpsertMany | widget/public/hall-core.js:173-203 | after any messages that fit, ids repeated at will, each id is stored with exactly the fields given for it, each with its last value, at its last time |
| HallView.UpdateMoves | widget/public/hall.js:1245-1254 | removing a node and inserting it at the reported index gives the updated list |
| HallView.UpdateReplaces | widget/public/hall.js:1249-1249 | replacing in place is right when the message did not move |
| HallView.InsertScript | widget/public/hall.js:1239-1244 | dropping the evicted nodes and inserting at the reported index gives the new list |
| HallView.IgnoreScript | widget/public/hall.js:1239-1239 | a message evicted at once leaves the displayed list as it was |
| HallView.View.Ingest | widget/public/hall.js:1235-1265 | after a message comes in the displayed nodes are those of the stored messages, in order; of a known id the given fields are overwritten, a new one is stamped with the time |
| HallView.View.RemoveMessage | widget/public/hall.js:1282-1286 | a removed message leaves store and list, which still agree |
| HallView.View.DropEcho | widget/public/hall.js:1432-1440 | a failed echo leaves store and list, which still agree |
| HallView.View.DropNode | widget/public/hall.js:1277-1281 | the node of the id, if displayed, is removed |
| HallView.View.PruneMissing | widget/public/hall.js:1266-1276 | exactly the messages the server's page shows as deleted go; what it has, local echoes, later arrivals and messages beyond its reach stay |
| HallView.KeptIffStays | widget/public/hall.js:1271-1273 | the guards of the loop mean that the page has the message, it is local, seen after the request, or older than the page reaches |
| Slots.KeyExpiryTakesNoLease | backend/internal/hall/state.go:40-58 | when the key expires no lease in it is still running |
| Slots.AcquireHolds | backend/internal/hall/state.go:40-58 | granting a slot changes nobody else's holding |
| Slots.ReleaseHolds | backend/internal/hall/state.go:109-114 | a release ends exactly that holding |
| Slots.RenewHolds | backend/internal/hall/state.go:115-122 | a renewal changes nobody's holding |
| Slots.RescoredTwice | backend/internal/hall/state.go:109-122 | releases and renewals at one time add up: exactly the released holdings end, exactly the renewed leases last a term from then, all others end when they did |
| Slots.StepKeeps | backend/internal/hall/state.go:92-146 | every operation keeps the lease bookkeeping and the bound; only a grant adds a member |
| Slots.RunStaysBounded | backend/internal/hall/state.go:92-146 | under every interleaving the set never exceeds max, ended leases included, and the key's expiry never drops a running lease |
| Slots.RunLeavesLease | backend/internal/hall/state.go:92-146 | no run of operations that leaves a lease alone shortens it, not even by the expiry of the key |
| Slots.LeaseLasts | backend/internal/hall/state.go:40-58 | a lease granted or renewed is held at every time before its end, whatever other operations come in between, unless it is released or the set is cleared |
| Slots.SlotSet.AcquireSlot | backend/internal/hall/state.go:92-107 | a slot is granted or renewed, used equals the size after the call, and a refusal means max other leases are running |
| Slots.SlotSet.ReleaseSlot | backend/internal/hall/state.go:109-114 | the identity is removed; the result says whether it was there |
| Slots.SlotSet.RenewSlot | backend/internal/hall/state.go:115-122 | only a member's lease is extended |
| Slots.SlotSet.SlotMembers | backend/internal/hall/state.go:124-127 | listing returns exactly the running leases and drops the ended ones |
| Slots.SlotSet.HoldsSlot | backend/internal/hall/state.go:133-142 | holding means a running lease |
| Slots.SlotSet.ClearSlots | backend/internal/hall/state.go:144-146 | nobody holds a slot |
| Permissions.GrantIsExact | backend/internal/livekit/types.go:280-302 | a granted permission allows exactly the listed sources, even none, and no data or metadata |
| Permissions.NeverGrantsAll | backend/internal/livekit/types.go:289-302 | may-publish is never sent with an empty list, which would allow every source |
| Hall.SyncedHasNoExcess | backend/internal/hall/media.go:182-204 | after synchronisation the participant may publish exactly the given sources and has no other right |
| Hall.SyncedTracks | backend/internal/hall/media.go:182-204 | of the microphone and camera tracks exactly those not allowed are muted, and no other track changes |
| Hall.OffendsExactly | backend/internal/hall/reconcile.go:188-195 | a participant offends exactly if banned, if it may publish any named source that is not due, or if it may send data or metadata |
| Hall.Service.DesiredSources | backend/internal/hall/media.go:148-179 | the sources are those the settings, slots and mutes entitle the identity to |
| Hall.Service.SyncPermission | backend/internal/hall/media.go:182-204 | the participant's permission becomes the entitlement and tracks beyond it are muted |
| Hall.Service.SetMedia | backend/internal/hall/media.go:219-300 | a success grants exactly the entitlement with the asked-for source; every refusal has its own condition, and like every failure it leaves the room and everybody's holding as they were, a new slot rolled back; full means max other leases are running |
| Hall.Service.TurnOn | backend/internal/hall/media.go:280-299 | acquire, synchronise, and release again if the grant fails and the slot was new |
| Hall.Service.TurnOff | backend/internal/hall/media.go:265-278 | the slot is released first; the permission follows when LiveKit answers |
| Hall.Service.ReleasePhase | backend/internal/hall/reconcile.go:130-155 | releasing absent holders and the slots of a disabled kind changes nothing that is due to anybody in the room |
| Hall.Service.SettleSlots | backend/internal/hall/reconcile.go:171-189 | a blocked visitor's slots end; a lease whose source is being published unmuted is renewed for a term, every other one ends when it did |
| Hall.Service.ReconcileOne | backend/internal/hall/reconcile.go:157-206 | a participant is changed exactly if it is a violator and the budget is not spent: removed if banned, else set to what is due |
| Hall.EnforcedLeaves | backend/internal/hall/reconcile.go:156-206 | enforcing removes exactly the enforced identities from the violators |
| Hall.Service.Enforce | backend/internal/hall/reconcile.go:156-206 | one pass sets right min(violators, 40), in any listing order, and settles every listed participant's slots |
| Hall.Service.ReconcileOnce | backend/internal/hall/reconcile.go:71-209 | an undisturbed round with V violators leaves V - min(V, 40), touches nobody else and changes nobody's due; of the slots exactly those of absentees, blocked visitors and switched-off kinds end, exactly the leases in use are renewed; with the hall disabled it removes the first 40 and clears all slots |
| Hall.Service.ReconcileRounds | backend/internal/hall/reconcile.go:20-42 | n rounds leave max(0, V - 40 n) violators; once that is none, nobody banned is in the room, and with no more leases than the limits at most MaxSpeakers visitors may publish a microphone and at most MaxCameras participants a camera |
| Hall.NoViolatorsWithinDue | backend/internal/hall/reconcile.go:156-206 | without violators no banned identity is in the room and nobody has a right beyond what is due |
| Hall.NoViolatorsWithinLimits | backend/internal/hall/reconcile.go:156-206 | without violators at most MaxSpeakers visitors may publish a microphone and at most MaxCameras participants a camera |
| HallSteps.OthersStayAsTheyWere | backend/internal/hall/moderation.go:88-149 | a step aimed at one identity makes nobody else a violator and cures nobody else |
| HallSteps.SyncedOffendsExactly | backend/internal/hall/media.go:182-204 | a synchronised participant offends exactly if banned, or if a blocked visitor who is still entitled to something by a slot |
| HallSteps.BlockedHolderOffends | backend/internal/hall/media.go:148-204 | a blocked visitor with a camera slot keeps the right to publish when synchronised, and offends |
| HallSteps.MutedYetOffending | backend/internal/hall/moderation.go:88-106 | a state as muting leaves it in which the blocked visitor offends: no microphone is due, the camera slot is left |
| HallSteps.Mute | backend/internal/hall/moderation.go:88-106 | no microphone is due to the target any more, others are untouched; the permission follows when LiveKit answers, and then the target offends exactly if banned or blocked with a slot left; an agent stays muted for seven hours |
| HallSteps.CameraOff | backend/internal/hall/moderation.go:108-122 | no camera is due to the target any more, others are untouched; after synchronisation the target offends exactly if banned or blocked with a slot left |
| HallSteps.Kick | backend/internal/hall/moderation.go:124-149 | the target is banned for the whole term and without slots; whoever could not be removed is a violator for the next round |
| HallSteps.RevokeAll | backend/internal/hall/moderation.go:164-203 | the slots are cleared; exactly those in scope who held one, have a track of the source or may publish it are set to what is then due, so that nobody in scope may publish it unless it is due without a slot |
| HallSteps.SyncAll | backend/internal/hall/reconcile.go:289-348 | exactly the targets in scope are synchronised |
| HallSteps.NothingDueWithoutSlots | backend/internal/hall/media.go:148-179 | with the slots cleared no camera, no visitor's microphone and, with voice off, no microphone is due |
| HallSteps.OnTrackPublished | backend/internal/hall/webhook.go:90-121 | the permission is taken back exactly when a named source that is not due is published; nobody's entitlement changes; the slot of a switched-off kind goes with it |
| HallSteps.ProcessWebhook | backend/internal/hall/webhook.go:63-136 | no event adds a slot; a leaver holds none, a banned joiner is removed, a finished room clears everything |
| HallRuns.BlameExact | backend/internal/hall/media.go:148-300 | any step, of the service or around it, makes a violator of one who was none exactly if it is to blame: a lease in use ends, a slot or a setting it depends on goes without the right being taken back, a ban does not remove, a visitor with rights is blocked, a blocked visitor is synchronised to another slot, or one enters with too much |
| HallRuns.ViolatorsAreMade | backend/internal/hall/reconcile.go:156-206 | whoever offends after a run has done so all along or was made a violator by a step to blame and has offended ever since |
| HallRuns.BlamelessRunsAreSafe | backend/internal/hall/reconcile.go:14-19 | in a run of any steps none of which is to blame, at every moment nobody banned is in the room, at most MaxSpeakers visitors may publish a microphone and at most MaxCameras participants a camera |
| HallRuns.RoundKeepsUsed | backend/internal/hall/reconcile.go:178-187 | whoever speaks or films with a slot during a round holds it for a whole term from then |
| HallRuns.EnforcementKeepsUp | backend/internal/hall/reconcile.go:20-64 | with any steps between the rounds, as long as no more than m <= 40 violators are made between two of them, each round takes 40 - m off the backlog until a round leaves none |
| HallRuns.RequestMedia | backend/internal/hall/media.go:207-300 | a request to turn a microphone or a camera on or off is one such step |
| HallRuns.Moderate | backend/internal/hall/moderation.go:34-87 | what is allowed is done as one such step: on a participant, not oneself, on agents only by administrators, a kick of 1 to 1440 minutes; what is refused changes nothing; a kick bans for the minutes given, 30 if none |
| HallRuns.PerformRevoke | backend/internal/hall/reconcile.go:289-348 | taking a source from everybody is one such step |
| HallRuns.HandleWebhook | backend/internal/hall/webhook.go:63-136 | processing an event is one such step |
| HallRuns.Tick | backend/internal/hall/reconcile.go:20-64 | a tick of the reconcile loop is one such step |
| ConversationList.Best | backend/internal/store/conversation_list.go:112-115 | the row ranked first: open first, then latest update, latest start, greatest id |
| ConversationList.LastActiveIsRepresentatives | backend/internal/store/conversation_list.go:62-74 | COALESCE(MAX of open updated_at, MAX updated_at) is the representative's updated_at |
| ConversationList.OrderedUnique | backend/internal/store/conversation_list.go:86-86 | the sort keys have one order |
| ConversationList.SortedKeys | backend/internal/store/conversation_list.go:78-88 | stage 1 sorts the visitors as the direct query sorts their representatives |
| ConversationList.FetchedIsListed | backend/internal/store/conversation_list.go:106-122 | the representative fetched for a listed visitor is the listed conversation, with the same row |
| ConversationList.AssembleVisitorRows | backend/internal/store/conversation_list.go:313-355 | rows come in page order with tags, preview and the unread correction; visitors without a representative are skipped |
| ConversationList.TwoStageIsDirect | backend/internal/store/conversation_list.go:169-207 | for every snapshot, query, limit and offset the two-stage list is the direct query's page |
| ConversationList.RowsInOrder | backend/internal/store/conversation_list.go:78-88 | pinned visitors come first, the latest pin first; then the latest update; then the greatest visitor id |
| ConversationList.RowTells | backend/internal/store/conversation_list.go:106-122 | a row shows an open conversation of its visitor if there is one, among those the last updated, last started, with the greatest id; and the visitor's tags, pin, contact, unread and preview |
| ConversationList.ListedIffToShow | backend/internal/store/conversation_list.go:56-88 | listed are exactly the visitors with a conversation, known, not blocked, with the tag and, if asked for, contacted |
| ConversationList.ListIsDirectPage | backend/internal/store/conversation_list.go:48-56 | the same for whatever limit and offset are given, with at most 200 rows |
| ConversationList.DirectListExists | backend/internal/store/conversation_list.go:10-33 | the direct query has a result for every snapshot |
| ConversationList.DirectListUnique | backend/internal/store/conversation_list.go:29-31 | with the tie-breaking keys it has only one |
| ConversationList.OnExactlyOnePage | backend/internal/store/conversation_list.go:29-31 | every listed visitor is on exactly one page |
| ConversationList.CountIsLength | backend/internal/store/conversation_list.go:92-103 | the count is the list's length exactly when every counted visitor has a visitors row, and never smaller |
| QueryFlights.StepKeepsInv | backend/internal/store/list_flight.go:30-64 | every step of every caller keeps the flight bookkeeping |
| QueryFlights.OneQueryPerKey | backend/internal/store/list_flight.go:30-64 | at most one query runs for a key |
| QueryFlights.RegisteredWhileLed | backend/internal/store/list_flight.go:43-61 | a key is registered exactly between its leader's registration and removal |
| QueryFlights.ClosedOnceAfterResult | backend/internal/store/list_flight.go:59-62 | done is closed once and only after the result stands |
| QueryFlights.NoStuckCaller | backend/internal/store/list_flight.go:35-41 | a waiting caller can wake up or its leader has a step that brings closing nearer |
| QueryFlights.RunGrows | backend/internal/store/list_flight.go:30-64 | a written result never changes and nobody changes flights |
| QueryFlights.CallerGetsItsFlight | backend/internal/store/list_flight.go:30-64 | a caller that is not cancelled returns the result of the flight that was registered for its key when it entered |
| QueryFlights.OneQueryPerFlight | backend/internal/store/list_flight.go:48-56 | a run executes exactly one query per answered flight |
| QueryFlights.QueryFlight.EnterSection | backend/internal/store/list_flight.go:31-46 | the first locked section joins the registered flight or registers one |
| QueryFlights.QueryFlight.RunSection | backend/internal/store/list_flight.go:48-56 | the query's value, error or recovered panic becomes the flight's result |
| QueryFlights.QueryFlight.RemoveSection | backend/internal/store/list_flight.go:59-61 | the second locked section removes the key |
| QueryFlights.QueryFlight.CloseSection | backend/internal/store/list_flight.go:62-63 | done is closed and the leader returns the result |
| QueryFlights.QueryFlight.WakeSection | backend/internal/store/list_flight.go:37-38 | a woken caller returns the flight's result |
| QueryFlights.QueryFlight.Do | backend/internal/store/list_flight.go:30-64 | alone, a caller gets its own query's rows, its error, or an error made of its panic, and leaves nothing registered |
| QueryFlights.DecimalInjective | backend/internal/store/list_flight.go:66-68 | decimal numerals determine the number |
| QueryFlights.FlightKeyInjective | backend/internal/store/list_flight.go:66-68 | requests that differ never share a key |
| TabTakeover.StepKeepsInv | widget/public/hall.js:634-651 | every step, told kicks included, keeps: an announcement is under way to a tab, or the tab knows of it and is not in the hall by an earlier one; a tab is active exactly if it came by an announcement, a click or a kick |
| TabTakeover.OneSettledTab | widget/public/hall.js:641-643 | with nothing under way two tabs cannot both be in the hall by their own announcement |
| TabTakeover.AtMostOneTab | widget/public/hall.js:634-651 | after any run in which an announcement is later, by time and then id, than those its tab has received: with nothing under way, of any two active tabs one came there by a click or by being told of a kick |
| TabTakeover.KickActivatesExactly | widget/public/hall.js:1195-1203 | being told of a kick makes a tab active exactly if it was idle or closed, and announces nothing |
| TabTakeover.EntryExactly | widget/public/hall.js:411-420 | only a click on a tab that gave way, a kick told to a tab that is idle, closed or waiting after a click, and a join make a tab active in each of the three ways |
| TabTakeover.GreatestStays | widget/public/hall.js:642-643 | the tab with the greatest (time, id) announcement is never made to leave, whatever other tabs do short of a greater announcement |
| TabTakeover.GreatestRemains | widget/public/hall.js:634-651 | once everything is delivered it is the only tab in the hall by its own announcement |
| TabTakeover.SameMillisecondOverlaps | widget/public/hall.js:642-642 | from the start, answering within the same millisecond from a smaller id leaves two tabs in the hall with nothing under way |
| TabTakeover.AnswerExact | widget/public/hall.js:641-643 | among any number of tabs and in any order of delivery: if one tab answers the announcement of another, both end in the hall exactly when the answer is not the later one |
| TabTakeover.ClickOverlaps | widget/public/hall.js:1628-1632 | from the start, with strict announcements, a click on listen here in a tab that gave way leaves two tabs active until its join |
| TabTakeover.KickOverlaps | widget/public/hall.js:1195-1203 | from the start, with strict announcements and no click, a kick leaves two tabs active: the one in the hall and one that has yet to join |
| TabTakeover.Page.Leave | widget/public/hall.js:624-631 | leaving voids the join under way and cancels the scheduled one; a join whose timer has fired still runs |
| TabTakeover.Page.OnTimer | widget/public/hall.js:346-352 | a fired timer hands the join over to the idle callback, that of a ban only if the page still shows the kick |
| TabTakeover.Page.OnIdle | widget/public/hall.js:342-345 | the idle callback runs the join: announced exactly if its guard passes, whatever phase the page has reached by then |
| TabTakeover.Page.OnMessage | widget/public/hall.js:638-644 | a tab leaves exactly when it is active and its own announcement is not later |
| TabTakeover.Page.OnKick | widget/public/hall.js:499-504 | every page but one that gave way shows the kick, its join is void, and a new one waits for the end of the ban |
| TabTakeover.Page.StartJoin | widget/public/hall.js:411-420 | a join that passes its guard announces the tab and becomes active |
| ChatPipeline.StepKeepsInv | backend/internal/hall/messages.go:302-439 | every step of every frame keeps the order of storing, acking and publishing |
| ChatPipeline.RunKeeps | backend/internal/store/hall.go:56-79 | rows are never lost and of a stored row only the deletion time changes |
| ChatPipeline.AckFollowsRow | backend/internal/hall/messages.go:405-421 | every ack follows the storing of its row, and a masked text in it is the stored text |
| ChatPipeline.CastOnceAfterRow | backend/internal/hall/messages.go:422-439 | each id is broadcast at most once, after being stored, with the id, text, time, media and sender of its row, and never if it was stored silenced |
| ChatPipeline.DrainedMeansSent | backend/internal/hall/messages.go:422-439 | when nothing is left to send every stored message was broadcast, or echoed to its sender if silenced, as its row says |
| ChatPipeline.ConflictChangesNothing | backend/internal/store/hall.go:72-78 | whatever follows, a conflicting reuse of an id leaves everything stored and sent as if its frame had never come, but for one refusal to that connection |
| ChatPipeline.RunIgnoresLog | backend/internal/hall/messages.go:302-439 | what a run stores and sends does not depend on what was sent before |
| ChatPipeline.RetryIsNoConflict | backend/internal/store/hall.go:56-79 | once stored, the same frame from the same sender is never taken for a conflict |
| ChatPipeline.PreparedSound | backend/internal/hall/messages.go:302-404 | a frame passes the checks exactly if none objects; its row never holds a visitor's text the filter objects to, nor media that were not found, is never empty, and is silenced exactly for a blocked visitor |
| ChatPipeline.FrameAnswered | backend/internal/hall/messages.go:405-439 | a frame is acked exactly if its message is stored afterwards, refused exactly if not acked, and broadcast exactly if new and not silenced |
| ChatPipeline.HallChat.InsertHallMessage | backend/internal/store/hall.go:56-79 | a new id is stored, the same message again is a repetition, anything else a conflict |
| ChatPipeline.HallChat.SoftDeleteHallMessage | backend/internal/store/hall.go:144-162 | only a row of that room that is not deleted yet gets a deletion time; found and changed say so |
| ChatPipeline.HallChat.ProcessChat | backend/internal/hall/messages.go:302-439 | handling a frame is its receive, ack and publish steps one after the other |
| Spans.SpacedBound | widget/public/hall-core.js:525-530 | grants of which any limit + 1 span a window are at most limit in any half-open window |
| SlidingWindows.PrunedIsRest | widget/public/hall-core.js:522-524 | pruning forgets exactly the hits as old as the window |
| SlidingWindows.RecentIsPruned | admin/src/modules/hallMessages.js:255-263 | while the clock does not go back both clients forget the same hits |
| SlidingWindows.TakeKeeps | widget/public/hall-core.js:525-530 | a grant below the limit keeps any limit + 1 grants a window apart |
| SlidingWindows.SlidingWindow.TryTake | widget/public/hall-core.js:525-530 | a take succeeds exactly below the limit, and a refusal means limit grants within the window ending now |
| SlidingWindows.SlidingWindow.RetryInMs | widget/public/hall-core.js:531-535 | the wait is exact: without other takes a take succeeds from then on and never before |
| SlidingWindows.SlidingWindowLimiter.TryAcquire | admin/src/modules/hallMessages.js:255-263 | the same for the agent console's limiter |
| SlidingWindows.WindowBound | widget/public/hall-core.js:517-530 | at most limit grants in any half-open window |
| FixedWindows.PerLife | backend/internal/security/ratelimit.go:214-237 | at most limit grants in one life of the counter |
| FixedWindows.PerSpan | backend/internal/security/ratelimit.go:214-237 | at most twice the limit in any half-open span of one window |
| FixedWindows.RefusalJustified | backend/internal/security/ratelimit.go:224-237 | a refusal comes after exactly limit grants in the same life |
| FixedWindows.TwoLives | backend/internal/security/ratelimit.go:208-212 | a span of one window meets at most two lives |
| FixedWindows.ScriptKeeps | backend/internal/security/ratelimit.go:214-222 | one run of the script keeps every life a window long or longer and counts the requests of the current one |
| FixedWindows.RateLimiter.FixedWindowScript | backend/internal/security/ratelimit.go:214-222 | the counter after expiry, increment and repair of a lost expiry |
| FixedWindows.RateLimiter.Persist | backend/internal/security/ratelimit.go:210-210 | a key that lost its expiry keeps counting |
| FixedWindows.RateLimiter.Allow | backend/internal/security/ratelimit.go:226-237 | one more request is recorded, granted as returned |
| PercentCoding.Utf8RoundTrip | backend/internal/export/export.go:167-169 | UTF-8 decoding undoes encoding for every scalar value |
| PercentCoding.DecodeUndoesEscape | admin/src/modules/download.js:44-50 | decodeURIComponent undoes url.PathEscape on every string |
| PercentCoding.PathEscapeChars | backend/internal/export/export.go:167-169 | an escaped name holds only safe ASCII characters, at most twelve per character |
| ContentDisposition.SafeNameIsSafe | backend/internal/export/export.go:144-164 | a safe name has no control or reserved character and no leading white space; it ends in white space exactly if the trimmed name is longer than 80 characters and its 80th is white space |
| ContentDisposition.CutLeavesSpace | backend/internal/export/export.go:144-164 | such names exist: 79 harmless characters, a space and one more |
| ContentDisposition.EmptyName | backend/internal/export/export.go:157-163 | a name of which only white space is left becomes export |
| ContentDisposition.SafeNameKeepsSafe | backend/internal/export/export.go:144-164 | exactly the names of 1 to 80 characters without such characters and without white space at the ends are left as they are |
| ContentDisposition.SplitParts | admin/src/modules/download.js:22-33 | the loop splits at semicolons outside quotes |
| ContentDisposition.ParseParams | admin/src/modules/download.js:21-42 | the first value of a parameter name wins |
| ContentDisposition.SplitHeader | admin/src/modules/download.js:22-33 | the written header splits into its three parts, whatever the quoted fallback and the escaped name contain |
| ContentDisposition.ReadHeader | admin/src/modules/download.js:34-42 | its parameters are the quoted fallback and the extended name |
| ContentDisposition.ReadExt | admin/src/modules/download.js:44-58 | the extended value is read as UTF-8 percent coding |
| ContentDisposition.HeaderRoundTrip | admin/src/modules/download.js:61-70 | for every filename and every fallback without quotes and backslashes the reader returns SafeFilename of it exactly up to the 4096-character cap, and nothing beyond |
| ContentDisposition.ShortEnough | backend/internal/export/export.go:167-169 | fallbacks of up to 3000 characters stay within the cap |
| ColumnNames.ColumnName | backend/internal/export/export.go:44-51 | the loop computes the bijective base-26 name |
| ColumnNames.IndexOfName | backend/internal/export/export.go:44-51 | different columns have different names |
| ColumnNames.NameOfIndex | backend/internal/export/export.go:44-51 | every word over A to Z names a column |
| StableSorting.SortedIsStable | admin/src/modules/messageState.js:226-226 | the sort orders by time, permutes, and keeps the order of equal times |
| MessageStatus.EndsAtGreatest | admin/src/modules/messageState.js:93-113 | whatever the order of events the message ends at the greatest confirmation seen and is pending only without one |
| MessageStatus.Confluent | admin/src/modules/messageState.js:93-113 | two orders of the same events with a confirmation among them end alike |
| MessageStatus.EndsExactly | admin/src/modules/messageState.js:93-113 | a message ends as read if ever read, else delivered if ever delivered, else persisted if ever confirmed, whatever the order |
| MessageStatus.ManyKeysKept | admin/src/modules/messageState.js:63-80 | identity keys of both sides are kept whenever there is more than one |
| MessageStatus.IdNeverRegresses | admin/src/modules/messageState.js:70-73 | a receipt never replaces a server id by a local one |
| MessageStatus.MergeTakesIncomingId | admin/src/modules/messageState.js:148-160 | a merge of copies takes a server id back to a local one exactly when the incoming copy has a local id, well formed or not |
| MessageMerge.ServerIdDisplaced | admin/src/modules/messageState.js:184-194 | such copies exist: two confirmed ones with a common key, merged into one with the local id |
| MessageStatus.KeysKeptExactly | admin/src/modules/messageState.js:148-160 | a merge keeps every identity key, except exactly when the incoming copy has none, the current one has one, and the incoming fields overwrite it |
| MessageStatus.SharedKeyIsKept | admin/src/modules/messageState.js:53-57 | copies that share a key, and those whose incoming id is well formed, lose none |
| MessageStatus.MergeSameStandsFor | admin/src/modules/messageState.js:148-160 | a merge of any two copies has the higher status, a recall from either side with the content cleared, and all keys of the incoming copy; it keeps the current one's keys but in exactly that family |
| MessageStatus.MergedStatusExactly | admin/src/modules/messageState.js:148-160 | the status of a merge is the furthest of the two, of two unconfirmed ones sending before failed |
| MessageMerge.InvalidIdLosesKey | admin/src/modules/messageState.js:201-222 | such messages exist: a pending one with nothing but a local id, consumed by the same one fetched with an id that is not well formed |
| MessageMerge.LostByResemblance | admin/src/modules/messageState.js:201-222 | a list merge loses a key only where a fetched agent message without a key consumes a pending one that resembles it |
| MessageStatus.ApplyMessageReceipt | admin/src/modules/messageState.js:164-176 | the first message of the conversation with a common key, and no other, takes the receipt's keys and the given status, else the receipt's own, else the one in its extra part |
| MessageMerge.FindMatch | admin/src/modules/messageState.js:201-219 | a fetched message consumes the first pending one with a common key, else for an agent the resembling one nearest in time |
| MessageMerge.UpsertExactly | admin/src/modules/messageState.js:184-188 | a message joins the first one it shares a key with, or is added at the end |
| MessageMerge.NormalizedAnswers | admin/src/modules/messageState.js:196-200 | normalising a fetched message keeps its keys and status and clears a recalled one |
| MessageMerge.ConfirmedOf | admin/src/modules/messageState.js:184-194 | every confirmed message with an id goes into exactly one message, which keeps its keys, status and recall, and whose fields are those of the last copy that has them |
| MessageMerge.UpsertTraced | admin/src/modules/messageState.js:184-188 | merging a message in extends the history of the one it joins and no other |
| MessageMerge.TakeFetched | admin/src/modules/messageState.js:196-224 | one fetched message consumes at most one pending message and joins the confirmed |
| MessageMerge.TakeAllFetched | admin/src/modules/messageState.js:196-224 | pending messages are accounted for, each consumed one by a fetched message of its own; every fetched message with an id goes into exactly one message, which keeps its keys, status and recall, and whose fields are those of the last copy that has them |
| MessageMerge.MergeMessageLists | admin/src/modules/messageState.js:178-227 | one call: every pending message survives or is consumed; every other copy is in the history of exactly one message, in order, whose fields are those of the last copy that has them unless one was recalled, and which keeps keys, statuses and recalls, but that a lone key may go with a fetched message that has none; the output is stably sorted by time |
| MessageMerge.ShowsLastCopy | admin/src/modules/messageState.js:148-160 | a message that is not recalled shows the content, media and time of the last of its copies that has them |
| MessageMerge.AloneComesOut | admin/src/modules/messageState.js:196-224 | a fetched message that shares no key with another copy and consumed none comes out with all its fields, its status made explicit |

## Left out

- Node indices of the automaton are unbounded; the source stores them in 32 bits.
- Absent filters and automata (nil receivers), and the filter's allowed domains, which belong to the address matcher.
- The regular expressions, host parsing, Unicode tables and word lists of the filter: parameters, as said above.
- The order of hits with equal start and end, which the source's sort leaves open, and a second masking of masked text, which can find new hits.
- Invalid UTF-8 and UTF-16: strings are sequences of Unicode scalar values, and lengths count them. `Lower` changes ASCII letters only.
- Failures of Redis, MySQL and LiveKit in a reconcile round and in taking a source from everybody; those properties are about calls that succeed. LiveKit's own removal of tracks that lost their permission.
- Different clocks of several backend nodes: slots run on one clock. A Redis key counts as gone at its expiry time.
- Expiry of participant records after seven hours, so who is blocked changes only when a visitor is blocked or unblocked.
- ReconcileOnce: of the statistics of an enabled round, which are only logged, it states how many participants were set right, not how many slots were released or renewed.
- The identity lock, request limits, and joining the hall (token, history, participant limit).
- Background use of the revocation steps, regrantAgentMics, removeAll and OnVisitorBlocked, which are further synchronisations and clears of the same kind.
- Pending-message timers, scrolling, node contents and batching in the displayed list.
- MySQL collation, index hints and the text of message previews: ids are modelled by their place in their column's order, previews by their text.
- Shallow copies of shared rows, and contexts and timeouts of shared queries beyond cancellation of a waiting caller.
- Audio, video and LiveKit events in the tab model: a tab moves among its active phases at will. Every announcement
  reaches every other open tab in the end: pages without `BroadcastChannel` and pages held in the back/forward cache are left out.
- Purging old hall messages, the history pages of ListHallMessages, the agent console's merge of hall messages, and filter events sent to administrators.
- Messages of the agent console are values: two lists that share one message object are not modelled. Alias lists are sets.
- Local parts of filename sanitising in `download.js` after the header is read, and XML and ZIP output of the export.
- ListIsDirectPage: the previews, tags and visitor details are whatever the snapshot holds; their own queries are not modelled.
