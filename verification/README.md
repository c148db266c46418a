# shadNet server model

A Dafny model of the stateful and parsing parts of the shadNet server, with proofs about them. Each
command, handler or broker call is one step under its lock; clock readings are arguments, hash tables are
finite maps that yield their entries in any order, and fresh ids are numbers not used before.

What is modelled, and what is proved about it:

- **Leaderboard** (`ScoreBoard.dfy`, `ScoreHistory.dfy`): the score table with its conditional upsert, and the bounded sorted cache
  with its inverse index. The cache stays an exact answer of the ORDER BY ... LIMIT query over a run if and
  only if no step displaces a cached row behind an uncached one. Equal scores sent again and forced updates
  can do that; one such board is given. Over every run the table is the best, or in force mode the last, of the
  submissions made, and every answer follows from them.
- **Summon broker** (`SummonBroker.dfy`, `SummonAnswers.dfy`): five record states, two modes, times to live, retries and cross-map
  preparation. Claims are exclusive until released, in seamless mode they outlive every removal that is not forced,
  and a delivered claim is byte for byte the last one accepted. Which signs a search lists, and what each call
  answers, is given exactly in terms of the request's fields.
- **JSON members** (`JsonMembers.dfy`, `JsonText.dfy`): the byte scanner for top-level members (JSON text as in
  RFC 8259, sections 4 to 7) is idempotent on every byte string and complete on every printed object; the two
  rewrites that print scanned members keep the others byte for byte, and what they print scans back.
- **Rooms** (`SlotMasks.dfy`, `Rooms.dfy`, `Matching.dfy`, `RoomAnswers.dfy`): slot allocation, slot masks, derived
  counters, flags, ownership, and the world and lobby indices, over every run; exactly who gets in, and that a room
  fills up.
- **Sessions** (`Sessions.dfy`, `SessionAnswers.dfy`, `Multipart.dfy`, `MultipartLineFeeds.dfy`): the session store over
  every run, ownership over a session's life against the history of who entered when, limits and locks, and the
  multipart/mixed splitter (RFC 2046, section 5.1.1) with both kinds of line breaks.
- **Packets** (`Wire.dfy`, `Framing.dfy`): words, blobs, the cursor, packet building, and both incremental splitters
  against the whole stream.
- **Friends** (`Friends.dfy`): the relation table and the online users' friend lists; each row, who is online and every
  answer against the history of calls.
- **Usage** (`Usage.dfy`): the per-game user histogram.

Objects that the server changes in place are classes here. Each method is proved against a function on values
(`View()` or `State()` of the object before and after), and the properties are proved about those functions:
for one step and, by induction, for every run.

Where code and comments disagree the model follows the code. Four properties that a reader might expect hold only
under a condition, and the model says exactly which:

- The cache against the table: as long as nothing is displaced (`ScoreBoard.RunStaysExactIffSafe`).
- The slot counters: for rooms of at most 64 slots (`Rooms.CountersConserve`).
- The cuts between the client's reads: they do not matter unless a size below the header's clears its buffer
  (`Framing.ClientCutMatters`).
- The multipart round trip: for header values without white space at their ends (`Multipart.PartsRoundTrip`).

What a search prints always reads back for the advertisements that the server admits: the route
(`src/webapi_routes_bloodborne.cpp:118-123`) parses the body as a JSON object before it is advertised, and
`JsonText.PrintedAdvertisementReadsBack` covers every print of every such object. `JsonText.SearchReadsBackIff` is the
exact condition for arbitrary bytes.

## Model

| member | source | states |
|---|---|---|
| ScoreBoard.RunStaysExactIffSafe | src/cmd_score.cpp:47-121 | over every run of submissions and data uploads, the cache is an exact answer of the ORDER BY ... LIMIT query after every step if and only if no step moved a cached row behind a row outside the cache |
| ScoreBoard.StepKeepsCacheExact | src/cmd_score.cpp:47-121 | one submission or data upload keeps the cache an exact answer, data ids included, exactly when it does not displace |
| ScoreBoard.UpsertKeepsTop | src/score_cache.cpp:58-102 | remove, binary insertion and trim give the first rows of the updated table exactly when the new row does not take a cached row behind an uncached one |
| ScoreBoard.ImprovingRunStaysExact | src/score_db.cpp:82-90 | in normal update mode a run whose accepted overwrites all change the score keeps the cache exact throughout |
| ScoreBoard.NormalModeDisplacesOnTiesOnly | src/score_db.cpp:82-90 | in normal update mode only an equal score sent again later can displace a cached row |
| ScoreBoard.SafeReplacements | src/score_cache.cpp:58-102 | a replacement that ranks no worse than the row it replaces, a slot not cached before, and a table within the limit never displace |
| ScoreBoard.EqualScoreResubmissionBreaksCache | src/score_db.cpp:89-90 | a concrete board of one rank on which the same score sent again leaves the cache showing a player who is no longer first |
| ScoreBoard.ReportedRankIsTrue | src/score_cache.cpp:76-101 | the rank reported for a submission is its rank in the whole table, cut at one past the limit, exactly when nothing is displaced |
| ScoreBoard.RankCountsBetterCached | src/score_cache.cpp:76-101 | the reported rank is one more than the number of remaining cached rows that rank before the new one; the new row is absent exactly when those fill the board; a player already on the board stays on it |
| ScoreBoard.NewRowPlaced | src/score_cache.cpp:82-101 | a rank within the limit is the place where the new row stands; past the limit the list is the old one without the slot |
| ScoreBoard.InsertShape | src/score_cache.cpp:64-99 | whatever the table, the list stays sorted, with distinct slots, and no longer than the limit |
| ScoreBoard.TopRowsUnique | src/score_db.cpp:138-147 | without ties in all ORDER BY columns the query has one answer, so the cached list is determined by the table |
| ScoreBoard.SmallerLimitIsPrefix | src/score_db.cpp:140-147 | LIMIT takes the front of what ORDER BY gives under a larger limit |
| ScoreBoard.RanksBeforeIsOrderBy | src/score_cache.cpp:9-15 | the comparison of the cache is the lexicographic order of the ORDER BY columns of the query |
| ScoreBoard.NormalModeKeepsTheBest | src/score_db.cpp:89-90 | the conditional upsert refuses a submission exactly when, at equal times, the stored row would rank before it |
| ScoreBoard.DataKeepsTop | src/score_cache.cpp:197-208 | storing a data id changes the same row in the table and in the cache, so the answer stays exact |
| ScoreBoard.IndexedIsBijection | src/score_cache.cpp:17-20 | the index is coherent exactly when lookup[u][c] = i holds just for those i where sorted[i] is the row of (u, c) |
| ScoreBoard.ScoresForBoard | src/score_db.cpp:135-165 | the query yields distinct rows of the table, best first, as many as the limit allows, with no better row left out |
| ScoreBoard.LowerBound | src/score_cache.cpp:76-80 | halving finds the first place whose row does not rank before the new one |
| ScoreBoard.ScoreTableCache.Reindex | src/score_cache.cpp:17-20 | the index entries of all rows from a place on are rewritten and no others |
| ScoreBoard.ScoreTableCache.LoadTable | src/score_cache.cpp:46-56 | the list is the given one and the index its inverse |
| ScoreBoard.ScoreTableCache.RemoveExisting | src/score_cache.cpp:66-73 | the slot is gone from list and index, which stay inverse to each other |
| ScoreBoard.ScoreTableCache.PlaceAt | src/score_cache.cpp:88-94 | the row stands at the place found, and list and index stay inverse to each other after reindexing from the lower of the two places touched |
| ScoreBoard.ScoreTableCache.TrimLast | src/score_cache.cpp:96-99 | the last row goes, in the list and in the index |
| ScoreBoard.ScoreTableCache.InsertAbsent | src/score_cache.cpp:75-101 | placing a row whose slot is free: sorted list, inverse index, the last row dropped past the limit, and the rank of the place |
| ScoreBoard.ScoreTableCache.InsertScore | src/score_cache.cpp:58-102 | remove, binary search, insert, reindex and trim together compute the list and rank that UpsertKeepsTop and ReportedRankIsTrue speak of, and keep list and index inverse to each other |
| ScoreBoard.ScoreTableCache.ContainsScoreWithNoData | src/score_cache.cpp:180-195 | not found, another score, data already there, or no error |
| ScoreBoard.ScoreTableCache.SetGameData | src/score_cache.cpp:197-208 | the data id of the slot's row is set, all else and the index unchanged; an error exactly when the slot is not cached |
| ScoreBoard.ScoreTableCache.GetScoreRange | src/score_cache.cpp:128-152 | the rows of that range of ranks, each with its rank, as far as the list goes |
| ScoreBoard.ScoreTableCache.GetScoreByIds | src/score_cache.cpp:154-177 | for each requested slot, in order, its row and rank, or a blank exactly when it is not cached |
| ScoreBoard.ScoreService.constructor | src/score_cache.cpp:46-56 | at start-up the cache holds an exact answer of the query |
| ScoreBoard.ScoreService.RecordScore | src/cmd_score.cpp:47-79 | table statement and cache insertion together are one step of the board; a refused submission changes neither |
| ScoreBoard.ScoreService.RecordScoreData | src/cmd_score.cpp:85-121 | both data ids change together or neither does |
| ScoreHistory.TableIsSubmissions | src/score_db.cpp:76-111 | over every run from an empty board: a slot has a row exactly when something was submitted for it; the row is, with comment and game info, the last of those submissions whose score is best in normal mode, the last of all in force mode, and carries the file stored for it since |
| ScoreHistory.ScoreAnswers | src/cmd_score.cpp:69-79 | after every run a submission is refused as not the best exactly in normal mode when an earlier one for the slot is strictly better, and is given a rank otherwise |
| ScoreHistory.DataAnswers | src/cmd_score.cpp:100-121 | after every run a data upload is told: not found exactly when the slot is not cached; else invalid for another score than the chosen submission's; else refused exactly when a file was stored since; else stored, or a failure without a file |
| ScoreHistory.ChosenIsOne | src/score_db.cpp:82-90 | at most one submission is the chosen one |
| ScoreHistory.RunAgrees | src/score_cache.cpp:58-102 | over every run, displaced or not: every cached row is the table's row of its slot, and the cache is sorted, with distinct slots, within the limit |
| ScoreHistory.RowAfter | src/score_db.cpp:82-111 | what one step does to the row of one slot, and when it is refused |
| SummonBroker.ClaimIsExclusive | src/bloodborne_summon_broker.cpp:458-569 | over every run, from a claim until the record is consumed or expires, the record stays claimed by the same user, and outside seamless mode by the very same claim |
| SummonBroker.HeldUntilReleased | src/bloodborne_summon_broker.cpp:364-569 | one call: a claimed record stays claimed exactly when the call neither finds it expired nor removes it |
| SummonBroker.CompetingClaimRefused | src/bloodborne_summon_broker.cpp:498-517 | over every run from a claim until its release: a claim by another user is a conflict and changes nothing but the purge |
| SummonBroker.OnlyClaimantAccepted | src/bloodborne_summon_broker.cpp:498-517 | over every run from a claim until its release: the only claims accepted on the record are the claiming user's own, in seamless mode |
| SummonBroker.PendingClaimIsLastAccepted | src/bloodborne_summon_broker.cpp:400-402 | over every run from an empty broker, a pending claim handed to an advertiser is byte for byte the last claim accepted on its record |
| SummonBroker.CallKeepsInv | src/bloodborne_summon_broker.cpp:364-605 | every call keeps each record under the key of its own advertisement, open records without a claim, preparing ones in seamless mode with a placement on another map, and leaves no record older than its state allows |
| SummonBroker.RunKeepsInv | src/bloodborne_summon_broker.cpp:364-605 | the same over every run |
| SummonBroker.OnlyTheseMoves | src/bloodborne_summon_broker.cpp:364-569 | the moves between the five states that a call can make |
| SummonBroker.PreparationEnds | src/bloodborne_summon_broker.cpp:384-392 | a preparing record opens again exactly when its owner advertises from the map it was sent to |
| SummonBroker.ClaimDelivers | src/bloodborne_summon_broker.cpp:393-402 | a claim is delivered exactly when its owner advertises, in seamless mode only where the placement names no map or the one advertised from |
| SummonBroker.ListedIsOpenOrOwn | src/bloodborne_summon_broker.cpp:418-441 | a search lists open records and, in seamless mode, those its own user has claimed, never one in preparation |
| SummonBroker.RemovalKeepsActive | src/bloodborne_summon_broker.cpp:556-565 | of all calls just a removal that names an unexpired record ends it, in seamless mode and while the record is active only a forced one; a record that is kept is renewed |
| SummonBroker.ClaimOutlivesRemovals | src/bloodborne_summon_broker.cpp:535-568 | in seamless mode, over every run: a claim outlives every removal that is not forced, held by the same user |
| SummonBroker.RemovalCounts | src/bloodborne_summon_broker.cpp:535-568 | consumed and retained together are the live records the request names |
| SummonBroker.KeyInjective | src/bloodborne_summon_broker.cpp:34-41 | two advertisements share a record only if session and user agree, even where session ids hold colons |
| SummonBroker.PlacementNamesMap | src/bloodborne_summon_broker.cpp:58-74 | a placement names a map exactly when it is "1,", a field without commas, a comma and anything, and the field is the hexadecimal of that map, positive and of 32 bits |
| SummonBroker.ShownIsAdvertisement | src/bloodborne_summon_broker.cpp:295-348 | a host is shown the members of a JSON advertisement in order, each with the text it was sent in, but for the payload and the spoofed location fields |
| SummonBroker.Broker.constructor | src/bloodborne_summon_broker.cpp:358-362 | the settings are clamped: a positive time to live, a seamless one no shorter, and seamless play implying summons anywhere |
| SummonBroker.Broker.PurgeExpired | src/bloodborne_summon_broker.cpp:595-605 | exactly the records past the time their state allows are gone |
| SummonBroker.Broker.Advertise | src/bloodborne_summon_broker.cpp:364-404 | the records move by one step of the broker; the answer is that of the record under the advertisement's key |
| SummonBroker.Broker.Search | src/bloodborne_summon_broker.cpp:406-456 | the records move by one step of the broker; the results are the listed records, newest first, as many as asked for, as shown to the host |
| SummonBroker.Broker.FirstShown | src/bloodborne_summon_broker.cpp:448-455 | the first candidates up to the count asked for |
| SummonBroker.Broker.Claim | src/bloodborne_summon_broker.cpp:458-533 | the target is one the two searches may find, whatever the hash order; the records move by one step of the broker, and a refusal changes nothing but the purge |
| SummonBroker.Broker.FindTarget | src/bloodborne_summon_broker.cpp:464-494 | a record with the session named, else the newest with the target user and character, else none |
| SummonBroker.Broker.Consume | src/bloodborne_summon_broker.cpp:535-568 | the records move by one step of the broker; the counts are those of the records consumed and retained; the placement is that of a retained record that has one |
| SummonBroker.Broker.ConsumeOne | src/bloodborne_summon_broker.cpp:556-565 | one record kept, consumed or passed over, and counted |
| SummonBroker.Broker.StateFor | src/bloodborne_summon_broker.cpp:570-579 | after the purge, the state of the record under the key |
| SummonBroker.SortNewestFirst | src/bloodborne_summon_broker.cpp:443-446 | every key once, newest first |
| SummonAnswers.SearchListsIff | src/bloodborne_summon_broker.cpp:418-441 | a live record is listed exactly when it fits, field by field of the request, and is open and not sent ahead, or in seamless mode active and claimed by the requesting user |
| SummonAnswers.MatchesIsFits | src/bloodborne_summon_broker.cpp:76-139 | the test of the search is: another user and session; version, method and, unless anywhere, area fields equal where the request gives them; no filter entry names a type or some entry names the sign's up to 32 bits; the word given; level within 10 + level/5 and distance within the threshold, unless anywhere |
| SummonAnswers.SearchPreparesIff | src/bloodborne_summon_broker.cpp:421-432 | a search changes exactly the open signs that fit and are sent ahead: they go into preparation for this user and placement |
| SummonAnswers.SpoofedSignFits | src/bloodborne_summon_broker.cpp:295-348 | a sign that fits a search that goes anywhere fits, as shown with the host's own location, the same search with all its conditions on place and level |
| SummonAnswers.LocationIsSpoofed | src/bloodborne_summon_broker.cpp:270-273 | the fields spoofed are the seven location fields, in both lists of the source |
| SummonAnswers.MaxCountIs | src/bloodborne_summon_broker.cpp:447-448 | 20 signs unless the request says otherwise, none for a negative number |
| SummonAnswers.LiveIff | src/bloodborne_summon_broker.cpp:595-605 | a record outlives the purge exactly when its last change is no older than the time to live of its state and mode |
| SummonAnswers.SettingsAre | src/bloodborne_summon_broker.cpp:358-362 | the settings kept for any options |
| SummonAnswers.FieldsRead | src/bloodborne_summon_broker.cpp:21-32 | a field is read as a number, a text or a truth value exactly where it holds one |
| SummonAnswers.AdvertiseAnswers | src/bloodborne_summon_broker.cpp:364-404 | what an advertisement makes of the record of its session and user, and the whole answer: a fresh sign, or the live record with new text, its claim kept, its preparation ended or its claim delivered on the map named |
| SummonAnswers.ClaimAnswers | src/bloodborne_summon_broker.cpp:496-533 | which of the four answers a claim on a live record gets, exactly, and the record it leaves; every refusal changes nothing but the purge |
| SummonAnswers.ClaimTargetIs | src/bloodborne_summon_broker.cpp:464-494 | the target in terms of the fields: a record of the session named, else the newest of the user and character named |
| SummonAnswers.ConsumeAnswers | src/bloodborne_summon_broker.cpp:535-568 | for each live record: passed over, renewed or consumed, and counted, exactly by session, user, mode and force |
| JsonMembers.ScanIsIdempotent | src/bloodborne_summon_broker.cpp:141-233 | for every byte string, malformed or not, printing the scanned members between braces and scanning again returns the same keys and texts |
| JsonMembers.ReadsBackIffRescannable | src/bloodborne_summon_broker.cpp:141-233 | a list of members printed between braces scans back to itself exactly when each reads alone and each but the last is ended by the comma behind it |
| JsonMembers.NothingIsSkipped | src/bloodborne_summon_broker.cpp:141-233 | for every byte string the scanner returns nothing at all, or the bytes are a brace, the members returned with only blanks and commas around them, and a brace |
| JsonMembers.BalancedIsAtRest | src/bloodborne_summon_broker.cpp:189-222 | a value without quotes can be ended by a comma exactly when its brackets of both kinds balance |
| JsonMembers.JoinScans | src/bloodborne_summon_broker.cpp:141-233 | joined members scan to the list |
| JsonMembers.ScannedRescans | src/bloodborne_summon_broker.cpp:141-233 | whatever the scanner returns can be scanned again |
| JsonMembers.TopLevelMembers | src/bloodborne_summon_broker.cpp:141-233 | the running position, string, escape and depth state yield the members that the idempotence and completeness results speak of; none when the bytes are not scanned to the end |
| JsonMembers.ReadMember | src/bloodborne_summon_broker.cpp:160-231 | one member: key up to its closing quote, colon, value up to its comma, trailing blanks cut |
| JsonMembers.SkipString | src/bloodborne_summon_broker.cpp:166-177 | stops at the first quote no backslash escapes |
| JsonMembers.SkipValue | src/bloodborne_summon_broker.cpp:189-222 | stops at the first comma outside strings, objects and arrays |
| JsonText.PrintedObjectScans | src/bloodborne_summon_broker.cpp:141-233 | every JSON object, printed with any white space, nesting and escapes, scans to exactly its members in order, keys and texts byte for byte |
| JsonText.PassesValue | src/bloodborne_summon_broker.cpp:189-222 | a printed value of any depth is read whole and leaves the scanner at the depth where it began |
| JsonText.PrintedMemberReads | src/bloodborne_summon_broker.cpp:160-231 | a printed member, then blanks, then a comma or the end, is read whole without the blanks |
| JsonText.DeliveryKeepsClaim | src/bloodborne_summon_broker.cpp:623-638 | for every claim text with a member outside the envelope, the answer scans to the fresh ResKind and MessageId and then the other members, byte for byte and in order |
| JsonText.PrintedClaimIsDelivered | src/bloodborne_summon_broker.cpp:623-638 | the same for a claim that is a JSON object printed in any way, in terms of the object |
| JsonText.ExceptEnvelopeKeeps | src/bloodborne_summon_broker.cpp:235-243 | nothing but envelope members is lost, nothing is repeated |
| JsonText.ExceptEnvelopeInOrder | src/bloodborne_summon_broker.cpp:235-243 | order is kept |
| JsonText.EnvelopeText | src/bloodborne_summon_broker.cpp:631 | the envelope is the text the source writes |
| JsonText.TopLevelMembersExceptEnvelope | src/bloodborne_summon_broker.cpp:235-243 | the scanned members outside the envelope |
| JsonText.BuildClaimDeliveryResponse | src/bloodborne_summon_broker.cpp:623-638 | the braced list of envelope and other members; empty when there are none |
| JsonText.PrepareAdvertisementForSearch | src/bloodborne_summon_broker.cpp:295-348 | the braced list of rewritten and added members; the raw text when nothing was scanned |
| JsonText.PrintedAdvertisementReadsBack | src/bloodborne_summon_broker.cpp:295-348 | for every advertisement that is a JSON object, in any print: what a search prints scans back to the members written, whatever is replaced or added |
| JsonText.SearchReadsBackIff | src/bloodborne_summon_broker.cpp:295-348 | for every byte string, objects or not: what a search prints scans back to the members written exactly when no field is added, or the last member is replaced, or its own text leaves the scanner outside strings and brackets |
| JsonText.AddsFieldsIff | src/bloodborne_summon_broker.cpp:334-346 | a search adds fields exactly when it spoofs a location field that the request has and the advertisement lacks |
| JsonMembers.ClosedIffAtRest | src/bloodborne_summon_broker.cpp:189-222 | a comma ends a scanned member exactly when its text leaves the scanner outside strings and at depth zero |
| JsonText.SearchKeepsMembers | src/bloodborne_summon_broker.cpp:295-348 | then each member stays in place, byte for byte unless replaced, and exactly the missing location fields that the request has follow |
| JsonText.PrintedObjectExtends | src/bloodborne_summon_broker.cpp:295-348 | the members of a printed object always let others follow |
| JsonText.OpenStringSwallowsAddedField | src/bloodborne_summon_broker.cpp:334-346 | on raw bytes that are no JSON object and end inside a string, the added field is not read back |
| JsonText.SpoofedLocationIsRequests | src/bloodborne_summon_broker.cpp:321-346 | under every location field the host sent it is shown its own value, wherever the field stands |
| JsonText.PayloadIsSet | src/bloodborne_summon_broker.cpp:317-330 | the payload is shown with its result count set where there is one to set; every other member but the spoofed fields is shown as sent |
| JsonText.SpoofedKeysAgree | src/bloodborne_summon_broker.cpp:270-273 | the test for spoofed members and the list of added fields name the same seven fields |
| Matching.ReachableRoom | src/matching_types.h:128-188 | in every reachable room of at most 64 slots: members in distinct slots 1..maxSlot under distinct names, as many mask bits as members, stored counters equal to the recomputed ones with public + private = maxSlot and open = maxSlot - members, one owner bit, FULL exactly on full rooms of two slots or more |
| Rooms.FreeSlotExists | src/matching_types.h:128-142 | pigeonhole: while a room is not full the lowest free slot is one of its own |
| Rooms.JoinKeepsSlots | src/matching_types.h:128-149 | a joiner gets a fresh id in a slot of its own |
| Rooms.SeatsAsManyAsMembers | src/matching_types.h:128-142 | distinct slots: no more members than slots |
| Rooms.JoinedCount | src/matching_types.h:180-188 | the joined mask has as many bits as there are members, all below maxSlot |
| Rooms.CountersConserve | src/cmd_matching.cpp:166-179 | public and private slots add up to maxSlot, open ones to maxSlot less the members, exactly for rooms of at most 64 slots |
| Rooms.SlotSixtyFiveIsUncounted | src/matching_types.h:128-142 | with slots 1 to 64 taken, a joiner of a larger room who gets a fresh id sits in slot 65, which no mask bit shows |
| Rooms.JoinReplacesIff | src/matching_types.h:128-149 | a joiner is given the id of a member exactly when slots 1 to 64 are taken and a member of slot 65 was numbered at the same count |
| Rooms.SeventeenthReplacesFirst | src/matching_types.h:128-149 | past 64 slots the seventeenth joiner takes the id and the place of the first, and the table grows no more |
| Rooms.PrivateInGroup | src/cmd_matching.cpp:151-164 | a place in a group is private exactly when that group has a password: it lies in no other |
| Rooms.CreatedOk | src/cmd_matching.cpp:538-569 | a created room is sound, with its creator as only member and owner |
| Rooms.JoinOk | src/cmd_matching.cpp:664-709 | a join keeps a room sound |
| Rooms.JoinShape | src/cmd_matching.cpp:664-709 | a join adds one member without flags, recounts, and sets FULL when the room fills up; all else stays |
| Rooms.LeaveOk | src/cmd_matching.cpp:771-830 | the last leaving ends the room, any other keeps it sound |
| Rooms.LeaveEffect | src/cmd_matching.cpp:771-830 | the others remain under their names; the owner changes only when it leaves, to one that remains; nobody is unblocked |
| Rooms.KickOk | src/cmd_matching.cpp:852-889 | only the owner kicks and never itself: the room stays sound, the owner the same, the target is gone and listed if blocked |
| Rooms.SetInternalFlags | src/cmd_matching.cpp:1375-1378 | no filter reaches FULL; every other flag takes the value given exactly where filtered |
| Rooms.SetInternalOk | src/cmd_matching.cpp:1375-1383 | flag and mask changes keep a room sound |
| Rooms.Room.constructor | src/cmd_matching.cpp:463-653 | one member, owner bit set, requested FULL dropped, counters counted |
| Rooms.Room.AllocMemberId | src/matching_types.h:128-142 | lowest slot no member has, next counter |
| Rooms.Room.AddMember | src/matching_types.h:144-149 | the member is stored under the id allocated |
| Rooms.Room.RemoveMember | src/matching_types.h:165-171 | the member is gone; whether it was there |
| Rooms.Room.FindByNpid | src/matching_types.h:151-163 | a member of that name, none exactly when there is none |
| Rooms.Room.JoinedSlotMask | src/matching_types.h:180-188 | one bit for each member's slot and no other |
| Rooms.Room.GroupPasswordSlotMask | src/cmd_matching.cpp:151-164 | exactly the valid places that lie in password groups |
| Rooms.Room.SlotCounts | src/cmd_matching.cpp:166-179 | the counters are the sizes of the sets of public, private and open slots |
| Rooms.Room.RecomputeRoomSlotCounts | src/cmd_matching.cpp:166-179 | the counters become those of members, groups and mask; nothing else changes |
| Rooms.Room.PassOwnership | src/cmd_matching.cpp:813-824 | the first of the line of succession that is still a member follows, else some member |
| Rooms.Room.Admit | src/cmd_matching.cpp:664-709 | refused for the first check that fails, with nothing changed, or one member more |
| Rooms.Room.Depart | src/cmd_matching.cpp:771-830 | emptied exactly when the last member left; else the room without that member, handed over if it was the owner |
| Rooms.Room.Kickout | src/cmd_matching.cpp:852-889 | refused with nothing changed, or the target gone and its name blocked when asked |
| Rooms.Room.SetData | src/cmd_matching.cpp:1375-1383 | flags move under the filter with FULL protected; a new mask recounts |
| SlotMasks.CountSlots | src/cmd_matching.cpp:142-149 | clearing lowest bits counts the bits of the word |
| SlotMasks.ClearsLowest | src/cmd_matching.cpp:142-149 | mask & (mask - 1) clears the lowest bit and no other |
| SlotMasks.SlotMaskBits | src/cmd_matching.cpp:134-140 | the mask for maxSlot holds exactly the slots up to it, 64 at most |
| SlotMasks.OpsBits | src/cmd_matching.cpp:166-179 | the bit operations on words are union, intersection and difference of slots |
| Matching.RunKeepsInv | src/cmd_matching.cpp:644-653 | over every run each room is listed exactly once under its world, or without one under its lobby, and nowhere else, exactly while it exists; and every room is sound |
| Matching.StepKeepsInv | src/cmd_matching.cpp:801-807 | the same for one command |
| Matching.MembershipMoves | src/cmd_matching.cpp:664-889 | nobody enters but by joining, nobody is out but by leaving or by the owner's kick, a room ends only with its last member |
| Matching.OwnerChangesByLeavingOnly | src/cmd_matching.cpp:809-826 | a room changes owner only when the owner leaves, and then to a member that stays |
| Matching.BannedStaysOut | src/cmd_matching.cpp:682-686 | kicked out with the block flag, a player is never a member of that room again, whatever follows |
| Matching.ListedIsWorld | src/cmd_matching.cpp:928-941 | a world's list holds each of its rooms once and nothing stale |
| Matching.ListedIsLobby | src/cmd_matching.cpp:644-653 | the same for a lobby's list |
| Matching.MatchingState.Create | src/cmd_matching.cpp:463-661 | the new room gets an id not issued before and one entry in the index of its place; the view moves by one step of the server, and all rooms stay sound |
| Matching.MatchingState.Join | src/cmd_matching.cpp:664-746 | the view moves by one step of the server: the room joined changes alone, a refusal changes nothing, and the invariant of all rooms and indices holds again |
| Matching.MatchingState.Leave | src/cmd_matching.cpp:771-830 | the view moves by one step of the server whichever member the hash table would list first: the room lives on under a valid owner, or it and its index entry go together |
| Matching.MatchingState.Kickout | src/cmd_matching.cpp:852-889 | the view moves by one step of the server, whichever member of that name the walk meets; strangers and non-owners are refused and change nothing |
| Matching.MatchingState.SetData | src/cmd_matching.cpp:1355-1383 | the view moves by one step of the server: flags and counters of one room, membership and indices untouched |
| Matching.MatchingState.CountRoomsAndMembers | src/cmd_matching.cpp:928-941 | the true number of rooms of a world and the true sum of their members |
| Matching.MatchingState.WorldInfoList | src/cmd_matching.cpp:917-995 | true rows for the configured worlds of the server in order, or for every world that has rooms, each once |
| Matching.MatchingState.SearchRoom | src/cmd_matching.cpp:997-1065 | exactly the sought rooms that pass the filters, each once, and the page asked for; the branch for a stale candidate is unreachable |
| RoomAnswers.EntersIff | src/cmd_matching.cpp:664-746 | a joiner is answered with an entry exactly when the room exists, has fewer members than slots, nobody bears the name, name and account are on every non-empty allow list and on no block list, and no member shuns or is shunned; then, up to 64 slots, the joiner is a member under the id answered and the others are as they were |
| RoomAnswers.JoinAnswers | src/cmd_matching.cpp:675-709 | each refusal of a join with its exact condition, in the order of the checks |
| RoomAnswers.RoomFillsUp | src/cmd_matching.cpp:675-733 | a room of at most 64 slots admits distinct joiners whom nothing keeps out until it holds maxSlot members, and then nobody |
| RoomAnswers.CreateAnswers | src/cmd_matching.cpp:463-661 | a creation is answered with a fresh room of the size and under the rules asked for, FULL dropped, its creator the only member and owner |
| RoomAnswers.LeaveAnswers | src/cmd_matching.cpp:771-830 | only a member leaves; then nobody of that name is there, and the room ends exactly with its last member |
| RoomAnswers.HeirIs | src/cmd_matching.cpp:809-826 | a room passes to the first in its line of succession who stays, or failing that to the member the table lists |
| RoomAnswers.KickAnswers | src/cmd_matching.cpp:852-889 | each answer of a kick with its exact condition; then the target is gone, the others as they were, its name blocked exactly if asked or blocked before |
| RoomAnswers.SetDataAnswers | src/cmd_matching.cpp:1355-1383 | nobody comes or goes, flags are set exactly where filtered but for FULL, a new mask recounts |
| RoomAnswers.PrivateSlotsAre | src/cmd_matching.cpp:166-179 | the private slots are those of the mask, where it names any of the room's, else those of the password groups; the counters count them, all and free |
| RoomAnswers.PagesCoverAll | src/cmd_matching.cpp:1050-1056 | turning pages of one size shows every match from the start on once, in order |
| RoomAnswers.PageSizes | src/cmd_matching.cpp:1004-1009 | a page holds at most 20; no size and a size too large mean 20, place 0 the first |
| RoomAnswers.SoughtIs | src/cmd_matching.cpp:1017-1029 | a search looks in the world named, else in the lobby named, else everywhere |
| RoomAnswers.WorldsInOrder | src/cmd_matching.cpp:947-950 | the configured worlds come in order, each by itself |
| RoomAnswers.OneWorld | src/cmd_matching.cpp:947-950 | a configured world is told for its own server and for server 0 |
| RoomAnswers.WorldRow | src/cmd_matching.cpp:928-941 | the row of a world counts the rooms that stand in it and the pairs of such a room and a member |
| Sessions.RunKeepsInv | src/webapi_routes_session.cpp:192-220 | over every run of create, update, join, leave, delete and purge: 1 to 256 distinct members with their owner among them, and no user at one index in two sessions |
| Sessions.StepKeepsInv | src/webapi_routes_session.cpp:1138-1208 | the same for one call |
| Sessions.SessionAfterStep | src/webapi_routes_session.cpp:1298-1319 | what one call does to one stored session: deleted, left by the user taken out, or kept with its owner and members |
| Sessions.SessionEnds | src/webapi_routes_session.cpp:1298-1319 | a session ends exactly when it is deleted by leave of its rule, loses its last member, or loses the owner of an owner-bind session |
| Sessions.TakenOut | src/webapi_routes_session.cpp:1298-1319 | the user taken out is gone and nobody else is |
| Sessions.NewIsCreated | src/webapi_routes_session.cpp:561-709 | a session appears only by creation |
| Sessions.EnteringHolds | src/webapi_routes_session.cpp:1182-1208 | a join never ends the session joined: the user stands behind all its members and holds the index nowhere else |
| Sessions.HeldBefore | src/webapi_routes_session.cpp:192-220 | whoever holds an index after a call has just entered there or held it before |
| Sessions.OwnerBindKeepsCreator | src/webapi_routes_session.cpp:1298-1319 | an owner-bind session keeps its creator as owner and member to its end, and never comes back |
| Sessions.OwnerChanges | src/webapi_routes_session.cpp:1313-1317 | an owner changes only when taken out of an owner-migration session, and to the one ahead of all others who remain |
| Sessions.HeirIsEarliest | src/webapi_routes_session.cpp:1313-1317 | the new owner stands ahead of everybody else who remains |
| Sessions.MembersInEntryOrder | src/webapi_routes_session.cpp:1187-1200 | over every run the members of a session stand in the order of the calls by which they last entered it |
| Sessions.HeirEnteredFirst | src/webapi_routes_session.cpp:1313-1317 | over every run a session passes to another owner only when the owner of an owner-migration session is taken out, and then to the member who entered before everybody else who remains |
| Sessions.StandingKept | src/webapi_routes_session.cpp:1187-1200 | of two users who stay in a session, who came first stays first |
| Sessions.LeaveAtIsRemoval | src/webapi_routes_session.cpp:192-220 | leaving by index does to the one session that holds the index what removal by user does |
| Sessions.RemovalKeepsOk | src/webapi_routes_session.cpp:1298-1319 | removal ends a session exactly when its last member or an owner-bind owner goes; else it stays sound |
| Sessions.Session.RemoveMemberApplyOwner | src/webapi_routes_session.cpp:1298-1319 | says whether the user was there and whether the session must go; else the members are the others in their order under a valid owner |
| Sessions.Session.Take | src/webapi_routes_session.cpp:1301-1318 | the member goes and the owner rule applies |
| Sessions.Session.PermissionErrorFor | src/webapi_routes_session.cpp:48-60 | the creator for owner-bind sessions, any member for the others |
| Sessions.Session.Update | src/webapi_routes_session.cpp:757-775 | present fields are replaced, an empty platform list is not |
| Sessions.SessionStore.LeaveSessionAtIndex | src/webapi_routes_session.cpp:192-220 | whichever session the walk meets first, the one holder of the index loses the user and nothing else changes |
| Sessions.SessionStore.Create | src/webapi_routes_session.cpp:605-686 | the view moves by one step of the store: a refused creation changes nothing, an accepted one frees the index elsewhere first, and the invariant holds again |
| Sessions.SessionStore.Join | src/webapi_routes_session.cpp:1138-1208 | the view moves by one step of the store, with the errors in the order of the checks; fetching the session again after the index is freed always finds it |
| Sessions.SessionStore.Leave | src/webapi_routes_session.cpp:1321-1361 | the view moves by one step of the store: only the member itself or the owner removes, a stranger or missing session changes nothing |
| Sessions.SessionStore.DeleteOrUpdate | src/webapi_routes_session.cpp:715-776 | the view moves by one step of the store: only who may change a session deletes or updates it (deletion: lines 960-976) |
| Sessions.SessionStore.PurgeUserFromSessions | src/webapi_routes_session.cpp:1871-1905 | removing the user session by session and deleting the ended ones afterwards is leaving all sessions at once |
| SessionAnswers.EntersIff | src/webapi_routes_session.cpp:1138-1208 | a user who is not a member enters exactly when the index is in 0..63, the user online, the session not locked and below its limit (1 to 255, else 256); then stands behind all the others |
| SessionAnswers.JoinAnswers | src/webapi_routes_session.cpp:1138-1193 | each answer of a join with its exact condition, in the order of the checks |
| SessionAnswers.RejoinAnswers | src/webapi_routes_session.cpp:1167-1178 | a member who joins again at its index gets the new priority and time, and nothing else changes |
| SessionAnswers.LimitHolds | src/webapi_routes_session.cpp:1188-1193 | over every run a session that no update touches never holds more members than its limit |
| SessionAnswers.LockedGainsNobody | src/webapi_routes_session.cpp:1180-1187 | over every run a locked session that no update touches stays locked and gains nobody |
| SessionAnswers.CreateAnswers | src/webapi_routes_session.cpp:605-686 | each answer of a creation with its exact condition, and the session it makes, field by field |
| SessionAnswers.LeaveAnswers | src/webapi_routes_session.cpp:1321-1361 | only the member and the owner may take a member out; leaving what is not there is no error |
| SessionAnswers.ChangeAnswers | src/webapi_routes_session.cpp:715-776 | each answer of an update or deletion with its exact condition, and the fields an update sets (deletion: lines 960-976) |
| Multipart.PartsRoundTrip | src/webapi_routes_session.cpp:134-186 | parsing the printed body of any list of parts, with data free of the delimiter, returns the parts, including data that is empty or ends in line breaks, exactly when no header value begins or ends in white space |
| Multipart.PartsReadTrimmed | src/webapi_routes_session.cpp:134-186 | for header values of any kind without line breaks: each part comes back with its data as it was and its header values trimmed |
| Multipart.OuterBlankIsLost | src/webapi_routes_session.cpp:170-181 | a concrete part with a blank before its description, which comes back without it |
| Multipart.RoundTrip | src/webapi_routes_session.cpp:134-186 | the same for parts under header lines of any kind |
| Multipart.PartIsFound | src/webapi_routes_session.cpp:143-183 | one printed part is found, with its end |
| Multipart.HeaderReads | src/webapi_routes_session.cpp:170-181 | a header line with any value reads as its name in lower case and its value trimmed |
| Multipart.TwoHeadersRead | src/webapi_routes_session.cpp:170-181 | content type and description, of any value, come back trimmed under names in any case |
| Multipart.ParseMultipartMixed | src/webapi_routes_session.cpp:134-186 | the position loop yields the parts that the round trip speaks of, and ends on every input |
| Multipart.ReadHeaders | src/webapi_routes_session.cpp:170-181 | the last value under each of the two names |
| MultipartLineFeeds.LineFeedRoundTrip | src/webapi_routes_session.cpp:143-183 | the same round trip for bodies with bare line feeds, as long as the body nowhere holds CR LF CR LF and no data ends in CR |
| MultipartLineFeeds.LowerIsAscii | src/webapi_routes_session.cpp:175 | header names lose the case of the 26 letters and nothing else |
| Framing.ClientDelivers | clientsample/connection.cpp:199-226 | for every list of packets cut into reads in any way, the client has delivered at every moment exactly the complete ones, in order, and keeps exactly the beginning of the next |
| Framing.ServerDelivers | src/client_session.cpp:41-77 | the same for the server and requests within the size limit, none rejected |
| Framing.ClientSplitAppend | clientsample/connection.cpp:199-226 | splitting two chunks at once is splitting the first and then its rest with the second, unless the first clears the buffer |
| Framing.ClientCutMatters | clientsample/connection.cpp:199-226 | for every list of reads: how the stream is cut matters exactly when it holds, behind whole packets, a size field below the header's, and the reads after the one that completes that header do not all vanish in the same way |
| Framing.CutAtUndersized | clientsample/connection.cpp:205-209 | the read that completes such a header loses the rest of the buffer and the later reads start anew; seen as one read the stream ends there |
| Framing.ClearsAtUndersized | clientsample/connection.cpp:205-209 | a buffer is cleared exactly when it holds such a header |
| Framing.VanishIff | clientsample/connection.cpp:199-226 | nothing is delivered and nothing stays exactly when every header that the reads complete from the front on has such a size, and no byte is left over |
| Framing.CutAfterClearShows | clientsample/connection.cpp:205-209 | fifteen zero bytes and one more: read at once the last byte is lost, read separately it stays |
| Framing.ClientIgnoresCuts | clientsample/connection.cpp:199-226 | a stream that never clears is split the same way however it is cut |
| Framing.ClientLosesNothing | clientsample/connection.cpp:199-226 | whatever the bytes, packets and rest are the buffer unless it clears |
| Framing.ServerSplitAppend | src/client_session.cpp:41-77 | splitting two chunks at once is splitting the first and then its rest with the second |
| Framing.ServerIgnoresCuts | src/client_session.cpp:41-77 | the server takes the same requests, keeps the same bytes and rejects the same streams however they are cut |
| Framing.RejectionLasts | src/client_session.cpp:48-68 | a rejected stream stays rejected |
| Framing.ServerLimits | src/client_session.cpp:44-73 | every kind but 0 and every size above 8 MiB is rejected; an incomplete packet waits, a complete one is taken |
| Framing.HeaderReads | clientsample/connection.cpp:203-220 | what is written into a header is read from it, whatever follows |
| Framing.HeaderLayout | clientsample/connection.cpp:203-220 | the header byte by byte: kind, command, size of the whole packet, id, low bytes first |
| Framing.KindBytes | clientsample/client.cpp:25-38 | requests, replies and notifications begin with 0, 1 and 2 |
| Framing.FrontRewrites | clientsample/connection.cpp:203-220 | a packet read is written back as the bytes it was read from |
| Framing.BuildPacket | clientsample/client.cpp:25-38 | a request packet of the fields given |
| Framing.BuildNotification | src/client_session.cpp:324-332 | a notification packet of the fields given |
| Framing.BuildReply | src/client_session.cpp:84-101 | a reply packet with the result in front of the body and the true size |
| Framing.ClientConnection.Parse | clientsample/connection.cpp:199-226 | delivers the packets of the buffer and keeps its rest |
| Framing.ClientConnection.Receive | clientsample/connection.cpp:165-199 | the state is that of all reads so far |
| Framing.ServerConnection.Serve | src/client_session.cpp:44-76 | processes the requests of the buffer, keeps its rest, and disconnects exactly at another kind of packet or an oversized one |
| Framing.ServerConnection.OnReadyRead | src/client_session.cpp:41-77 | the state is that of all reads so far |
| Wire.FieldsReadBack | src/stream_extractor.h:74-86 | fields written one after the other are read back, whatever stands around them |
| Wire.CutFieldsFail | src/stream_extractor.h:56-86 | cut anywhere, the fields do not read without an error |
| Wire.ErrorStays | src/stream_extractor.h:22-86 | an error is never forgotten |
| Wire.WordReads | src/stream_extractor.h:22-34 | a word that fits its width is read back |
| Wire.WordWrites | src/stream_extractor.h:104-117 | a word read is written back as the same bytes |
| Wire.StreamExtractor.Word | src/stream_extractor.h:22-34 | the little-endian word and the moved position, or the error |
| Wire.StreamExtractor.GetBytes | src/stream_extractor.h:56-64 | the bytes and the moved position, or the error |
| Wire.StreamExtractor.GetRawData | src/stream_extractor.h:74-86 | the blob behind its length, or the error |
| Wire.Buffer.AppendU16LE | src/stream_extractor.h:104-107 | two bytes, low first |
| Wire.Buffer.AppendU32LE | src/stream_extractor.h:108-113 | four bytes, low first |
| Wire.Buffer.AppendU64LE | src/stream_extractor.h:114-117 | eight bytes, low first |
| Wire.Buffer.AppendBlob | src/stream_extractor.h:122-125 | length and bytes |
| Wire.Buffer.FixPacketSize | src/stream_extractor.h:127-133 | the length goes into bytes 3 to 6, all others untouched |
| Wire.BuildWebApiPushPayload | src/client_session.cpp:353-371 | the payload is the listed fields one after the other |
| Friends.TableIsHistory | src/cmd_friend.cpp:50-315 | after every run a pair's row says exactly what the calls on that pair say: blocked by the last block or unblock, asked unless taken back or blocked since; and there is a row exactly when that is something |
| Friends.ReachableRelations | src/cmd_friend.cpp:50-315 | in every reachable state a block excludes friendship and requests, what one has sent the other has received, and online users list each other or neither does |
| Friends.StepKeeps | src/cmd_friend.cpp:50-315 | every call keeps the rows meaningful and each online user's list equal to its mutual friends in the table |
| Friends.RunKeeps | src/cmd_friend.cpp:50-315 | the same over every run |
| Friends.PairStep | src/cmd_friend.cpp:50-315 | what one call does to one pair's row, seen from either side |
| Friends.PairChanged | src/cmd_friend.cpp:88-101 | lists told of a pair's change stay true to the table |
| Friends.LoginKeepsLists | src/cmd_account.cpp:147-172 | a login keeps all lists true |
| Friends.RowReads | src/database.cpp:587-640 | what is written is read back from either side, and no other pair is touched |
| Friends.RelationsMatch | src/database.cpp:642-696 | friendship is seen from both sides; one side's sent is the other's received |
| Friends.ListingsMatch | src/database.cpp:642-696 | the same for the listings |
| Friends.OnlineIsHistory | src/cmd_account.cpp:147-172 | over every run a user is online exactly when a login under the account's own name came after its last disconnection |
| Friends.LoginAnswers | src/cmd_account.cpp:70-94 | a login succeeds exactly under the own name of an account that is not online; it is told of the other login exactly when the account is online; any other name is invalid |
| Friends.LoginEnters | src/cmd_account.cpp:147-172 | the new list names exactly the mutual friends under their own names, each of them online lists the user, nothing else changes |
| Friends.FriendAnswers | src/cmd_friend.cpp:50-315 | what the four commands answer after every run, read off the calls made before |
| Friends.FriendServer.GetRelStatus | src/database.cpp:593-612 | the row seen from the caller |
| Friends.FriendServer.SetRelStatus | src/database.cpp:614-630 | the row is written from the caller's side |
| Friends.FriendServer.DeleteRel | src/database.cpp:632-640 | the pair's row is gone |
| Friends.FriendServer.GetRelationships | src/database.cpp:642-696 | each of the four listings names exactly the accounts in that relation, once, by their own names |
| Friends.FriendServer.CmdAddFriend | src/cmd_friend.cpp:50-139 | table, lists and reply are those of one step: the request is stored, both online lists change exactly when it answers a request from the other side, blocks on either side refuse it |
| Friends.FriendServer.CmdRemoveFriend | src/cmd_friend.cpp:143-205 | table, lists and reply are those of one step: both friend bits and both list entries go, and the row with them when nothing is left in it |
| Friends.FriendServer.CmdAddBlock | src/cmd_friend.cpp:209-273 | table, lists and reply are those of one step: the block ends friendship and requests on both sides |
| Friends.FriendServer.CmdRemoveBlock | src/cmd_friend.cpp:277-315 | table and reply are those of one step: only the blocker's bit goes, and the row with it when nothing is left in it |
| Friends.FriendServer.EnterFriends | src/cmd_account.cpp:163-170 | the new entry takes the friends, and each friend online takes the user |
| Friends.FriendServer.CmdLogin | src/cmd_account.cpp:70-172 | entries and reply are those of one step: the account's own spelling, one login at a time, the new list holds exactly the mutual friends in the table, and the four listings of the reply name exactly the accounts in each relation |
| Friends.FriendServer.Disconnected | src/client_session.cpp:279-290 | the entry goes, and no other user's list changes |
| Usage.ReachableHistogram | src/client_session.h:65-105 | after any run every entry is positive and the number of users last seen in that game, and the entries sum to the users seen in any |
| Usage.StepKeepsCounts | src/client_session.h:65-105 | every call keeps the histogram exact |
| Usage.SumIsUsers | src/client_session.h:65-67 | an exact histogram sums to the number of users in a game |
| Usage.GameIsLastTouched | src/client_session.h:73-105 | a user's game is the last one touched since the last logout |
| Usage.TotalOnline | src/client_session.h:69-76 | the total is never negative, and is logins less logouts exactly when no logout came without its login |
| Usage.SharedUsage.UsageOnLogin | src/client_session.h:69-72 | one more online, the histogram untouched |
| Usage.SharedUsage.UsageOnLogout | src/client_session.h:73-84 | the counters move by one step, for which the histogram stays exact |
| Usage.SharedUsage.UsageTouchGame | src/client_session.h:88-105 | the counters move by one step, for which the histogram stays exact; true exactly when the user's game is new or has changed |

## Left out

- Framing.ServerConnection.Serve: a request whose size field is below the header size is where the model stops; the source reads the payload with a negative length there, and does not end on size 0.
- Wire.StreamExtractor.GetRawData: a length of 2^31 or more is an error here; the source casts it to a signed int.
- Wire.StreamExtractor.Word: the bytes are put together as a number; the width of the source's integer types bounds them.
- Matching.ReachableRoom: rooms of more than 64 slots keep only what Rooms.RoomFit says; Rooms.SlotSixtyFiveIsUncounted shows the member no mask bit counts, Rooms.JoinReplacesIff and Rooms.SeventeenthReplacesFirst the ids that collide.
- Rooms.Room.GroupPasswordSlotMask: a shift by 64 or more has no defined value in the source; the model takes it to add no bit.
- Rooms.Room.Admit: the joiner's team id, attributes, avatar and signaling address are not kept; the join of the source checks neither room passwords nor group labels.
- Matching.MatchingState.SearchRoom: the attribute filters are a given set of passing rooms.
- ScoreBoard.ScoreTableCache.GetScoreRange: ranks and counts whose sum passes 2^31, where the source's signed arithmetic is undefined.
- ScoreBoard.ScoreService.RecordScore: one board with fixed settings; database errors; the user name that the query joins in; rank limits of 2^31 and more.
- SummonBroker.Broker.Search: numbers are the integers that QJsonValue reads exactly; overflow of 64-bit coordinate squares is not modelled. Qt's hexadecimal parser, its compact printer and the base64 payload are parameters.
- Sessions.SessionStore.Create: image, data blobs, names and localized texts, events, authentication and request parsing past the multipart splitter.
- Sessions.SessionStore.Leave: resolving the member segment of the path to an account.
- Friends.FriendServer.CmdLogin: passwords, tokens, bans, presence and notifications; the accounts are fixed during a run. The check for an existing login and the registration are one step.
- Friends.FriendServer.GetRelationships: status bytes are the two bits ever written; rows of deleted accounts are not modelled.
- Usage.SharedUsage.UsageTouchGame: account deletion, and the presence event that follows a change.
- Client side of the protocol past packet splitting, Protobuf, HTTP routing, sockets, threads, logging, configuration, score files and STUN: input and output only.
- Invitations, session listings, session data endpoints and presence: they add volume and no hard property.
- The per-connection remembered room id: it holds only the latest room.
