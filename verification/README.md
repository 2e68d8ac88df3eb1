# Verified model of Sync Board

Sync Board is a collaborative Kanban application: a React client that changes its state optimistically, and a NestJS
server over PostgreSQL, Redis and RabbitMQ. This project models the parts of it whose correctness spans several steps,
and proves what they keep. `dafny verify dfyconfig.toml` checks all of it.

Each module follows one part of the program. State that the source updates in place is a class whose methods are proved
against specification functions; the properties are then proved about those functions, over whole runs where the source
is a protocol.

- **Board, BoardRefetch, BoardSessions, Ordering, JsArrays** - drag and drop: splices on aliased arrays, the neighbour
  ranks sent to the server, and the agreement of the optimistic order with every refetch, for one drag and for sessions.
- **Regex, Inline, InlineRoundTrip, Blocks, TextLines, JsStrings, Sequences** - the Markdown viewer: a backtracking matcher
  for the token pattern, the tokenizer loop with both round trips, and the block fold with its fence state.
- **Session, SessionHistory, AuthStores** - the client session protocol with its single-flight refresh, debounce timer and one retry,
  with sockets as further callers, and the store behind it.
- **Subcards** - the optimistic subcard list and its cached rollup.
- **Paging** - keyset pagination and the client that follows cursors while the feed grows.
- **Sanitizer** - tag stripping and entity decoding.
- **Seed, SeedColumns, SeedIdempotence, SeedRanks** - the seed script's ensure-helpers as programs over a keyed store.
- **Int32, Colors, Presence, PresenceJoins, AvatarHash** - 32-bit arithmetic, FNV-1a, palette probing, editor presence
  and its interleaved joins, the avatar hash.
- **RedisStore, EmailGuard, ConsumeOnce** - expiring keys, the email-verification cache, and message idempotence.
- **RetryQueue** - wait-queue names, broker arguments and the retries they carry.
- **Staleness** - the board page's stale-event filter.
- **LineCol** - editor positions and Markdown insertion.
- **Hierarchy, HierarchyCalls** - cards, subcards, the depth limit, and calls that wait between their checks and their write.

## Where the code falls short of its documentation

The model follows the code. These promises do not hold as stated. For each there is a concrete case, named first, and
the exact condition under which the code does meet it, named second.

- A drag acts on the card under the mouse: only while no card above it is hidden, and subcards always are
  (`HiddenSubcardIsDraggedInstead`; `DragTakesTheRenderedCard`).
- A dropped card is shown where it fell: only while no hidden card is among as many of the target's cards
  (`HiddenSubcardShiftsTheDrop`; `DropShowsWhereItFell`).
- The optimistic order is the refetched order: a moved item keeps its old rank on screen until the refetch, so a second
  drag next to it may send bounds from the wrong place (`StaleRankMisplacesSecondDrag`; `StaleDragIff`).
- The rollup agrees with the list: a row ticked before its create is answered leaves it wrong (`ToggleBeforeAnswer`;
  `SwapKeepsRollupIff`).
- A failed create takes its own row back: temporary ids made from the clock may coincide (`SharedTempIdLosesBoth`;
  `FailureRemovesItsRowIff`).
- `isAuthenticated` means a token is held: not after an empty one (`EmptyTokenRaisesTheFlag`; `FlagAgreesIff`). Only the
  store's own interface allows this: every caller in the application passes a token it has tested
  (`frontend/src/api/client.ts:30`, `frontend/src/pages/AuthCallbackPage.tsx:29`) or got from the server.
- Sanitising is final: a second call may decode more (`SecondCallDecodesMore`; `IdempotentIff`).
- Fallback colours are distinct: they repeat (`EqualHues`; `FallbackHuesCollideIff`).
- Collaborator colours are collision-free: a handler waits between asking for a colour and registering it, so joins that
  overlap, with each other or with a leave, may end up with one (`OverlapInEmptyRoom`, `LeaveBetweenAsks`;
  `RegisterKeepsIff`, `AlwaysGoodIff`).
- Verification is irreversible, so the cache needs no invalidation: a deleted user stays vouched for
  (`DeletionLeavesTheAnswerStale`; `WrongIff`, `CachedIff`).
- Wait queues are scoped to avoid argument conflicts: keys that sanitise alike conflict (`DotAndUnderscoreConflict`;
  `RefusedIff`, `NeverRefusedIff`).
- Stale events are dropped whatever their order: not with a timestamp that does not parse (`OrderMatters`;
  `OrderIndependentIff`).
- Subcards have depth 2 at most: one after the other, operations reach any depth by archiving and restoring
  (`DepthLimitFails`, `AnyDepthIsReachable`; `StepKeepsShallowIff`), and calls that overlap reach a third level without
  (`OverlapReachesThreeLevels`, `CreateReachesThreeLevels`; `WriteKeepsShallowIff`, `AlwaysShallowIff`).
- A card is never its own ancestor: overlapping attachments can close a cycle (`OverlapClosesACycle`,
  `ThreeOverlapsCloseACycle`; `WriteKeepsForestIff`, `AlwaysForestIff`).
- Seeded ranks are unique and in creation order: not on a partly populated database (`BackfillCanCollide`,
  `CardsCollide`; `StepKeepsOrderIff`, `RunKeepsOrderIff`).

## Model

| member | source | states |
|---|---|---|
| `Board.BoardCanvas.HandleDragEnd` | frontend/src/components/board/BoardCanvas.tsx:83-154 | A drop asks the server for nothing, and changes nothing, exactly when there is no destination, droppable and index are unchanged, or a card's list or the card is missing; otherwise the dragged item stands at the destination, the rest keeps its order, and the request names the item and the ranks beside it |
| `Board.DraggedDrops` | frontend/src/components/board/BoardCanvas.tsx:83-154 | The closed form `Dragged` does the same, for every board, repeated list ids included |
| `Board.BoardCanvas.DragListEnd` | frontend/src/components/board/BoardCanvas.tsx:94-106 | The two in-place splices are "remove, then insert"; the request carries the ranks of the neighbours at the new position |
| `Board.BoardCanvas.DragCardEnd` | frontend/src/components/board/BoardCanvas.tsx:112-148 | A missing list or card changes nothing; otherwise the lists and the request are those of the closed form |
| `Board.BoardCanvas.SpliceCards` | frontend/src/components/board/BoardCanvas.tsx:116-124 | With source and target aliased in the same-list case, and separate otherwise, the two splices give the cards left behind and the cards joined |
| `Board.BoardCanvas.WithCards` | frontend/src/components/board/BoardCanvas.tsx:126-137 | Only the source and target lists get new cards, every other list is untouched |
| `Board.BoardCanvas.MoveSettled` | frontend/src/components/board/BoardCanvas.tsx:149-151 | A refused move puts back the board rendered when the drag ended, an accepted one leaves the lists as they are |
| `Ordering.EveryQueryAgrees` | frontend/src/components/board/BoardCanvas.tsx:94-98 | The order on screen is what every query ordered by rank returns if and only if the ranks on screen strictly ascend |
| `Ordering.InsertKeepsOrder` | frontend/src/components/board/BoardCanvas.tsx:94-106 | Inserting keeps strict order if and only if the rest was in strict order and the item fits between its neighbours |
| `BoardRefetch.SandwichIsTight` | frontend/src/components/board/BoardCanvas.tsx:100-101 | In an ordered list prevRank is below nextRank and no other item lies strictly between them |
| `BoardRefetch.ListMoveRefetch` | frontend/src/components/board/BoardCanvas.tsx:94-110 | After a list move every refetch shows the optimistic order if and only if the other lists were in strict order and the new rank respects the request |
| `BoardRefetch.RankedBoardIsOptimistic` | frontend/src/components/board/BoardCanvas.tsx:123-139 | The board proved right differs from the optimistic one in the moved card's rank only |
| `BoardRefetch.CardRequestIs` | frontend/src/components/board/BoardCanvas.tsx:141-148 | The card request names the dragged card, the target list and the ranks around the gap among the target's other cards, for same-list and cross-list moves |
| `BoardRefetch.CardMoveRefetch` | frontend/src/components/board/BoardCanvas.tsx:112-152 | After a card move every refetch shows the optimistic board if and only if the other cards were in strict order and the new rank respects the request |
| `BoardRefetch.MoveConservesCards` | frontend/src/components/board/BoardCanvas.tsx:120-137 | After a drag each row is in exactly one list, the one its listId names, no row is lost or doubled, and uninvolved lists are unchanged |
| `BoardRefetch.DragKeepsBoard` | frontend/src/components/board/BoardCanvas.tsx:112-152 | One card drag, its server move and its refetch keep "the board shows the card table in strict order" |
| `BoardSessions.OnlyAnswer` | frontend/src/components/board/BoardCanvas.tsx:57-59 | A board that shows the list table and the card table in strict order is the only answer of the board query |
| `BoardSessions.ListDragKeepsCurrent` | frontend/src/components/board/BoardCanvas.tsx:94-110 | A list drag and its server move keep "the board shows both tables in strict order" |
| `BoardSessions.CardDragKeepsCurrent` | frontend/src/components/board/BoardCanvas.tsx:112-152 | A card drag and its server move keep it |
| `BoardSessions.SessionsShowTheOptimisticBoard` | frontend/src/components/board/BoardCanvas.tsx:83-154 | Over every session whose steps are a drop with what the server makes of the request, if there is one, and the refetch after it, every refetch shows the optimistic board; one that overtakes the move, or follows a refused one, shows the board before the drag (`OnlyAnswer`), and a second drag before it is `StaleDragIff` |
| `BoardRefetch.StaleDragIff` | frontend/src/components/board/BoardCanvas.tsx:98-106 | With stale ranks on screen (a second drag before the refetch) every rank the server may pick is right if and only if it refuses the move, or the other items are in order in the database and the bounds sent, or the fallback rank for equal bounds, lie within the true gap |
| `BoardRefetch.StaleRankMisplacesSecondDrag` | frontend/src/components/board/BoardCanvas.tsx:95-106 | A concrete second drag that every refetch shows in another place than the screen did |
| `BoardRefetch.DragTakesTheRenderedCard` | frontend/src/components/board/BoardCanvas.tsx:248-361 | Indices are counted among rendered cards: the dragged card is the one under the mouse if and only if no card up to it is hidden |
| `BoardRefetch.HiddenSubcardIsDraggedInstead` | frontend/src/components/board/BoardCanvas.tsx:196-202 | One hidden subcard above the grabbed card is moved in its place |
| `BoardRefetch.DropShowsWhereItFell` | frontend/src/components/board/BoardCanvas.tsx:124-357 | The column renders the card at the index it was dropped at if and only if no hidden card is among as many of the target's other cards |
| `BoardRefetch.HiddenSubcardShiftsTheDrop` | frontend/src/components/board/BoardCanvas.tsx:196-202 | A hidden subcard on top of the target: a card dropped between two cards is rendered above both |
| `Regex.Exec` | frontend/src/components/document/MarkdownViewer.tsx:260-265 | The leftmost position at which the pattern matches, with the preferred end there (section 22.2 of ECMA-262) |
| `Regex.LazyFindsNearest` | frontend/src/components/document/MarkdownViewer.tsx:261 | A lazy run followed by a delimiter ends at the nearest delimiter that no line terminator separates; it fails if and only if there is none |
| `Regex.MatchEmbeds` | frontend/src/components/document/MarkdownViewer.tsx:261 | A match inside a piece of the text is a match of the whole text |
| `Inline.FormatWith` | frontend/src/components/document/MarkdownViewer.tsx:256-315 | The tokenizer loop computes the recursive parse; an empty result is the text itself |
| `Inline.FormatInline` | frontend/src/components/document/MarkdownViewer.tsx:256-315 | `formatInline` returns the parts of the line under the source's pattern |
| `Inline.TokenMeaning` | frontend/src/components/document/MarkdownViewer.tsx:261 | What a match of the ordered alternation is, and where none exists: bold, then code, then link, each up to the nearest closing delimiter |
| `Inline.NextTokenProgresses` | frontend/src/components/document/MarkdownViewer.tsx:265-308 | Every match lies ahead and is at least two characters long, so the loop ends |
| `Inline.TokensPrintBack` | frontend/src/components/document/MarkdownViewer.tsx:269-306 | Some branch of the token test applies to every match, and printing the node gives the token back |
| `Inline.RoundTrip` | frontend/src/components/document/MarkdownViewer.tsx:256-315 | For every line, printing the parts of `formatInline` gives the line back |
| `InlineRoundTrip.PrintThenParse` | frontend/src/components/document/MarkdownViewer.tsx:222-290 | Any list of parts, printed and read again, is that list, provided no part holds its own closing character or a line terminator and no plain text an opening one |
| `InlineRoundTrip.BoldIff` | frontend/src/components/document/MarkdownViewer.tsx:227-240 | A text without an asterisk between double asterisks is bold if and only if it stands on one line |
| `Inline.EveryTokenIsFound` | frontend/src/components/document/MarkdownViewer.tsx:265-312 | Plain parts are non-empty, hold no complete token and never stand side by side |
| `Blocks.RenderBlocks` | frontend/src/components/document/MarkdownViewer.tsx:16-238 | The fence-state loop pushes exactly the elements described by counting fences |
| `Blocks.MarkdownViewer` | frontend/src/components/document/MarkdownViewer.tsx:7-238 | A blank document shows the notice; any other shows every line that is no fence, as the block it reads as or word for word in code, unless it follows a fence that is never closed |
| `Blocks.ElementIff` | frontend/src/components/document/MarkdownViewer.tsx:24-238 | An element is on the page if and only if its line pushes it: text outside code, or the fence that closes a block |
| `Blocks.KeysIncrease` | frontend/src/components/document/MarkdownViewer.tsx:24-238 | Element keys are unique and in line order |
| `Blocks.ClosedBlockShowsItsLines` | frontend/src/components/document/MarkdownViewer.tsx:26-75 | A line between two fences is in the code block that the closing fence pushes |
| `Blocks.CodeCloses` | frontend/src/components/document/MarkdownViewer.tsx:26-75 | A code block holds exactly the lines back to the nearest fence |
| `Blocks.CodeBlocksAreDisjoint` | frontend/src/components/document/MarkdownViewer.tsx:26-75 | No line is shown in two code blocks |
| `Blocks.LostLines` | frontend/src/components/document/MarkdownViewer.tsx:24-238 | A non-fence line is missing from the page, as the block it reads as or word for word in code, if and only if it follows a fence that is never closed |
| `Blocks.BlockIff` | frontend/src/components/document/MarkdownViewer.tsx:82-237 | A line outside code is rendered as a block if and only if it reads as it: the kind is that of its marker, marker and text make up the line, and a line without a marker that is no rule and not blank is a paragraph of the whole line |
| `Blocks.CodeBlockIs` | frontend/src/components/document/MarkdownViewer.tsx:26-75 | A code block on the page holds word for word the lines between its two fences, under what follows the first one's backticks |
| `TextLines.SplitThenJoin` | frontend/src/components/document/MarkdownViewer.tsx:17 | Splitting at newlines loses nothing and leaves no newline in a line |
| `Session.Client.RefreshAccessToken` | frontend/src/api/client.ts:13-50 | Joins the shared request, or starts one when there is none |
| `Session.Client.OnRefreshReply` | frontend/src/api/client.ts:24-46 | A fresh token is stored, 401 and 403 clear the session, anything else leaves it; the flight settles and its timer is armed; keeps the protocol's invariant |
| `Session.Client.OnTimer` | frontend/src/api/client.ts:43-45 | The debounce timer clears the shared promise; keeps the protocol's invariant |
| `Session.Client.ApiFetch` | frontend/src/api/client.ts:57-77 | A call starts with the token given or the stored one; keeps the protocol's invariant |
| `Session.Client.OnDataReply` | frontend/src/api/client.ts:79-121 | The reply is classified; an auth error with a token, on a first try and off the auth endpoints, joins a refresh; keeps the protocol's invariant |
| `Session.Client.OnCallRefreshed` | frontend/src/api/client.ts:121-130 | With a fresh token the call is sent once more, otherwise it ends with its first failure and a protected page is logged out; keeps the protocol's invariant |
| `Session.Client.OnSocketAuthError` | frontend/src/socket/socket.ts:22-32 | A socket that is already refreshing ignores the error; otherwise it joins the shared refresh; keeps the protocol's invariant |
| `Session.Client.OnSocketRefreshed` | frontend/src/socket/socket.ts:31-45 | The socket takes the fresh token or the session is cleared; keeps the protocol's invariant |
| `Session.SingleFlight` | frontend/src/api/client.ts:11-50 | In every reachable state at most one refresh is outstanding or cooling down, the promise variable names exactly that one, and each flight starts at least the debounce time after every earlier one settled |
| `Session.TimerClearsItsOwnFlight` | frontend/src/api/client.ts:42-46 | A timer only ever clears the promise of its own flight |
| `Session.OneValuePerFlight` | frontend/src/api/client.ts:13-50 | All calls and sockets that waited for one flight got the same value |
| `Session.CallsAreBounded` | frontend/src/api/client.ts:57-143 | A call sends at most two data requests and asks for at most one refresh, none for an auth endpoint |
| `SessionHistory.RefreshAskedIff` | frontend/src/api/client.ts:107-122 | Over every run a call asks for a refresh if and only if its first reply is a 401 or has one of the four codes, it was started with a token that is not empty, and its path holds none of the four auth paths |
| `SessionHistory.EndedOnAuthFailure` | frontend/src/api/client.ts:107-134 | A call that ends after such a reply was started without a token, or on an auth path, or has used its retry, or its refresh gave it no token |
| `SessionHistory.WaitsOnAuthFailure` | frontend/src/api/client.ts:107-122 | A call that waits for a refresh got such a reply to its first request and keeps what it said |
| `SessionHistory.EndsWithLastReply` | frontend/src/api/client.ts:87-140 | A finished call's result is what its last reply comes to, or NETWORK_ERROR |
| `SessionHistory.ClassifyIs` | frontend/src/api/client.ts:81-105 | An envelope is taken as it is, another 2xx reply is a success, and any other has the first non-empty code of the body or HTTP_ with the status |
| `SessionHistory.RetriesWithDelivered` | frontend/src/api/client.ts:122-124 | A retry uses a token that some refresh of this run delivered |
| `SessionHistory.RefreshAnswerIs` | frontend/src/api/client.ts:18-40 | A refresh's answer: a new token is kept and shared, a 401 or 403 empties the session, anything else keeps it |
| `SessionHistory.NothingDelivered` | frontend/src/api/client.ts:125-131 | A call or socket whose refresh gave nothing empties the session, a call only away from the public pages |
| `Session.CallsProgress` | frontend/src/api/client.ts:120-132 | In every state, every event of a call strictly decreases the steps it has left and touches no other call |
| `Session.NoCallIsStuck` | frontend/src/api/client.ts:57-143 | A call is done, or its own next event or the settling of its flight can happen |
| `Session.FlagAlwaysAgrees` | frontend/src/stores/auth.store.ts:30-64 | In every reachable state isAuthenticated holds exactly when a non-empty token is held, as long as pages give no empty token |
| `Session.StorageAlwaysMirrors` | frontend/src/stores/auth.store.ts:30-64 | In every reachable state of a run whose storage calls succeed storage mirrors memory, so a page load restores the session |
| `AuthStores.AuthStore.SetAuth` | frontend/src/stores/auth.store.ts:35-41 | Memory is set whatever storage does; the flag is right if and only if the token is not empty; storage mirrors memory if its calls succeed |
| `AuthStores.AuthStore.SetToken` | frontend/src/stores/auth.store.ts:43-48 | The same for the token alone, with the mirror kept if its call succeeds |
| `AuthStores.AuthStore.SetUser` | frontend/src/stores/auth.store.ts:50-55 | The flag keeps its truth and a successful call keeps the mirror |
| `AuthStores.AuthStore.ClearAuth` | frontend/src/stores/auth.store.ts:57-63 | Memory is emptied whatever storage does, and the flag is right |
| `AuthStores.FlagAgreesIff` | frontend/src/stores/auth.store.ts:30-64 | From any page load and after any setters the flag tells whether a usable token is held, unless and only unless the last token given was empty |
| `AuthStores.MemoryIsLast` | frontend/src/stores/auth.store.ts:30-64 | After any setters memory holds the last token and the last user given or cleared: setting one leaves the other alone |
| `AuthStores.EmptyTokenRaisesTheFlag` | frontend/src/stores/auth.store.ts:35-41 | The one case: an empty token raises the flag |
| `AuthStores.StorageMirrors` | frontend/src/stores/auth.store.ts:17-64 | If storage calls succeed storage mirrors memory, and a page load restores the session |
| `AuthStores.MirrorBreaksIff` | frontend/src/stores/auth.store.ts:35-63 | The mirror breaks if and only if a failed storage call had something to change |
| `Subcards.SubcardSection.HandleCreateSubcard` | frontend/src/components/card/SubcardSection.tsx:66-98 | A blank title does nothing; otherwise the temporary row is appended and the rollup recounted; the rollup stays right |
| `Subcards.SubcardSection.OnCreateAnswer` | frontend/src/components/card/SubcardSection.tsx:104-150 | Success swaps the temporary row and keeps the rollup; refusal and exception remove it and recount; an honest answer keeps the rollup right, a failure makes it right and leaves no row with the id |
| `Subcards.SubcardSection.HandleAttachSubcard` | frontend/src/components/card/SubcardSection.tsx:153-169 | The selected card is appended if the board has it; the rollup is right afterwards |
| `Subcards.SubcardSection.HandleDetachSubcard` | frontend/src/components/card/SubcardSection.tsx:188-201 | Every row with the id goes and the rollup is recounted; the rollup is right afterwards |
| `Subcards.SubcardSection.HandleToggleSubcardComplete` | frontend/src/components/card/SubcardSection.tsx:213-233 | The rows with the id take the state opposite to the clicked one and the rollup is recounted; the rollup is right afterwards |
| `Subcards.ToggleTurnsRows` | frontend/src/components/card/SubcardSection.tsx:214-224 | Every row in its place: rows with the clicked id turn, flags and status together, to the opposite of the clicked row and keep id and title, the others stay |
| `Subcards.ToggleTwice` | frontend/src/components/card/SubcardSection.tsx:214-224 | Clicking a row and clicking it again as it is then shown brings back whether it is done, and no other row changes |
| `Subcards.SuccessSwapsRows` | frontend/src/components/card/SubcardSection.tsx:109-117 | Every row in its place: rows with the temporary id become the server's card, the others stay |
| `Subcards.NewRowsGoLast` | frontend/src/components/card/SubcardSection.tsx:71-101 | A created row goes last with the typed title, not done; an attached card goes last as it is |
| `Subcards.RollupCounts` | frontend/src/components/card/SubcardSection.tsx:86-98 | The rollup counts all rows and those complete or with status done; without a rollup the display counts by the two flags |
| `Subcards.AgreesIsShown` | frontend/src/components/card/SubcardSection.tsx:246-250 | When the data agrees, the displayed rollup is the count of the displayed rows |
| `Subcards.RunAgrees` | frontend/src/components/card/SubcardSection.tsx:53-244 | Over every run with honest answers the rollup equals the rows' length and done count |
| `Subcards.SwapKeepsRollupIff` | frontend/src/components/card/SubcardSection.tsx:109-117 | After a success the cached rollup is right if and only if the server's card is as done as every row with the temporary id has become, however many there are |
| `Subcards.ToggleBeforeAnswer` | frontend/src/components/card/SubcardSection.tsx:109-117 | Ticking a row before its create is answered ends with "1 of 1 done" over a row that is not done |
| `Subcards.RightAfterFailure` | frontend/src/components/card/SubcardSection.tsx:119-149 | When a create fails the rows and a right rollup are those of the run without it; what is displayed is the same if and only if that run displayed a right rollup |
| `Subcards.FailedCreateLeavesNoTrace` | frontend/src/components/card/SubcardSection.tsx:66-244 | For every interleaving with creates, answers, attaches, detaches, toggles and reloads, a failed create ends with the same rows, and under honest answers the same rollup |
| `Subcards.SharedTempIdLosesBoth` | frontend/src/components/card/SubcardSection.tsx:71 | Two creates in one millisecond share their temporary id, and the failure of one removes both |
| `Subcards.FailureRemovesItsRowIff` | frontend/src/components/card/SubcardSection.tsx:121-147 | A failed create removes exactly its own row if and only if no other row carries its temporary id |
| `Paging.BuildCursorPagination` | src/common/utils/pagination.util.ts:10-28 | The page is a prefix of at most `limit` items, hasMore says whether something was cut, and the cursor is that of the last item kept |
| `Paging.ActivityFeed.Load` | frontend/src/components/activity/ActivityFeed.tsx:28-51 | A page replaces the list without a cursor and extends it with one; a failure changes nothing |
| `Paging.InsertKeepsOrder` | src/modules/activity/repositories/activity.repository.ts:79-83 | The table stays strictly newest-first under insertions |
| `Paging.InsertSeenIff` | src/modules/activity/repositories/activity.repository.ts:67-73 | A new row changes what lies past a cursor if and only if it is itself past it |
| `Paging.PagingIsExact` | frontend/src/components/activity/ActivityFeed.tsx:28-51 | In every reachable state, whatever is inserted ahead of the cursor and however many loads fail, the list is exactly the first pages of the feed as first fetched |
| `Paging.ReloadStartsAfresh` | frontend/src/components/activity/ActivityFeed.tsx:42-61 | Loading without a cursor replaces whatever the list showed by the newest rows of that moment |
| `Paging.PagingEnds` | src/common/utils/pagination.util.ts:10-28 | When there is no more, exactly the rows of the first fetch are shown, in max(1, ceil(n / limit)) pages |
| `Paging.LimitZeroNeverEnds` | src/common/utils/pagination.util.ts:17-22 | With limit 0 more is always promised and no cursor ever given |
| `Sanitizer.TagReplacementIsStrip` | src/common/utils/sanitize-text.util.ts:7 | The regular-expression replacement is the scan that drops from each "<" to the nearest ">" |
| `Sanitizer.WordReplacementIsDecode` | src/common/utils/sanitize-text.util.ts:8-9 | Each entity replacement is one scan |
| `Sanitizer.SanitizeIsScans` | src/common/utils/sanitize-text.util.ts:5-12 | The whole function as scans |
| `Sanitizer.SanitizedHasNoTag` | src/common/utils/sanitize-text.util.ts:5-12 | For every input no "<" in the result is followed later by ">" |
| `Sanitizer.StripIsIdempotent` | src/common/utils/sanitize-text.util.ts:7 | Stripping twice is stripping once; it changes nothing if and only if there is no tag |
| `Sanitizer.DecodesOnce` | src/common/utils/sanitize-text.util.ts:8-9 | The two replacements in sequence are one simultaneous decode |
| `Sanitizer.NoEntityRightAfterDecoding` | src/common/utils/sanitize-text.util.ts:8-9 | Right after decoding no "&lt;" or "&gt;" is left |
| `Sanitizer.SanitizeKeepsIff` | src/common/utils/sanitize-text.util.ts:5-12 | A text is left alone if and only if it has no tag, no entity and no outer white space |
| `Sanitizer.StableIffNoEntity` | src/common/utils/sanitize-text.util.ts:5-12 | A second call changes nothing if and only if the first left no entity |
| `Sanitizer.ScanJoinsIff` | src/common/utils/sanitize-text.util.ts:10 | The strip joins an entity if and only if four characters outside tags, with only tags between them, spell one |
| `Sanitizer.IdempotentIff` | src/common/utils/sanitize-text.util.ts:5-12 | Sanitising is idempotent on an input if and only if in its stripped and decoded text no four characters outside tags, with only tags between them, spell an entity |
| `Sanitizer.JoiningNeedsATag` | src/common/utils/sanitize-text.util.ts:10 | The text of a joining input holds no entity before the strip but a complete tag |
| `Sanitizer.SecondCallDecodesMore` | src/common/utils/sanitize-text.util.ts:10 | A concrete input whose second strip joins a new entity |
| `Seed.Database.FindFirst` | prisma/seed.ts:234-237 | The earliest row with the natural key |
| `Seed.Database.EnsureListRow` | prisma/seed.ts:228-273 | Create, converge drift, or backfill the rank chain: exactly the `Ensure` step |
| `Seed.Database.EnsureCardRow` | prisma/seed.ts:292-341 | As above for cards; what each column holds afterwards is `SeedColumns.EnsureSettles` |
| `Seed.Database.EnsureCommentRow` | prisma/seed.ts:362-401 | As above for comments |
| `Seed.Database.EnsureDocumentRow` | prisma/seed.ts:502-540 | As above for documents |
| `Seed.Database.EnsureInvitationRow` | prisma/seed.ts:559-587 | As above for invitations |
| `Seed.Database.EnsureRefreshTokenRow` | prisma/seed.ts:589-613 | As above for refresh tokens |
| `Seed.Database.NextListRank` | prisma/seed.ts:59-63 | The chain's next rank, which becomes its head |
| `SeedIdempotence.SeedingIsIdempotent` | prisma/seed.ts:228-613 | From every store and for every program of ensure-calls, each with parameters that are any function of the ids earlier calls returned, repeated keys included, a second run ends with the same rows and ids, creates nothing and allocates no card rank |
| `SeedIdempotence.UpdatesMerge` | prisma/seed.ts:292-321 | Two updates of one row are one update with merged parameters |
| `SeedIdempotence.RowsAbsorb` | prisma/seed.ts:228-613 | After a run the merged update of all calls that named a row changes nothing in it any more |
| `SeedColumns.EnsureSettles` | prisma/seed.ts:228-613 | One call, table by table: the earliest row with the key gets every given value in its column, keeps the columns not given and those set once, a stored yjsState included, and no other row changes; without such a row one is added with the given values and the defaults |
| `SeedColumns.LastGivenStands` | prisma/seed.ts:228-613 | After any run every column of every row holds the last value that a call naming the row gave it, or else what it held before, or the default of a new row |
| `SeedColumns.FirstGivenStands` | prisma/seed.ts:516-587 | Creator, invitation token, token owner and family, and the yjsState keep their first content: the stored one, or else the first given |
| `SeedIdempotence.SecondRunRetraces` | prisma/seed.ts:228-613 | The second run returns, call by call, the id of the row the first run found or created, and leaves every row updated by what reached it in the first |
| `SeedIdempotence.RunKeepsRows` | prisma/seed.ts:516-528 | No run removes a row, changes its id, key or rank, overwrites a stored yjsState or replaces an invitation's token |
| `SeedRanks.StepKeepsOrderIff` | prisma/seed.ts:254-268 | One call keeps a board or list in rank order if and only if it creates nothing there or every rank there is below the chain's next |
| `SeedRanks.RunKeepsOrderIff` | prisma/seed.ts:228-341 | A run that starts with empty chains, over any store in rank order, keeps a board or list in order if and only if every rank there is below the rank of the first row the run creates there |
| `SeedRanks.CardsOpenInTheMiddle` | prisma/seed.ts:292-341 | Cards are never backfilled: the first card a run creates in a list gets the middle rank |
| `SeedRanks.SeededRanksAscend` | prisma/seed.ts:59-67 | From an empty store, rows of one scope get strictly ascending ranks in creation order |
| `SeedRanks.BackfillCanCollide` | prisma/seed.ts:254-261 | On a partly populated database a new list can get the rank of an existing one |
| `SeedRanks.CardsCollide` | prisma/seed.ts:322-327 | After a restart a new card gets the rank of the list's first card |
| `Colors.HashUserId` | src/common/utils/collaborator-color.util.ts:30-37 | The signed 32-bit loop computes unsigned FNV-1a over the UTF-16 code units, in [0, 2^32) |
| `Colors.SignedStep` | src/common/utils/collaborator-color.util.ts:33-34 | One xor and multiply, seen through the unsigned conversion, is one FNV-1a step |
| `Colors.OneUnitApart` | src/common/utils/collaborator-color.util.ts:30-37 | Two ids of one length that differ in exactly one code unit never share a hash |
| `Colors.AssignCollaboratorColor` | src/common/utils/collaborator-color.util.ts:50-75 | The probing loop computes `Assigned` |
| `Colors.FirstFreeIsAssigned` | src/common/utils/collaborator-color.util.ts:57-70 | The colour assigned is the first untaken one in cyclic order from hash mod 16, and is a hue if and only if the palette is exhausted |
| `Colors.HueIs` | src/common/utils/collaborator-color.util.ts:73 | The fallback hue is (hash + 40) mod 360 |
| `Colors.FallbackHuesCollideIff` | src/common/utils/collaborator-color.util.ts:72-74 | Two fallback colours are equal if and only if the hashes agree modulo 360: they are not "distinct" as documented |
| `Colors.EqualHues` | src/common/utils/collaborator-color.util.ts:72-74 | Two users whose fallback colours are one |
| `Colors.SameColorIff` | src/common/utils/collaborator-color.util.ts:57-74 | Two ids get one colour against the same taken colours if and only if every colour on the way from one hash's own to the other's is taken, or, with the palette exhausted, the hashes agree modulo 360 |
| `Colors.SameStartIff` | src/common/utils/collaborator-color.util.ts:57 | Ids that differ in their last code unit only start at the same palette colour if and only if the units agree modulo 16 |
| `Presence.EditorPresence.AddEditor` | src/modules/document/realtime/editor-presence.service.ts:21-28 | The socket's entry is set in its document and no other document changes |
| `Presence.EditorPresence.RemoveEditor` | src/modules/document/realtime/editor-presence.service.ts:37-46 | The socket's entry goes and is returned; an emptied document disappears |
| `Presence.EditorPresence.AssignColor` | src/modules/document/realtime/editor-presence.service.ts:69-86 | The user's known colour, otherwise an assignment against all colours present |
| `Presence.JoinKeepsIff` | src/modules/document/realtime/editor-presence.service.ts:69-86 | A join keeps "same user if and only if same colour" exactly when the user is present, or the palette has room, or nobody shows the user's one hue |
| `Presence.ColorsStayDistinct` | src/modules/document/realtime/editor-presence.service.ts:69-86 | Over every run of joins and leaves with at most 16 users present at once, colours tell users apart and a user's tabs agree |
| `Presence.NoMoreColorsThanUsers` | src/common/utils/collaborator-color.util.ts:60-70 | Pigeonhole: as long as colours tell users apart there are no more colours than users |
| `PresenceJoins.RegisterKeepsIff` | src/modules/document/realtime/document.gateway.ts:137-149 | A registration, whatever happened since its colour was asked for, keeps colours and users matched if and only if, among the other sockets' entries, the colour is still the user's own, or the user is absent and it is nobody's |
| `PresenceJoins.AlwaysGoodIff` | src/modules/document/realtime/document.gateway.ts:137-149 | Over every interleaving of asks, registrations and leaves, every state matches colours and users if and only if every colour still fits at the moment it is registered |
| `PresenceJoins.AskedAndRegistered` | src/modules/document/realtime/document.gateway.ts:137-149 | A handler that nothing interrupts is the one-step join of `ColorsStayDistinct` |
| `PresenceJoins.OverlappingJoinsKeepIff` | src/modules/document/realtime/document.gateway.ts:137-149 | When both handlers ask in one room and nobody else joins or leaves before both have registered: colours and users stay matched if and only if each join would keep them alone and they are not two new users whose hashes make the same choice among the colours present |
| `PresenceJoins.BothStillFitIff` | src/modules/document/realtime/document.gateway.ts:137-149 | The same condition, from the two registrations' own conditions |
| `PresenceJoins.OverlapInEmptyRoom` | src/modules/document/realtime/document.gateway.ts:137-149 | A family of user ids for which overlapping joins collide although joins one after the other do not |
| `PresenceJoins.LeaveBetweenAsks` | src/modules/document/realtime/document.gateway.ts:137-149 | A run in which a leave between two asks makes two users collide who would not clash in the room they register in |
| `PresenceJoins.SuchUsers` | src/common/utils/collaborator-color.util.ts:35-57 | Three one-letter ids for that run, evaluated |
| `AvatarHash.GetDeterministicColor` | frontend/src/components/common/Avatar.tsx:25-42 | An absent or empty text gets the default colour, any other the one at its hash's index, always in range |
| `AvatarHash.HashIsPolynomial` | frontend/src/components/common/Avatar.tsx:27-30 | The hash is congruent to the base-31 polynomial modulo 2^32 |
| `AvatarHash.HashIsBounded` | frontend/src/components/common/Avatar.tsx:27-30 | Its absolute value is at most n * (2^31 + 65535) |
| `AvatarHash.DoublesAreExact` | frontend/src/components/common/Avatar.tsx:27-30 | While that bound is below 2^53 no turn of the loop leaves the integers a double holds exactly |
| `AvatarHash.ColorIsAlternatingSum` | frontend/src/components/common/Avatar.tsx:27-41 | The colour is decided by the alternating sum of the code units modulo 8, up to sign |
| `EmailGuard.CanActivate` | src/common/guards/email-verified.guard.ts:40-75 | Exempt requests pass without a lookup; any other follows the documented policy over the database alone if and only if no lookup fails and no cache entry vouches for an unverified user, and always does with a sound cache and a working database |
| `EmailGuard.IsVerifiedInDb` | src/common/guards/email-verified.guard.ts:81-108 | A cached "1" answers at once; otherwise the database answers, and a positive answer is cached for 300 s if Redis allows |
| `EmailGuard.TurnsAwayIff` | src/common/guards/email-verified.guard.ts:16-22 | The policy turns a request away if and only if it is unmarked, not GET, HEAD or OPTIONS, and carries a user whose claim is unverified and whom the database does not call verified |
| `EmailGuard.UninterruptedCheck` | src/common/guards/email-verified.guard.ts:81-108 | A check in three steps that nothing interrupts leaves and returns what the method does |
| `EmailGuard.StepKeeps` | src/common/guards/email-verified.guard.ts:81-108 | Every step of any interleaving keeps "the cache and every check under way vouch for the user only if the database does", except the user's deletion |
| `EmailGuard.CacheNeverChangesTheAnswer` | src/common/guards/email-verified.guard.ts:77-108 | In every run a check about a user who was never deleted returns what the database says at that moment |
| `EmailGuard.DeletionLeavesTheAnswerStale` | src/common/guards/email-verified.guard.ts:77-80 | A run in which a deleted user is still vouched for: "irreversible" does not cover deletion |
| `EmailGuard.CachedIff` | src/common/guards/email-verified.guard.ts:97-103 | After any run a user is cached if and only if a check that had found the flag wrote so less than 300 s ago |
| `EmailGuard.WrongIff` | src/common/guards/email-verified.guard.ts:81-108 | After any run a check is wrong if and only if the user is not verified then and it reads an entry written less than 300 s ago or is about to return what its own earlier lookup found |
| `EmailGuard.StaleAtMostFiveMinutes` | src/common/guards/email-verified.guard.ts:97-103 | Whatever is under way, only a write of the last five minutes lets the cache vouch for a user |
| `ConsumeOnce.Consume` | src/common/rabbitmq/idempotency.util.ts:7-20 | True if and only if the key is not live, which sets it |
| `ConsumeOnce.ReleaseKey` | src/modules/notification/listeners/notification-consumer.listener.ts:153-162 | The key is deleted |
| `ConsumeOnce.WinsIff` | src/common/rabbitmq/idempotency.util.ts:7-20 | Over every run in time order a call returns true if and only if no earlier winner's window for the id is still open and unreleased |
| `ConsumeOnce.WinnersAreATtlApart` | src/common/rabbitmq/idempotency.util.ts:3-6 | Two true results for one id are at least the first one's ttl apart unless the key was released in between |
| `ConsumeOnce.RetryAfterRelease` | src/modules/notification/listeners/notification-consumer.listener.ts:124-137 | After a release the next call for the id wins, so a scheduled retry is processed |
| `RedisStore.Redis.SetNx` | src/common/rabbitmq/idempotency.util.ts:12-18 | SET with EX and NX: succeeds if and only if the key is not live, and then sets value and expiry |
| `ConsumeOnce.IdsDoNotInterfere` | src/common/rabbitmq/idempotency.util.ts:12-18 | What Redis says about an id is what it would say had only that id's operations run |
| `RetryQueue.RabbitPublisher.PublishRetry` | src/common/rabbitmq/publisher.service.ts:55-98 | Dropped when disconnected; otherwise scheduled on the wait queue, or refused when the queue exists with other arguments |
| `RetryQueue.NamesParseBack` | src/common/rabbitmq/publisher.service.ts:73-74 | Parsing a name from the right gives back exchange, sanitised key and decimal delay, whatever dots the exchange has |
| `RetryQueue.SameNameIff` | src/common/rabbitmq/publisher.service.ts:73-74 | Two requests share a queue if and only if exchange, sanitised key and delay agree |
| `RetryQueue.KeysStayApartIff` | src/common/rabbitmq/publisher.service.ts:73 | Sanitising is injective over an alphabet if and only if at most one of its characters becomes "_" |
| `RetryQueue.RefusedIff` | src/common/rabbitmq/publisher.service.ts:76-83 | In every run a request is refused if and only if the first one for its exchange, sanitised key and delay had another key |
| `RetryQueue.NeverRefusedIff` | src/common/rabbitmq/publisher.service.ts:50-54 | No run over an alphabet is ever refused if and only if at most one of its characters becomes "_" |
| `RetryQueue.DotAndUnderscoreConflict` | src/common/rabbitmq/publisher.service.ts:50-54 | Keys "a.b" and "a_b" conflict, against the documented purpose of the name |
| `RetryQueue.MessagesReturnHome` | src/common/rabbitmq/publisher.service.ts:76-88 | In every run a waiting message will be dead-lettered to the exchange and key it was published for, after its delay |
| `RetryQueue.QueuesHoldWhatWasSent` | src/common/rabbitmq/publisher.service.ts:76-98 | In every run each queue holds exactly the messages of its requests that were not refused, in order |
| `RetryQueue.SanitizedIs` | src/common/rabbitmq/publisher.service.ts:73 | Letters, digits, "_" and "-" stay and any other character becomes "_", each in its place |
| `Staleness.BoardSubscription.OnEntityEvent` | frontend/src/pages/BoardPage.tsx:198-220 | A stale event does nothing; any other is noted if it names a card and a time, and reloads the board or marks the view |
| `Staleness.SeenIsLatest` | frontend/src/pages/BoardPage.tsx:205-211 | With parseable timestamps the map holds each card's latest instant |
| `Staleness.PassedStampsIncrease` | frontend/src/pages/BoardPage.tsx:206-210 | Timestamps that pass the filter strictly increase per card |
| `Staleness.PassedIff` | frontend/src/pages/BoardPage.tsx:205-211 | With parseable timestamps an event passes if and only if every earlier one about its card is strictly older |
| `Staleness.NotedIs` | frontend/src/pages/BoardPage.tsx:200-211 | The card is cardId or else id, the time updatedAt or else that of changes; without either nothing is noted |
| `Staleness.LastDecides` | frontend/src/pages/BoardPage.tsx:207 | Whether a card ends with an instant at all is decided by the last event about it |
| `Staleness.OrderIndependentIff` | frontend/src/pages/BoardPage.tsx:198-220 | The final map is the same under every permutation of events if and only if no card gets both parseable and unparseable timestamps |
| `Staleness.OrderMatters` | frontend/src/pages/BoardPage.tsx:205-211 | One event with a timestamp that does not parse, in two orders, ends in two maps |
| `LineCol.PositionsIncrease` | frontend/src/components/document/DocumentEditor.tsx:47-53 | Positions strictly increase, line first, with the clamped offset |
| `LineCol.SamePositionIff` | frontend/src/components/document/DocumentEditor.tsx:47-53 | Two offsets share a position if and only if they clamp to the same place |
| `LineCol.OffsetOfPosition` | frontend/src/components/document/DocumentEditor.tsx:47-53 | From an offset to its position and back is clamping |
| `LineCol.PositionOfOffset` | frontend/src/components/document/DocumentEditor.tsx:47-53 | From a position of the text to its offset and back is the identity |
| `LineCol.InsertMarkdown` | frontend/src/components/document/DocumentEditor.tsx:299-323 | The selection, or a placeholder, is wrapped; the cursor stands right before the suffix and its position is that offset |
| `HierarchyCalls.CardService.ResumeCreate` | src/modules/board/card/services/card.service.ts:151-204 | From one await to the next: the parent must be active and no subcard when it is read; the insert checks nothing, makes no cycle, and a third level if and only if the parent has an active parent by then |
| `HierarchyCalls.CardService.ResumeAttach` | src/modules/board/card/services/card.service.ts:495-530 | From one await to the next: the tests after each of the three reads, in order, and the one update, which closes a cycle or makes a third level exactly when the state at that moment says so |
| `HierarchyCalls.CardService.ResumeDetach` | src/modules/board/card/services/card.service.ts:562-570 | The read with its tests, then the update; no cycle and no third level arises |
| `HierarchyCalls.CardService.ResumeArchive` | src/modules/board/card/services/card.service.ts:711-716 | The read with its test, then the update; no cycle and no third level arises |
| `HierarchyCalls.CardService.ResumeUnarchive` | src/modules/board/card/services/card.service.ts:743-748 | Any card is restored without a test; no cycle arises, and a third level if and only if the card completes a chain of three at that moment |
| `HierarchyCalls.CardService.ResumeDelete` | src/modules/board/card/services/card.service.ts:807-821 | The read with its tests, then the update; no cycle and no third level arises |
| `HierarchyCalls.CheckIsFirstRefusal` | src/modules/board/card/services/card.service.ts:480-528 | In one and the same state the reads' tests, one after the other, give the outcome of the whole check |
| `HierarchyCalls.UninterruptedIsOneStep` | src/modules/board/card/services/card.service.ts:480-539 | A call that nothing interrupts has the outcome and the effect of the operation in one step |
| `Hierarchy.HangingKeepsForestIff` | src/modules/board/card/repositories/card.repository.ts:395-400 | In any forest, giving a card a parent keeps a forest if and only if the card is neither the parent nor an ancestor of it |
| `Hierarchy.WriteKeepsForestIff` | src/modules/board/card/repositories/card.repository.ts:170-425 | A write, checked or not, keeps a forest if and only if it does not hang a card under itself or under something below it |
| `Hierarchy.WriteKeepsShallowIff` | src/modules/board/card/repositories/card.repository.ts:170-425 | A write, checked or not, keeps "no three active cards in a chain" if and only if, at that moment, it does not give an active card an active parent that has an active parent or that card an active subcard, or restore a card into a chain |
| `Hierarchy.CheckDoneIff` | src/modules/board/card/services/card.service.ts:151-821 | When each operation succeeds, field by field |
| `Hierarchy.AttachRefusalIs` | src/modules/board/card/services/card.service.ts:495-528 | Which refusal an attachment gets |
| `Hierarchy.RefusalIs` | src/modules/board/card/services/card.service.ts:151-821 | Which refusal every other operation gets |
| `Hierarchy.WrittenIs` | src/modules/board/card/repositories/card.repository.ts:23-419 | A write changes one field of one card or adds one card |
| `Hierarchy.DetachUndoesAttach` | src/modules/board/card/services/card.service.ts:530-570 | An attachment hangs the card under the parent, and detaching it gives the former cards back |
| `Hierarchy.UnarchiveUndoesArchive` | src/modules/board/card/services/card.service.ts:711-748 | An archived card is not active, and restoring it gives the former cards back |
| `Hierarchy.DeletedStaysDeleted` | src/modules/board/card/services/card.service.ts:784-821 | A deleted card is never active again in any run of operations |
| `HierarchyCalls.AlwaysForestIff` | src/modules/board/card/services/card.service.ts:151-821 | Over every interleaving of calls, every state is free of cycles if and only if no write, at its moment, hangs a card under itself or under something below it |
| `HierarchyCalls.AlwaysShallowIff` | src/modules/board/card/services/card.service.ts:151-821 | Over every interleaving of calls, every state keeps the depth limit if and only if no write, at its moment, makes three active cards in a chain |
| `HierarchyCalls.OverlapIsReachable` | src/modules/board/card/services/card.service.ts:495-530 | Any operations that pass their checks in one state can all be written after it, in the order listed |
| `HierarchyCalls.OverlappedIsForestIff` | src/modules/board/card/services/card.service.ts:495-530 | Two attachments, and no other write, both checked before either is written close a cycle if and only if each hangs the other's parent |
| `HierarchyCalls.OverlappedIsShallowIff` | src/modules/board/card/services/card.service.ts:495-530 | They make a third level if and only if one hangs the other's parent |
| `HierarchyCalls.CreatedWhileAttachedIff` | src/modules/board/card/services/card.service.ts:151-204 | A subcard created while a card is attached makes a third level if and only if that card is its parent |
| `HierarchyCalls.OverlapReachesThreeLevels` | src/modules/board/card/services/card.service.ts:495-530 | A run of two overlapping attachments, without a restore, that ends with three levels |
| `HierarchyCalls.CreateReachesThreeLevels` | src/modules/board/card/services/card.service.ts:151-204 | A run of a creation during an attachment, without a restore, that ends with three levels |
| `HierarchyCalls.OverlapClosesACycle` | src/modules/board/card/services/card.service.ts:495-530 | A run in which two fresh cards are attached under each other at the same moment |
| `HierarchyCalls.ThreeOverlapsCloseACycle` | src/modules/board/card/services/card.service.ts:495-530 | A run of three overlapping attachments that closes a cycle although every two of them leave a forest |
| `Hierarchy.ForestHasNoCycle` | src/modules/board/card/services/card.service.ts:511-516 | In a forest no walk up the parents returns to its start |
| `Hierarchy.RunsKeepForest` | src/modules/board/card/services/card.service.ts:480-539 | No run of operations one after the other, none interrupted, makes a card its own ancestor |
| `Hierarchy.StepKeepsShallowIff` | src/modules/board/card/services/card.service.ts:480-757 | One uninterrupted operation keeps "no three active cards in a chain" if and only if it does not restore an archived card into such a chain |
| `Hierarchy.RunsWithoutRestoresAreShallow` | src/modules/board/card/services/card.service.ts:151-579 | Operations one after the other, none interrupted and none a restore, keep the documented depth limit |
| `Hierarchy.AnyDepthIsReachable` | src/modules/board/card/repositories/card.repository.ts:421-425 | For every n a run of operations ends with an active chain n deep, because only active subcards are counted |
| `Hierarchy.DepthLimitFails` | README.md:196 | The documented limit of depth 2 does not hold |

## Left out

- All JSX, styling, navigation, toasts, modals and page components: user interface.
- NestJS modules, controllers, interceptors, decorators, configuration, health checks, mail and S3: framework plumbing.
- LexoRank: ranks are a strict order (reals on the board, integers in the seed); the server may pick any rank strictly
  between two bounds, a fixed one or none for equal bounds, and `genNext` is larger. Running out of ranks and malformed
  rank strings are not modelled.
- Prisma, Redis, RabbitMQ and Socket.IO: only the atomic operation used is modelled. Replica lag, unique indexes, a Redis
  command that fails inside `consumeOnce`, and the channel that the broker closes after a refusal are not.
- Yjs, bcrypt, JWT and SHA-256: libraries; no convergence claim is made.
- The cursor string: a cursor is the pair it encodes.
- Feeds under a changed filter: a page is fetched for the filter it started with, and the button is disabled while one loads.
- Other filters of `filterCards`: text, label and assignee tests are any predicate on cards.
- Message texts of `apiFetch` errors, headers and the request body: only status, envelope and codes decide the protocol.
- `normalizeMentions` and mention rendering: their correctness depends on member names that do not look like e-mail text.
- RBAC weights, `isCardComplete`, `formatMinutes`, `computeBackoff`, `retryCountFrom`, `getInitials` and the viewers list
  of the board page: they would only add easy members.
- The other ensure-helpers of the seed (users, workspaces, boards, checklists, attachments, snapshots, time entries):
  instances of the same find, update or create pattern; `main` and its data.
- Consumer retry loop, dead-letter policy and refresh-token rotation on the server: not part of this model.
- The document a Markdown insertion rewrites in Yjs, and the delay before the cursor is set: only the text and the cursor.
- Display name and avatar of an editor: they play no part in colours.
- Lists and boards around cards in `Hierarchy`: one board whose lists exist; a card's UUID is a number. The other awaits of
  a call (board, assignees, labels, last card of the list) only let time pass; a call they refuse is one never resumed.
- BoardSessions.SessionsShowTheOptimisticBoard: a step bundles an accepted move and the refetch after it; refetches that
  overtake the move, refused moves and second drags before the refetch are outside the sessions.
- Colors.HueIs: the hue is computed in thousandths of a degree; the double's rounding error is far below the 0.128 that
  decides the rounding, and is not modelled.
- AvatarHash.HashIsPolynomial: stated over integers; beyond the length where `DoublesAreExact` applies the double may round.
- RetryQueue.NamesParseBack: delays are natural numbers, as every caller passes; a fractional delay is not modelled.
- ConsumeOnce.WinsIff: a time to live below one second, which Redis refuses, is excluded by the type of the argument.
- LineCol.InsertMarkdown: the selection lies within the text, as the text area guarantees.
