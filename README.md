# Escape-Game, modelled in Dafny

Escape-Game is a cooperative web escape game for two to four players. One player creates a
room and shares its six-character code; the others join with it. The host starts the game from
the waiting room. The team then solves a chain of puzzle pages:

1. a book title hidden behind a Caesar shift;
2. a two-team mission (the "labo" DNA sequence and the "oncopole" questionnaire, which share the lock code 1031);
3. a six-piece map;
4. a plant name.

Rooms, players, enigma progress and chat live in four hosted tables behind a small store class.

This project models, in Dafny:

- **The store** (`lib/game-store.ts`), in `store.dfy`:
  - a `GameStore` class whose fields are the four tables and an id supply;
  - one pure step function per mutating operation;
  - lemmas about those functions: `createRoom`'s two inserts with rollback, `joinRoom`'s admission rules, the non-idempotent `startGame`/`advanceEnigma`, the `assignTeams` split, and a table invariant every operation keeps. The invariant covers capacity, one host per room, and colour and avatar by join order.
- **The Caesar decoder and the book puzzle** (`app/enigme-1/page.tsx`), in `caesar.dfy` and `book_puzzle.dfy`.
- **The elapsed-time display** (`components/game-timer.tsx`), in `timer.dfy`.
- **The map puzzle** (`app/enigme-3/page.tsx`), in `map_puzzle.dfy`.
- **The two team locks** (`app/enigme-2/labo/page.tsx`, `app/enigme-2/oncopole/page.tsx`), in `labo.dfy` and `oncopole.dfy`.
- **The plant answer** (`app/enigme-4/page.tsx`), in `herbalist.dfy`.
- **The waiting room's start gate and redirects** (`app/auth/login/page.tsx`), in `waiting_room.dfy`.
- **The home page's create/join forms** (`app/page.tsx`), in `home.dfy`.
- **The five-step progress bar** (`components/progress-bar.tsx`), in `progress_bar.dfy`.
- **Shared helpers:**
  - `text.dfy` models JavaScript's `trim` (the ECMAScript whitespace and line-terminator set) and `toUpperCase` (on ASCII letters);
  - `wrappers.dfy` holds `Option` and `Result`.

Pages are classes whose fields are the React state. Handlers are methods. A navigation is
returned as the target path (`Option<string>`). A store call that can throw returns a `Result`.

The clock, the generated room code and the faults of the hosted database are parameters:

- `now`;
- `code`;
- `roomInsertError`, `playerInsertError`, `hostPatchFails`, `insertError` and `storeThrows`.

Every store method is proved against its step function:
`ensures r == o.result && State() == o.tables` with `o := XStep(old(State()), ...)`. The
promises of the source are lemmas about those step functions.

Calling `advanceEnigma` twice with the same `n` leaves `current_enigma` at `n + 1`, because the
new value is computed from the argument and not from the room (lib/game-store.ts:257-258). It
also duplicates the progress rows for `n + 1`. `AdvanceEnigmaTwice` proves both.

## Model

| member | source | states |
|---|---|---|
| Store.Single | lib/game-store.ts:125-129 | `.single()` yields a row exactly when exactly one row matches, and then that row |
| Store.PlayersInMembers | lib/game-store.ts:194-200 | the players of a room are exactly the stored players with that room id |
| Store.PlayersInAppend | lib/game-store.ts:155-165 | inserting a player adds it at the end of its own room's list and changes no other room's list |
| Store.RankIndex | lib/game-store.ts:153 | the selection keeps join order: its i-th player is a stored row whose rank in its room (how many of the room joined before it) is i |
| Store.OneHostPerRoom | lib/game-store.ts:81-91 | under the table invariant every stored room has exactly one player flagged host, and it is the room's first player |
| Store.DistinctColoursInRoom | lib/game-store.ts:44-46 | two players of the same room never share a colour or an avatar |
| Store.PaletteEntriesDistinct | lib/game-store.ts:44-46 | the four colours are pairwise distinct, and so are the four avatars |
| Store.OpenRoomKeepsInvariant | lib/game-store.ts:62-91 | a new room with its host as first player keeps the invariant, and the host is the room's only player |
| Store.AdmitKeepsInvariant | lib/game-store.ts:153-165 | admitting a non-host below capacity, with the palette slot of its join position, keeps the invariant |
| Store.RoomRowKeepsInvariant | lib/game-store.ts:212-215 | rewriting a room row (same id, same capacity) keeps the invariant |
| Store.ProgressRowKeepsInvariant | lib/game-store.ts:225-228 | inserting a progress row with a fresh id keeps the invariant |
| Store.Half | lib/game-store.ts:273 | `Math.ceil(k/2)`: k is twice the half or one less |
| Store.LabelStep | lib/game-store.ts:275-278 | one loop iteration labels the next player of the room in join order and nothing else |
| Store.TeamsInJoinOrder | lib/game-store.ts:270-278 | after assignTeams the first ceil(k/2) players of the room in join order are "labo", the rest "oncopole" |
| Store.TeamsTouchOnlyTheRoom | lib/game-store.ts:275-278 | assignTeams changes only the team field, and only for players of that room |
| Store.TeamsKeepInvariant | lib/game-store.ts:268-279 | changing only team fields keeps the invariant |
| Store.TeamsAssigned | lib/game-store.ts:268-279 | the players after assignTeams; it keeps the table's length, and its contents are stated by TeamsInJoinOrder and TeamsTouchOnlyTheRoom |
| Store.RoomWithCode | lib/game-store.ts:125-134 | the code lookup finds a room exactly when one room has the code, and it is that room |
| Store.SecondsBetween | lib/game-store.ts:244-245 | `Math.floor((now - started)/1000)`: the whole seconds elapsed, rounded down |
| Store.CompleteEnigmaRows | lib/game-store.ts:236-254 | completing enigma n stamps completed_at and time_spent on the one matching row only when there is exactly one, and leaves every other row as it was |
| Store.CompleteEnigmaKeepsIds | lib/game-store.ts:247-253 | completion changes no row's id |
| Store.CompleteEnigma | lib/game-store.ts:236-254 | the completion step of advanceEnigma; it keeps the table's length, and what it changes is stated by CompleteEnigmaRows |
| Store.UniqueIdFindsPlayer | lib/game-store.ts:203-209 | with unique ids, looking up a stored player's id finds exactly that player |
| Store.CreateRoomRollsBack | lib/game-store.ts:93-97 | a failed host insert deletes the room again: error returned, every table as before |
| Store.CreateRoomOpensRoom | lib/game-store.ts:62-115 | success gives a fresh room (waiting, enigma 0, capacity 4) whose only player is its creator; the creator is host with colour and avatar 0; the returned room has host_id set, the stored row has it only when the patch succeeds; progress and chat unchanged |
| Store.CreateRoomKeepsInvariant | lib/game-store.ts:55-116 | every outcome of createRoom (either insert failing, patch failing or not) keeps the invariant |
| Store.CreatedTables | lib/game-store.ts:62-105 | without insert errors createRoom adds exactly one room row and one player row and uses two ids |
| Store.CreateRoomStep | lib/game-store.ts:55-116 | createRoom as a function of the tables and the faults; its outcomes are stated by CreateRoomRollsBack, CreateRoomOpensRoom and CreateRoomKeepsInvariant |
| Store.JoinRoomStep | lib/game-store.ts:119-182 | joinRoom as a function of the tables; its outcomes are stated by JoinUnknownCode, JoinFoundRoomRefusals, JoinFoundRoomAdmits, JoinIgnoresCase and JoinRoomKeepsInvariant |
| Store.UpdateRoomStep | lib/game-store.ts:212-215 | updateRoom: the stored row, if any, takes the patch; stated by UpdateRoomKeepsInvariant |
| Store.StartGameStep | lib/game-store.ts:218-229 | startGame; stated by StartGameOpensEnigmaOne, StartGameTwice and StartGameKeepsInvariant |
| Store.AdvanceEnigmaStep | lib/game-store.ts:232-265 | advanceEnigma; stated by AdvanceEnigmaMovesToNext, AdvanceEnigmaAddsRow, AdvanceEnigmaTwice and AdvanceEnigmaKeepsInvariant |
| Store.SendChatStep | lib/game-store.ts:290-305 | sendChatMessage; stated by SendChatAppendsToRoom |
| Store.JoinIgnoresCase | lib/game-store.ts:128 | the code is upper-cased before the lookup, so any casing joins the same room |
| Store.JoinUnknownCode | lib/game-store.ts:125-134 | no single room with the code: "Partie introuvable" and no table changes |
| Store.JoinFoundRoomRefusals | lib/game-store.ts:139-170 | a room never holds more than four; at four it is refused as full before the status check; otherwise a started game is refused; otherwise an insert error is raised; each refusal leaves the tables unchanged |
| Store.JoinFoundRoomAdmits | lib/game-store.ts:153-181 | an admitted join adds exactly one non-host player whose colour and avatar are at its join index, appended to the room's list; nothing else changes |
| Store.OccupancyAfterAdmit | lib/game-store.ts:142-145 | admitting below capacity keeps every room within its capacity |
| Store.OccupancyAfterOpen | lib/game-store.ts:81-91 | a new room starts with its host as its only player and every room stays within capacity |
| Store.JoinRoomKeepsInvariant | lib/game-store.ts:119-182 | every outcome of joinRoom keeps the invariant |
| Store.UpdateRoomKeepsInvariant | lib/game-store.ts:212-215 | a patch of code, host_id, status, current_enigma or created_at keeps the invariant |
| Store.StartGameOpensEnigmaOne | lib/game-store.ts:218-229 | startGame sets status playing and enigma 1 and adds one progress row for enigma 1, with no check on the room's state |
| Store.StartGameTwice | lib/game-store.ts:218-229 | starting twice leaves two rows for enigma 1, so their `.single()` lookup then finds nothing |
| Store.StartGameKeepsInvariant | lib/game-store.ts:218-229 | startGame keeps the invariant |
| Store.AdvanceEnigmaMovesToNext | lib/game-store.ts:256-264 | advanceEnigma(n) sets that room to n + 1 and changes no other room, adds exactly one row for n + 1, and leaves players and chat unchanged |
| Store.AdvanceEnigmaAddsRow | lib/game-store.ts:236-264 | with distinct progress ids, the rows for n + 1 are kept as they were and the new row for n + 1, started now and not completed, is appended |
| Store.AdvanceEnigmaTwice | lib/game-store.ts:232-265 | advancing twice from n keeps the room at n + 1 but leaves two rows for n + 1 |
| Store.AdvanceEnigmaKeepsInvariant | lib/game-store.ts:232-265 | advanceEnigma keeps the invariant |
| Store.SendChatAppendsToRoom | lib/game-store.ts:290-305 | a message is appended to its room's chat and no other room's chat changes |
| Store.GameStore.constructor | lib/game-store.ts:48 | the store starts with empty tables, which satisfy the invariant |
| Store.GameStore.GetRoom | lib/game-store.ts:185-191 | the room row when the id is stored, else null |
| Store.GameStore.GetPlayers | lib/game-store.ts:194-200 | exactly the room's players |
| Store.GameStore.GetPlayer | lib/game-store.ts:203-209 | a player is found exactly when exactly one stored row has the id, and then it is that stored row |
| Store.GameStore.GetChatMessages | lib/game-store.ts:282-288 | exactly the room's messages |
| Store.GameStore.GetEnigmaProgress | lib/game-store.ts:308-319 | a row exactly when one row matches room and enigma, and then that row |
| Store.GameStore.CreateRoom | lib/game-store.ts:55-116 | keeps the invariant; result and new tables are CreateRoomStep's |
| Store.GameStore.JoinRoom | lib/game-store.ts:119-182 | keeps the invariant; result and new tables are JoinRoomStep's |
| Store.GameStore.UpdateRoom | lib/game-store.ts:212-215 | keeps the invariant; new tables are UpdateRoomStep's |
| Store.GameStore.StartGame | lib/game-store.ts:218-229 | keeps the invariant; new tables are StartGameStep's |
| Store.GameStore.AdvanceEnigma | lib/game-store.ts:232-265 | keeps the invariant; new tables are AdvanceEnigmaStep's |
| Store.GameStore.AssignTeams | lib/game-store.ts:268-279 | the loop leaves the players labelled as TeamsAssigned says and every other table unchanged; keeps the invariant |
| Store.GameStore.SendChatMessage | lib/game-store.ts:290-305 | keeps the invariant; new tables are SendChatStep's |
| Text.Upper | app/enigme-1/page.tsx:56 | `toUpperCase` keeps the length, maps each character, and leaves no lower-case letter |
| Text.UpperKeepsUppercase | app/enigme-1/page.tsx:56 | upper-casing a string without lower-case letters changes nothing |
| Text.Trim | app/enigme-1/page.tsx:56 | `trim` leaves no whitespace at either end |
| Text.TrimKeepsSlice | app/enigme-1/page.tsx:56 | `trim` keeps the slice of the input between an all-whitespace prefix and an all-whitespace suffix |
| Text.TrimPadded | app/enigme-3/page.tsx:57 | trimming whitespace-padded text that has no whitespace at its ends gives back the text |
| Text.TrimEmptyIff | app/page.tsx:21 | a string trims to empty exactly when it is all whitespace |
| Text.NormalizePadded | app/enigme-4/page.tsx:40 | trim-then-upper of padded text is the upper-cased text |
| Text.Normalize | app/enigme-4/page.tsx:40 | `trim().toUpperCase()` leaves no lower-case letter and never lengthens the text |
| Caesar.CaesarDecode | app/enigme-1/page.tsx:40-52 | same length as the input, each character decoded on its own |
| Caesar.DecodeChar | app/enigme-1/page.tsx:44-49 | an upper-case letter stays upper-case, a lower-case letter stays lower-case, and any other character is returned unchanged |
| Caesar.DecodeCharShiftsBack | app/enigme-1/page.tsx:44-49 | a letter moves back by the shift modulo 26 within its own alphabet; anything else is unchanged |
| Caesar.DecodeKeepsCase | app/enigme-1/page.tsx:44-49 | decoding keeps each position's letter case, and non-letters stay as they are |
| Caesar.DecodeWrapsAround | app/enigme-1/page.tsx:45-47 | with shift 1, 'A' becomes 'Z', 'a' becomes 'z' and 'B' becomes 'A' |
| Caesar.DecodeEncode | app/enigme-1/page.tsx:40-52 | decoding undoes the forward shift for every text |
| Caesar.DecodeEncodeChar | app/enigme-1/page.tsx:44-49 | decoding one character undoes its forward shift, for letters of either case and for any other character |
| Caesar.DecodeAppend | app/enigme-1/page.tsx:42-51 | decoding works character by character: the decoding of a concatenation is the concatenation of the decodings |
| BookPuzzle.TitleEncodesToMessage | app/enigme-1/page.tsx:26-27 | the page's message is the title shifted forward by one |
| BookPuzzle.DecodesToTitle | app/enigme-1/page.tsx:26-27 | known answer: decoding "MFT QMBOUFT EF MB WJMMF SPTF" gives "LES PLANTES DE LA VILLE ROSE" |
| BookPuzzle.DecoderOutputHasNoLowercase | app/enigme-1/page.tsx:66-69 | the decoder tool's output never holds a lower-case letter |
| BookPuzzle.TitleIsNormal | app/enigme-1/page.tsx:26 | the title is its own trim-and-upper form |
| BookPuzzle.AcceptsDecodedTitle | app/enigme-1/page.tsx:54-64 | the decoded message is accepted, and so is the title in any casing with surrounding whitespace |
| BookPuzzle.AcceptsTitle | app/enigme-1/page.tsx:56-58 | the answer test: the normalised answer equals the title; stated by AcceptsDecodedTitle and Enigme1Page.HandleSubmit |
| BookPuzzle.Enigme1Page.constructor | app/enigme-1/page.tsx:18-23 | answer, error, decoder input and decoder output start empty |
| BookPuzzle.Enigme1Page.SetAnswer | app/enigme-1/page.tsx:140 | sets the answer field only |
| BookPuzzle.Enigme1Page.SetDecoderInput | app/enigme-1/page.tsx:113 | sets the decoder input only |
| BookPuzzle.Enigme1Page.HandleSubmit | app/enigme-1/page.tsx:54-64 | navigates to the book page exactly when the normalised answer is the title; otherwise only the error is set |
| BookPuzzle.Enigme1Page.HandleDecode | app/enigme-1/page.tsx:66-69 | the output becomes the decoding of the upper-cased input and has no lower-case letter |
| Timer.JsRem | components/game-timer.tsx:28 | JavaScript's `%`: the remainder has the dividend's sign |
| Timer.PadStart2 | components/game-timer.tsx:29 | `padStart(2, "0")` ends with the original text and has '0's in front, at least two characters in all |
| Timer.Seconds | components/game-timer.tsx:28 | the seconds field lies in 0..59 for a non-negative count |
| Timer.SplitRoundTrip | components/game-timer.tsx:26-28 | minutes * 60 + seconds is the whole seconds |
| Timer.FormatTime | components/game-timer.tsx:25-30 | formatTime; what it shows is stated by FiveCharacters, FormatZero, FormatNegative and ParseFormat |
| Timer.FiveCharacters | components/game-timer.tsx:29 | below 6,000,000 ms the display is exactly five characters |
| Timer.FormatZero | components/game-timer.tsx:13 | the initial count shows "00:00" |
| Timer.FormatNegative | components/game-timer.tsx:25-30 | a count of -1000 ms shows "-1:-1" |
| Timer.DecimalRoundTrip | components/game-timer.tsx:29 | `toString` of a natural number reads back as that number |
| Timer.ParseFormat | components/game-timer.tsx:25-30 | the display reads back as the minutes and seconds it was made from |
| Timer.GameTimer.constructor | components/game-timer.tsx:12-13 | a new timer has count 0 and shows "00:00" |
| Timer.GameTimer.Tick | components/game-timer.tsx:16-20 | a tick sets the count to the time since the start |
| Timer.GameTimer.Display | components/game-timer.tsx:25-30 | once the start has passed, the display reads back as the count's minutes and seconds |
| MapPuzzle.Without | app/enigme-3/page.tsx:49 | `filter` keeps exactly the other ids |
| MapPuzzle.Toggled | app/enigme-3/page.tsx:47-53 | the new selection holds the clicked id exactly when the old one did not, and every other id exactly when the old one did |
| MapPuzzle.ToggleFlips | app/enigme-3/page.tsx:47-53 | a toggle flips its own id's membership and no other |
| MapPuzzle.ToggleKeepsNoDup | app/enigme-3/page.tsx:47-53 | a toggle never creates a duplicate |
| MapPuzzle.ToggleTwice | app/enigme-3/page.tsx:47-53 | toggling the same id twice restores the set of pieces |
| MapPuzzle.SixMeansAll | app/enigme-3/page.tsx:59 | with no duplicates, six selected pieces means all six pieces |
| MapPuzzle.Submit | app/enigme-3/page.tsx:55-68 | navigates exactly when the location and the six pieces are right; a wrong count gives the map error whatever the location; otherwise the location error |
| MapPuzzle.AcceptsPaddedLocation | app/enigme-3/page.tsx:57 | any casing and surrounding whitespace of the location is accepted |
| MapPuzzle.Enigme3Page.TogglePiece | app/enigme-3/page.tsx:47-53 | the selection is toggled and stays free of duplicates within the six ids |
| MapPuzzle.Enigme3Page.HandleSubmit | app/enigme-3/page.tsx:55-68 | navigation or error as Submit decides |
| MapPuzzle.Enigme3Page.constructor | app/enigme-3/page.tsx:18-21 | no piece selected, empty location and error, hint hidden |
| MapPuzzle.Enigme3Page.SetLocation | app/enigme-3/page.tsx:166 | sets the location only |
| MapPuzzle.Enigme3Page.ToggleHint | app/enigme-3/page.tsx:186 | flips the hint flag only |
| Labo.EveryMatchesIsPrefix | app/enigme-2/labo/page.tsx:47 | `every` holds exactly when the entries are a prefix of the expected sequence |
| Labo.EveryMatches | app/enigme-2/labo/page.tsx:47 | the `every` test on the entries; stated by EveryMatchesIsPrefix |
| Labo.Unlocks | app/enigme-2/labo/page.tsx:47-50 | the unlock decision; stated by UnlocksIff |
| Labo.UnlocksIff | app/enigme-2/labo/page.tsx:47-50 | the four entries unlock exactly when they equal the expected sequence and the code is exactly "1031" |
| Labo.LaboPage.SetEntry | app/enigme-2/labo/page.tsx:39-43 | entry i becomes the upper-cased value and the other entries stay; four entries always |
| Labo.LaboPage.HandleSubmit | app/enigme-2/labo/page.tsx:45-55 | unlocked becomes true on the right entries and code and never goes back; otherwise the error is set |
| Labo.LaboPage.constructor | app/enigme-2/labo/page.tsx:18-22 | four empty entries, empty code and error, locked, hint hidden |
| Labo.LaboPage.SetCode | app/enigme-2/labo/page.tsx:141 | sets the code only |
| Labo.LaboPage.ToggleHint | app/enigme-2/labo/page.tsx:164 | flips the hint flag only |
| Oncopole.UnlocksOnExpected | app/enigme-2/oncopole/page.tsx:49-53 | with the expected answers the lock opens exactly on code "1031"; an answer with a trailing space is refused |
| Oncopole.Unlocks | app/enigme-2/oncopole/page.tsx:49-53 | the unlock decision; stated by UnlocksOnExpected and OncopolePage.HandleSubmit |
| Oncopole.SameLockCode | app/enigme-2/oncopole/page.tsx:30 | both team locks use the same code |
| Oncopole.OncopolePage.SetAnswer | app/enigme-2/oncopole/page.tsx:43-45 | only the edited question takes the upper-cased value |
| Oncopole.OncopolePage.HandleSubmit | app/enigme-2/oncopole/page.tsx:47-58 | unlocked becomes true on the right answers and code and never goes back; otherwise the error is set |
| Oncopole.OncopolePage.constructor | app/enigme-2/oncopole/page.tsx:18-22 | three empty answers, empty code and error, locked, hint hidden |
| Oncopole.OncopolePage.SetCode | app/enigme-2/oncopole/page.tsx:164 | sets the code only |
| Oncopole.OncopolePage.ToggleHint | app/enigme-2/oncopole/page.tsx:191 | flips the hint flag only |
| Herbalist.AcceptsPaddedAnyCase | app/enigme-4/page.tsx:40-42 | any casing of "TAXUS BACCATA" with surrounding whitespace is accepted |
| Herbalist.AcceptsPlant | app/enigme-4/page.tsx:40-42 | the answer test; stated by AcceptsPaddedAnyCase and RejectsDoubleSpace |
| Herbalist.RejectsDoubleSpace | app/enigme-4/page.tsx:40-42 | a double space between the words is refused |
| Herbalist.Enigme4Page.HandleSubmit | app/enigme-4/page.tsx:38-48 | navigates to the finale exactly on the accepted answer; otherwise only the error is set |
| Herbalist.Enigme4Page.constructor | app/enigme-4/page.tsx:18-22 | empty answer and error, every panel closed |
| Herbalist.Enigme4Page.SetPlantName | app/enigme-4/page.tsx:170 | sets the answer field only |
| Herbalist.Enigme4Page.ToggleBotanicalDetails | app/enigme-4/page.tsx:90 | flips that flag only |
| Herbalist.Enigme4Page.ToggleHiddenMessage | app/enigme-4/page.tsx:131 | flips that flag only |
| Herbalist.Enigme4Page.ToggleHint | app/enigme-4/page.tsx:191 | flips that flag only |
| WaitingRoom.Redirect | app/auth/login/page.tsx:17-28 | home without room or player; the briefing exactly when the game is playing |
| WaitingRoom.IsHost | app/auth/login/page.tsx:74 | isHost compares the room's host_id with the current player's id; stated by CreatorIsHostIffPatched |
| WaitingRoom.CanStart | app/auth/login/page.tsx:75 | canStart: two to four players; stated by GateIgnoresUpperBound |
| WaitingRoom.StartEnabled | app/auth/login/page.tsx:171-174 | the start button is enabled on canStart with no start under way; stated by EnabledButtonProceeds |
| WaitingRoom.StartGate | app/auth/login/page.tsx:38-51 | the start proceeds exactly for the host (by host_id) with at least two players; a non-host is refused before the count is looked at |
| WaitingRoom.GateIgnoresUpperBound | app/auth/login/page.tsx:48 | the handler checks only the lower bound, so it lets five players start although canStart (line 75) is false for five |
| WaitingRoom.EnabledButtonProceeds | app/auth/login/page.tsx:171-174 | whenever the host's button is enabled (canStart and no start under way), the handler proceeds |
| WaitingRoom.CreatorIsHostIffPatched | app/auth/login/page.tsx:74 | a room's creator has the is_host flag, but is host here exactly when createRoom's host_id patch succeeded; otherwise every start is refused |
| WaitingRoom.WaitingRoomPage.StartGame | app/auth/login/page.tsx:38-62 | nothing, an alert, or the store's startGame and the briefing, as the gate decides; a store failure alerts and clears isStarting |
| WaitingRoom.WaitingRoomPage.constructor | app/auth/login/page.tsx:15 | no start is under way at first |
| Home.JoinValidation | app/page.tsx:47-56 | the name is checked first, then the code, each blank one with its own message |
| Home.JoinErrorText | app/page.tsx:65 | the thrown message, or the fallback when it is empty; never empty |
| Home.JoinRefusalShown | app/page.tsx:65 | the store's own refusals are shown verbatim |
| Home.TypedCodeJoinsSameRoom | app/page.tsx:62 | a code typed in any case (the field upper-cases it, line 179) with surrounding whitespace joins the same room as the bare code |
| Home.HomePage.SetPlayerName | app/page.tsx:117-120 | sets the name and clears the error |
| Home.HomePage.SetRoomCode | app/page.tsx:178-181 | stores the upper-cased code and clears the error |
| Home.HomePage.constructor | app/page.tsx:14-18 | empty fields and error, neither form busy |
| Home.HomePage.SubmitCreate | app/page.tsx:26-43 | isCreating is set around createRoom and ends false; success goes to the lobby, any failure shows the generic message |
| Home.HomePage.SubmitJoin | app/page.tsx:58-68 | isJoining is set around joinRoom and ends false; success goes to the lobby, failure shows the error text |
| Home.HomePage.HandleCreateRoom | app/page.tsx:20-45 | a blank name: its message and no store call; otherwise createRoom with the trimmed name, then the lobby, or the generic error; isCreating ends false |
| Home.HomePage.HandleJoinRoom | app/page.tsx:47-70 | the validation messages with no store call; otherwise joinRoom with the trimmed code and name, then the lobby or the error text; isJoining ends false |
| ProgressBar.StateAt | components/progress-bar.tsx:19-24 | done exactly before the current step, current exactly at it |
| ProgressBar.BadgeAt | components/progress-bar.tsx:27-31 | a check mark exactly on done steps, else the number i + 1 |
| ProgressBar.ConnectorAt | components/progress-bar.tsx:35-36 | a connector after every step but the last, highlighted exactly after done steps |
| ProgressBar.States | components/progress-bar.tsx:9 | the bar has five steps |
| ProgressBar.RowCounts | components/progress-bar.tsx:19-24 | the number of done steps is the current step clamped to the bar; there is one current step when it is inside the bar, else none |
| ProgressBar.ExactlyOneCurrent | components/progress-bar.tsx:19-24 | for a current step in 0..4 exactly one step is current, and it is that one |
| ProgressBar.DoneSteps | components/progress-bar.tsx:19-24 | the done steps are exactly those before the current step |

## Left out

- **The hosted database and its realtime channels.**
  - The store is four in-memory tables with an id supply. The game context that caches them and subscribes to changes (`contexts/game-context.tsx`) is not part of this model.
  - Session storage writes are not modelled, and neither are console logs.
  - `generateRoomCode` uses `Math.random`, so the code is a parameter. Codes are not assumed unique; two rooms with one code make the lookup fail, as `.single()` does.
- **Store faults.**
  - An insert error, or the host_id patch failing, is a parameter.
  - The deletion in createRoom's rollback is assumed to succeed; the source ignores its result.
  - In joinRoom, a failed read of the room's players (which makes the source skip the capacity check and use index 0) is not modelled.
  - startGame, advanceEnigma, updateRoom, assignTeams and sendChatMessage discard their write errors in the source, so the model applies every write.
- **Foreign keys and timestamps.**
  - Foreign keys are not modelled: a progress or chat row for an unknown room is accepted.
  - Timestamps are integers of milliseconds passed in as `now`; row order stands for joined_at and created_at order.
- Store.GameStore.UpdateRoom: the patch carries code, host_id, status, current_enigma and created_at, but not id or max_players. Nothing in the application calls updateRoom. The capacity stays fixed at 4 and rooms stay stored under their own ids, which the capacity and keying invariants depend on: a max_players below a room's player count, or a changed id, would break them.
- WaitingRoom.WaitingRoomPage.StartGame: a throwing store call is modelled as failing before any write. The source could fail between the room update and the progress insert, and that partial write is not modelled.
- Caesar.CaesarDecode: the shift is limited to 0..26. The page only uses 1; outside that range JavaScript's `%` and `fromCharCode` leave the alphabet.
- Text.Upper: `toUpperCase` is modelled on ASCII letters only. Other Unicode case mappings are not.
- `totalSteps` in `components/progress-bar.tsx` is accepted but never used, so the model has no counterpart.
- **Browser effects.**
  - The `setTimeout` that clears errors and the `setInterval` tick loop are not modelled; `Tick` is one tick.
  - The clipboard, `alert` and `confirm` are not modelled; alerts are returned as values.
  - The input `maxLength` limit is not modelled, and neither are JSX or styling.
  - The UI-only toggles (`showHint` and `showDecoder` on the book page, `chatOpen` everywhere) are not modelled.
- The `!room.isStarted` redirect to "/lobby" on the puzzle pages reads a field the room type does not have, so it is not modelled.
- The lobby page, the game header and the chat component use fields absent from the store's types, so they are not part of this model. The narrative pages (briefing, book, reunion, finale) hold only markup.
- **Concurrency.** Interleaved calls are not modelled: a join's check-then-insert racing another join, and two simultaneous starts. Each operation is one atomic step.
