# Travel assistant core, modelled in Dafny

This project models the core of a chat-based travel guide written in TypeScript and React.
The guide asks a language model for places and routes and reads the answer back into records.
It keeps favourites with counts and reviews per place name, and shows partners in a carousel.
A pattern lock guards the sign-in.

The model has one module per core file:

- `Parser` (`utils/parser.ts`) models the two reply readers.
  - The regular expressions `Label:\s*(.+)` and `Label:\s*([-\d.]+)` and the split before every `Nome:` are written out as functions.
  - `parsePlacesFromText` and `parseRouteFromText` are methods whose loops are proved against the specification functions `Entries` and `RouteOf`.
- `App` (`App.tsx`) is the application state as a class, with one method per handler.
  - Covered: favourites, counts, reviews, the review dialog, the chat history with the places and route of each reply, and the five-click admin unlock.
- `LandingPage` (`components/LandingPage.tsx`) is the sign-in screen as a class.
  - Covered: the name step, drawing, enrolment with confirmation, the returning traveller's check, the error counter and the reset.
- `PlaceCard` (`components/PlaceCard.tsx`) covers the star ranking, the vote label and the WhatsApp and Instagram links.
- `PartnerCarousel` (`components/PartnerCarousel.tsx`) is the carousel index as a class, with the dot row.
- `RouteCard` (`components/RouteCard.tsx`) covers the arrow per instruction, the step numbers, the connectors and the distance line.
- Shared modules:
  - `Types` holds the records of `types.ts`;
  - `Text` holds the string helpers (trim, split, join, index, digits, ASCII lower-casing);
  - `Wrappers` holds `Option`.

Several inputs are passed in as parameters rather than modelled:

- the random identities (`crypto.randomUUID()`), as `ids`, `id` and `reviewId`;
- the clock (`Date.now()`), as `now`, `messageId` and `replyId`;
- the date label, as `date`;
- the model's answer, as `responseText`;
- the traveller's answer to the reset confirmation, as `confirmed`.

`localStorage` is a `map<string, string>` field of the sign-in screen.

## Model

| member | source | states |
|---|---|---|
| Text.Trim | utils/parser.ts:6 | the result has no white space at either end and is a piece of the text with only white space before and after it, so exactly the surrounding white space goes |
| Text.TrimSlice | utils/parser.ts:6 | what `trim` keeps is a piece of the text, and it keeps nothing exactly when the text is blank |
| Text.TrimTrimmed | utils/parser.ts:6 | trimming a trimmed text leaves it alone |
| Text.Split | utils/parser.ts:47 | there is at least one part and no part contains the separator |
| Text.JoinSplit | utils/parser.ts:47 | joining the parts of a split with the separator gives back the text |
| Text.SplitJoin | utils/parser.ts:50 | splitting a join of separator-free parts gives back the parts |
| Text.Digits | utils/parser.ts:31 | `replace(/\D/g, '')` keeps exactly the digits, in order |
| Text.DigitsConcat | utils/parser.ts:31 | the digits of a concatenation are the concatenation of the digits |
| Parser.RemoveBold | utils/parser.ts:6 | deleting every `**` leaves no `**`, and a text without `**` is unchanged; `RemoveBoldKeepsText` says what it keeps |
| Parser.RemoveBoldKeepsText | utils/parser.ts:6 | only asterisks are deleted: every other character survives, in order |
| Parser.RemoveBoldPairs | utils/parser.ts:6 | asterisks are deleted in pairs, so an even number of characters goes |
| Parser.RemoveBoldClosing | utils/parser.ts:6 | a closing `**` after a value without `**` is deleted and the value is kept |
| Parser.Clean | utils/parser.ts:6 | `clean`; its contract is stated by `CleanShape`, `CleanIdempotent` and `BoldValue` |
| Parser.CleanShape | utils/parser.ts:6 | `clean` leaves no `**` and no surrounding white space, even where a deletion joins two asterisks |
| Parser.CleanIdempotent | utils/parser.ts:6 | cleaning twice is cleaning once |
| Parser.BoldValue | utils/parser.ts:6 | a cleaned value wrapped in `**` is read back as the value, so `**Café Lua**` gives `Café Lua` |
| Parser.MatchCaptured | utils/parser.ts:10-18 | a `(.+)` capture is a non-empty run of non-line-terminators; a `([-\d.]+)` capture is a non-empty run of `-`, digits and `.` |
| Parser.Match | utils/parser.ts:10-18 | `block.match(...)[1]`; its contract is stated by `MatchCaptured`, `MatchLineNone`, `MatchCoordNone`, `MatchAbsent`, `LineAfterMarker` and `CoordAfterMarker` |
| Parser.MatchLineNone | utils/parser.ts:10 | `Label:\s*(.+)` fails exactly when only line terminators follow every occurrence of the label |
| Parser.MatchCoordNone | utils/parser.ts:15-16 | `Label:\s*([-\d.]+)` fails exactly when no coordinate character follows the white space after any occurrence of the label |
| Parser.MatchAbsent | utils/parser.ts:10-18 | a label that does not occur never matches |
| Parser.LineAfterMarker | utils/parser.ts:10 | a label, white space, a value and a line end capture exactly the value |
| Parser.CoordAfterMarker | utils/parser.ts:15-16 | a label, spaces, a coordinate and a non-coordinate character capture exactly the coordinate |
| Parser.BlocksPartition | utils/parser.ts:7 | the blocks of `split(/(?=Nome:)/)` concatenate back to the text |
| Parser.Blocks | utils/parser.ts:7 | `split(/(?=Nome:)/)`; its contract is stated by `BlocksPartition` and `BlocksShape` |
| Parser.BlocksShape | utils/parser.ts:7 | every block after the first starts with `Nome:`, and no block has `Nome:` anywhere but at its start |
| Parser.BlockEntryShape | utils/parser.ts:20-32 | a block yields a place exactly when name, latitude and longitude all match; every field of a yielded place is cleaned, the coordinates are coordinate runs, and the WhatsApp value is all digits |
| Parser.BlockEntry | utils/parser.ts:10-33 | the parse of one block; its contract is stated by `BlockEntryShape` and `AbsentFieldDefaults` |
| Parser.AbsentFieldDefaults | utils/parser.ts:24-31 | a missing description or address is `""`, a missing category is `geral`, and a missing distance, Instagram or WhatsApp is absent |
| Parser.EntriesOfConcat | utils/parser.ts:9-34 | the places of concatenated block lists are the concatenation of their places |
| Parser.EntriesInBlockOrder | utils/parser.ts:9-34 | places come out in the order of the blocks that yield them |
| Parser.Entries | utils/parser.ts:7-34 | the parsed content of every place of a reply; its contract is stated by `EntriesOfConcat`, `EntriesInBlockOrder`, `NoNameNoPlaces`, `PreambleYieldsNothing` and `PlacesAtMostNames` |
| Parser.NoNameNoPlaces | utils/parser.ts:7-20 | a text without `Nome:` yields no place |
| Parser.PreambleYieldsNothing | utils/parser.ts:7-20 | the text before the first `Nome:` never yields a place |
| Parser.PlacesAtMostNames | utils/parser.ts:7-34 | there are never more places than occurrences of `Nome:` |
| Parser.ParsePlacesFromText | utils/parser.ts:4-37 | the loop pushes one place per yielding block, in order, each carrying the next identity and the block's fields |
| Parser.ForEachBlock | utils/parser.ts:9-34 | the `forEach` pushes, in order, one place per block for which the parse yields an entry |
| Parser.StepLinesMembers | utils/parser.ts:47 | the step lines are exactly the lines beginning with `Passo:` |
| Parser.StepLinesConcat | utils/parser.ts:47 | the filter works line by line, so step lines keep the order and the repeats of the lines |
| Parser.StepLines | utils/parser.ts:47 | `split('\n').filter(...)`; its contract is stated by `StepLinesMembers` and `StepLinesConcat` |
| Parser.StepOfFields | utils/parser.ts:50-55 | the instruction is the trimmed text before the first `\|`; the distance is the trimmed second piece and is absent exactly when that piece is empty |
| Parser.StepOf | utils/parser.ts:50-55 | one step; its contract is stated by `StepOfFields` |
| Parser.LabelledValue | utils/parser.ts:42-63 | the value is the default or a trimmed capture |
| Parser.RouteOf | utils/parser.ts:39-69 | no `Informações da Rota:` means no route; a route has one step per `Passo:` line, in order, and at least one step |
| Parser.RoutePresence | utils/parser.ts:40-59 | a route is returned exactly when the marker occurs and some line starts with `Passo:` |
| Parser.RouteDefaults | utils/parser.ts:61-63 | missing destination, total-distance and duration lines become `Destino`, `N/A` and `N/A` |
| Parser.RouteFields | utils/parser.ts:42-44 | destination, total distance and duration are the trimmed captures of their labels when those match, and the defaults only when they do not |
| Parser.TotalDistanceRead | utils/parser.ts:43 | a reply opening with `Distância Total:`, blanks and a one-line value reports that value, trimmed, as the total distance |
| Parser.ParseRouteFromText | utils/parser.ts:39-69 | the method returns `RouteOf(text)` |
| Parser.ForEachStepLine | utils/parser.ts:49-57 | the loop pushes one step per line, in order |
| PlaceCard.Rating | components/PlaceCard.tsx:39-40 | one star per two favourites, at most five; five stars exactly from ten favourites |
| PlaceCard.RatingMonotonic | components/PlaceCard.tsx:40 | more favourites never give fewer stars |
| PlaceCard.Stars | components/PlaceCard.tsx:61-67 | five stars, star `i` filled exactly when `i` is below the rating |
| PlaceCard.FilledStars | components/PlaceCard.tsx:61-67 | the number of filled stars equals the rating |
| PlaceCard.VoteWord | components/PlaceCard.tsx:69 | `voto` exactly for one vote, `votos` otherwise |
| PlaceCard.WhatsAppUrl | components/PlaceCard.tsx:21-26 | a link exactly for a non-empty number; it is `https://wa.me/` followed by digits only |
| PlaceCard.WhatsAppDigitsOnly | components/PlaceCard.tsx:24 | numbers with the same digits open the same link |
| PlaceCard.WhatsAppIgnoresFormatting | components/PlaceCard.tsx:24 | formatting around the digits does not reach the link |
| PlaceCard.InstagramUrl | components/PlaceCard.tsx:28-35 | a link exactly for a non-empty value; a value starting with `http` is opened as it is |
| PlaceCard.InstagramHandle | components/PlaceCard.tsx:31-33 | `@name` opens `https://instagram.com/name` |
| PlaceCard.InstagramPlain | components/PlaceCard.tsx:31-33 | a value not starting with `http` becomes `https://instagram.com/` followed by the value with only its first `@` deleted: a plain handle is kept whole, and later `@`s survive |
| PlaceCard.InstagramStable | components/PlaceCard.tsx:28-35 | a link built by the card maps to itself |
| PartnerCarousel.NextIndex | components/PartnerCarousel.tsx:96 | the index moves forward by one and wraps from the last to the first |
| PartnerCarousel.PrevIndex | components/PartnerCarousel.tsx:90 | the index moves back by one and wraps from the first to the last |
| PartnerCarousel.NextPrevInverse | components/PartnerCarousel.tsx:90-96 | back and forward undo each other |
| PartnerCarousel.AdvanceCycles | components/PartnerCarousel.tsx:13-19 | the timer reaches every partner within one round and is back after `n` ticks |
| PartnerCarousel.Dots | components/PartnerCarousel.tsx:106-111 | at most ten dots, dot `i` lit exactly at the current index |
| PartnerCarousel.LitDots | components/PartnerCarousel.tsx:106-111 | one dot is lit while the current partner is among the first ten, none after that |
| PartnerCarousel.ShrinkScenario | components/PartnerCarousel.tsx:11-23 | two partners, one step forward, then a list of one from the parent: the index stays 1 and names no partner |
| PartnerCarousel.ShrinkScenarioReconciled | components/PartnerCarousel.tsx:11-23 | the same steps with the index reconciled leave the remaining partner on show |
| PartnerCarousel.ReconciledIndex | components/PartnerCarousel.tsx:11-23 | the reconciled index always names an existing partner, and a still-valid index is kept |
| PartnerCarousel.Carousel.Current | components/PartnerCarousel.tsx:21-23 | nothing is shown exactly when there are no partners; otherwise one of the partners is shown |
| PartnerCarousel.Carousel.CurrentRating | components/PartnerCarousel.tsx:26-27 | the current partner's ranking is on the card's scale of zero to five |
| PartnerCarousel.Carousel.Next | components/PartnerCarousel.tsx:13-19 | with two or more partners the index advances modulo the length; otherwise nothing changes |
| PartnerCarousel.Carousel.Prev | components/PartnerCarousel.tsx:90 | with two or more partners the index goes back modulo the length; otherwise nothing changes |
| PartnerCarousel.Carousel.ReceivePartnersAsWritten | components/PartnerCarousel.tsx:10-11 | a new list from the parent keeps the old index |
| PartnerCarousel.Carousel.SetPartners | components/PartnerCarousel.tsx:10-23 | a new list with the index reconciled keeps the current partner defined |
| RouteCard.IconCases | components/RouteCard.tsx:10-16 | each arrow is drawn exactly for its keyword combination, `esquerda` first, then `direita`, then `mantenha` |
| RouteCard.IconOf | components/RouteCard.tsx:10-16 | `DirectionIcon`; its contract is stated by `IconCases`, `IconIgnoresCase` and `LeftWins` |
| RouteCard.IconIgnoresCase | components/RouteCard.tsx:11 | the arrow does not depend on letter case |
| RouteCard.LeftWins | components/RouteCard.tsx:12 | an instruction saying `esquerda` is a left turn whatever else it says |
| RouteCard.ShownDistance | components/RouteCard.tsx:55-59 | the distance line is drawn exactly for a present, non-empty distance |
| RouteCard.Rows | components/RouteCard.tsx:41-62 | one row per step, in order |
| RouteCard.StepNumbering | components/RouteCard.tsx:45-47 | steps are numbered from 1 with consecutive numbers, and `n` steps draw `n - 1` connectors, none under the last |
| RouteCard.ParsedDistanceShown | components/RouteCard.tsx:55-59 | for a parsed step line, the distance shows exactly when the line has a `\|` followed by a non-blank segment |
| App.Enrich | App.tsx:105-109 | only the count and reviews change, set to those kept under the place's name, or 0 and none |
| App.EnrichByName | App.tsx:105-109 | enriching is idempotent and depends only on the name |
| App.EnrichAll | App.tsx:176 | every found place is enriched, in order |
| App.IsFavorite | App.tsx:112 | `favorites.some(...)` by name; `ToggleFlips` states what a toggle does to it |
| App.WithoutName | App.tsx:116 | every kept favourite comes from the list and has another name, and the list is shorter exactly when the name was a favourite |
| App.WithoutNameMembers | App.tsx:116 | the filter keeps exactly the favourites of other names and changes nothing when the name is absent |
| App.Decremented | App.tsx:117 | the count goes down by one but not below zero; other counts are unchanged |
| App.Incremented | App.tsx:121 | the count goes up by one; other counts are unchanged |
| App.Added | App.tsx:119-120 | the prepended favourite has the place's name and the count it is about to have |
| App.ToggledFavorites | App.tsx:115-121 | the favourites after a toggle; its contract is stated by `ToggleFlips`, `ToggleTwice` and `ToggleKeepsNamesUnique` |
| App.ToggledCounts | App.tsx:116-121 | the counts after a toggle; its contract is stated by `ToggleFlips` and `ToggleTwice` |
| App.ToggleFlips | App.tsx:111-125 | a toggle flips favourite status, keeps counts non-negative, and an addition adds one |
| App.ToggleTwice | App.tsx:111-125 | toggling a new place twice restores the favourites and every count |
| App.ToggleKeepsNamesUnique | App.tsx:112-120 | toggling keeps favourite names pairwise different |
| App.ReplaceById | App.tsx:128-129 | the place with the updated id is replaced and all others kept, in order |
| App.ReplaceByIdStable | App.tsx:128-129 | a second identical update changes nothing, and an unknown id changes nothing |
| App.CarouselItems | App.tsx:220 | the carousel holds exactly the favourites with an image |
| App.CarouselItemsConcat | App.tsx:220 | the filter keeps the favourites' order |
| App.TrimsToEmpty | App.tsx:157 | `!s.trim()` holds exactly for blank text |
| App.Author | App.tsx:140 | the author is the user's name when it is non-empty and `Viajante Anônimo` otherwise |
| App.WithReview | App.tsx:145-148 | the new review goes first under its name; other names are untouched |
| App.SavedReviewShown | App.tsx:145-148 | after saving, every card of that name shows the review first, and other cards are unchanged |
| App.Click | App.tsx:90-102 | a click within 1000 ms extends the streak, otherwise it starts one; the fifth click unlocks and resets |
| App.ClickBounded | App.tsx:90-102 | the streak stays between 0 and 4 |
| App.FiveQuickClicks | App.tsx:85-103 | a fresh click followed by four quick ones unlocks |
| App.SlowClickNeverUnlocks | App.tsx:90-94 | a slow click restarts the streak at one and never unlocks |
| App.FoundPlacesShape | App.tsx:176 | a reply's places are its name blocks, in order, each with its identity, count and reviews; no `Nome:` means none |
| App.FoundPlaces | App.tsx:176 | the enriched places of a reply; its contract is stated by `FoundPlacesShape` and `FoundPlacesParsed` |
| App.FoundPlacesParsed | App.tsx:176 | enriching what the parsing loop returns gives the reply's places |
| App.Reply | App.tsx:179-185 | the model's message has places exactly when some were found, and it carries the route |
| App.AppState.constructor | App.tsx:28-59 | the loaded favourites, counts and reviews, with an empty chat, a closed dialog and a locked panel |
| App.AppState.Carousel | App.tsx:220 | the carousel shows only favourites with an image |
| App.AppState.SecretTrigger | App.tsx:85-103 | the streak and the time of the last click advance as `Click` says; an unlock enables and opens the panel |
| App.AppState.ToggleFavorite | App.tsx:111-125 | favourites and counts become the toggled ones; status flips; unique names stay unique; an addition opens the review dialog for the place |
| App.AppState.UpdatePlace | App.tsx:127-130 | the place is replaced by id in both the favourites and the map's places |
| App.AppState.EditReviewText | App.tsx:400 | only the review text changes |
| App.AppState.SaveReview | App.tsx:132-153 | without a target or with blank text only the dialog closes; otherwise the review goes first under the target's name and the dialog is reset |
| App.AppState.SkipReview | App.tsx:405 | the dialog closes and clears without saving |
| App.AppState.EditInput | App.tsx:326 | only the chat box changes |
| App.AppState.BeginSend | App.tsx:155-161 | blank text or a pending reply sends nothing; otherwise the message is appended, the box cleared unless the text came from the caller, and loading starts |
| App.AppState.CompleteSend | App.tsx:176-198 | the model's message carries the parsed places and route; the map shows them when present; loading ends |
| App.AppState.FailSend | App.tsx:190-198 | the apology is appended and loading ends |
| LandingPage.UserRecord | components/LandingPage.tsx:134-139 | the record has the typed name, the new identity, `pattern-lock` and `Explorador Oficial` |
| LandingPage.PatternKey | components/LandingPage.tsx:84 | the storage key of a name; its contract is stated by `PatternKeyInjective` and `PatternKeyIgnoresCase` |
| LandingPage.PatternKeyInjective | components/LandingPage.tsx:84 | two names share a storage key exactly when they agree once lower-cased and trimmed |
| LandingPage.PatternKeyIgnoresCase | components/LandingPage.tsx:84 | a name typed in another case opens the same pattern |
| LandingPage.DecodeEncode | components/LandingPage.tsx:94-102 | parsing a saved pattern gives it back |
| LandingPage.Encode | components/LandingPage.tsx:94 | `JSON.stringify` of a pattern; its contract is stated by `DecodeEncode`, `EncodeDecode` and `EncodeInjective` |
| LandingPage.Decode | components/LandingPage.tsx:102 | `JSON.parse` of a saved pattern; its contract is stated by `DecodeEncode` and `EncodeDecode` |
| LandingPage.EncodeDecode | components/LandingPage.tsx:94-102 | every parsable saved text is exactly what saving its pattern writes |
| LandingPage.EncodeInjective | components/LandingPage.tsx:93-103 | two patterns are written the same exactly when they are equal |
| LandingPage.LoginAcceptsSaved | components/LandingPage.tsx:102-107 | the saved pattern, and no other, lets a returning traveller in |
| LandingPage.LoginCheck | components/LandingPage.tsx:100-111 | the returning traveller's comparison; its contract is stated by `LoginAcceptsSaved` |
| LandingPage.PatternBound | components/LandingPage.tsx:39 | a pattern without repeated dots has at most nine dots |
| LandingPage.Lock.constructor | components/LandingPage.tsx:9-17 | the screen starts at the name step with everything cleared |
| LandingPage.Lock.ResetOffered | components/LandingPage.tsx:250-252 | the reset button is offered exactly from three errors |
| LandingPage.Lock.EditName | components/LandingPage.tsx:186 | only the name changes |
| LandingPage.Lock.HandleNextStep | components/LandingPage.tsx:22-33 | a blank name changes nothing; otherwise the pattern step starts afresh, new exactly when nothing non-empty is saved under the key |
| LandingPage.Lock.DotInteraction | components/LandingPage.tsx:35-44 | a first touch starts a pattern; a new dot is appended and a repeated one ignored; the pattern never repeats a dot and has at most nine |
| LandingPage.Lock.TriggerError | components/LandingPage.tsx:114-117 | the error shows and the count rises by one |
| LandingPage.Lock.ErrorTimeout | components/LandingPage.tsx:118-121 | the pattern is wiped and the error hidden |
| LandingPage.Lock.ProceedToLogin | components/LandingPage.tsx:131-142 | loading shows and the user record is handed over |
| LandingPage.Lock.FinishDrawing | components/LandingPage.tsx:75-112 | the state after each of the five branches: too short, first draw, confirmation match or mismatch, returning match or mismatch |
| LandingPage.Lock.Enrol | components/LandingPage.tsx:87-99 | the first draw is kept for confirmation; a matching confirmation saves the pattern under the key and logs in; a mismatch is an error |
| LandingPage.Lock.CheckReturning | components/LandingPage.tsx:100-111 | a returning traveller is let in exactly when the saved text parses to the drawn pattern; otherwise, including unparsable text, it is an error |
| LandingPage.Lock.ResetApp | components/LandingPage.tsx:124-129 | a confirmed reset clears storage and returns to the first screen; a refusal changes nothing |

## Left out

- Rendering: markup, styles, icons, animations, scrolling, vibration and the 200 ms title flash are not modelled.
- `services/geminiService.ts` is not part of this model. The network call is the `responseText` parameter, and the history and location sent with the message are not modelled.
- `components/MapView.tsx` and `components/AdminDashboard.tsx` are not part of this model, nor are logout, geolocation, the language menu or the translations.
- Persisting favourites, counts, reviews and the user to `localStorage`, and `safeParse` on startup, are not modelled. The constructor takes the loaded values.
- `Types.Place` keeps `lat` and `lng` as the captured text. `parseFloat` is left out because floating point is not modelled.
- `Types.Place` drops `isPartner` and `website`, and `Types.Message` drops `isMapRequest`. No core operation reads them.
- App.CountOf and App.ReviewsOf: read `favCounts` and `allReviews` as maps. In the source they are plain objects, so a place named after an `Object.prototype` member (`constructor`, `toString`, `__proto__`) reads the inherited member: `(prev[name] || 0) + 1` then concatenates strings and the card's rating is `NaN`. The model gives such names the count 0 and no reviews.
- Counts are integers. The non-integer numbers JavaScript would allow are left out.
- `Text.Lower` lower-cases ASCII letters only; the Unicode table of `toLowerCase` is not modelled. `Text.IsSpace` is the full ECMAScript white-space and line-terminator set that `trim` and `\s` use. Strings are sequences of characters rather than UTF-16 code units.
- LandingPage.Decode: accepts only the compact form `JSON.stringify` writes. Texts that `JSON.parse` accepts in other forms (spaces, numbers outside 0..8, nested values) fail here. The check still compares printed forms, as the source does.
- Touch tracking (`handleTouchMove`, `getDotCenter`) is not modelled; its effect is `DotInteraction` on the dot under the finger. The page reload after a reset is modelled as the first screen.
- The timers are separate steps or are folded into the step that starts them:
  - the 800 ms error timer is `ErrorTimeout`;
  - the 1000 ms login timer is folded into `ProceedToLogin`;
  - the carousel's 6-second interval is `Next`.
  Interleavings of these timers with other events are not modelled.
- App.AppState.CompleteSend: uses the counts and reviews current when the reply arrives. The source's closure reads them as they were when the send started. The two differ only if favourites change while a reply is pending.
- App.AppState.ToggleFavorite: keeps `UniqueNames` only when it held before. It is not part of `Valid`, because `handleUpdatePlace` can give a favourite the name of another.
- The carousel always writes `votos`, even for one vote (`components/PartnerCarousel.tsx:71`). This is a label and carries no contract.

## Findings

| source | as written | input that shows it | evidently intended | confidence | as-written member | corrected member |
|---|---|---|---|---|---|---|
| components/PartnerCarousel.tsx:11-23 | `currentIndex` is kept when the parent passes a shorter list, so `partners[currentIndex]` can be `undefined` and line 26 then reads a field of it | two favourites with images, the second shown, then the second un-favourited: index 1 with one partner | the index is brought back into range when the list changes, so a current partner exists whenever there are partners | not executed | PartnerCarousel.Carousel.ReceivePartnersAsWritten, PartnerCarousel.ShrinkScenario | PartnerCarousel.Carousel.SetPartners, PartnerCarousel.ReconciledIndex, PartnerCarousel.ShrinkScenarioReconciled |
