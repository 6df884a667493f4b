# BotBuilder-Location dialogs in Dafny

BotBuilder-Location is a Bot Framework control that collects a location from
a user over a few chat turns. The user can:

- pick one of their saved favourites;
- type an address, which is geocoded and shown as up to five candidates;
- share a point through Facebook's native picker.

The control then optionally reverse-geocodes a bare point and asks for any
required address fields. It asks the user to confirm the location and hands
a `Place` to the calling bot. A location chosen through "new" from the
favourites list can also be saved as a favourite.

This project models the decision logic of those dialogs:

- **C# library:**
  - the root `LocationDialog`;
  - the retriever factory;
  - the favourites dialog;
  - the Facebook point extraction;
  - the card and keyboard builders;
  - the favourites list kept in the user data.
- **Node library:**
  - the resolve dialogs, both the current Bing one and the earlier TypeScript one;
  - the single-location confirmation;
  - the yes/no confirm dialog;
  - the add-favourite and delete-favourite dialogs.

A dialog turn is one message in and a step out: the messages posted, and one
`Common.Action`. The action is one of:
- wait for the next message;
- call a child dialog;
- complete with a result;
- hand the results to the next waterfall step;
- replace itself with another dialog;
- fail with an exception.

State that the source keeps in objects across turns is modelled as classes
whose methods change it:
- the fields of `LocationDialog`;
- the favourites dialog's list;
- the user-data bag;
- the Node favourites store.

Pure decisions are modelled as functions. External services become
parameters: the geocoders, and the localized yes/no regular expressions.

Modules follow the source files:

| file | module | source |
|---|---|---|
| common.dfy | Common | shared: trimming, ordinal case-insensitive comparison, Int32 parsing and printing |
| geo.dfy | Geo | Bing `Location`, `Address`, `GeocodePoint`; the caller-facing `Place` |
| bot_types.dfy | BotTypes | options, required fields, resource strings, cards, posts |
| client_location_lists.dfy | ClientLocationLists | CSharp/BotBuilderLocation/ClientLocationListManagerBase.cs |
| favorites_manager.dfy | FavoritesManager | CSharp/BotBuilderLocation/FavoritesManager.cs |
| location_card.dfy | LocationCard | CSharp/BotBuilderLocation/LocationCard.cs |
| facebook_location_dialog.dfy | FacebookLocation | CSharp/BotBuilderLocation/Channels/FacebookLocationDialog.cs |
| location_dialog_factory.dfy | DialogFactory | CSharp/BotBuilderLocation/Dialogs/LocationDialogFactory.cs |
| favorite_locations_dialog.dfy | FavoriteLocations | CSharp/BotBuilderLocation/Dialogs/FavoriteLocationsDialog.cs |
| location_dialog.dfy | Orchestrator | CSharp/BotBuilderLocation/LocationDialog.cs |
| node_session.dfy | NodeSession | Node session results, messages, and the favourites store |
| confirm_dialog.dfy | NodeConfirm | Node/core/src/dialogs/confirm-dialog.ts, Node/core/lib/dialogs/confirm-dialog.js |
| confirm_single_location_dialog.dfy | ConfirmSingleLocation | Node/core/lib/dialogs/confirm-single-location-dialog.js |
| resolve_bing_location_dialog.dfy | ResolveBingLocation | Node/core/lib/dialogs/resolve-bing-location-dialog.js |
| default_location_dialog.dfy | DefaultLocation | Node/src/dialogs/default-location-dialog.ts |
| add_favorite_location_dialog.dfy | AddFavoriteLocation | Node/core/lib/dialogs/add-favorite-location-dialog.js |
| delete_favorite_location_dialog.dfy | DeleteFavoriteLocation | Node/core/lib/dialogs/delete-favorite-location-dialog.js |

Main results:

- **Keyboard numbering.** The keyboard card's loop increments its counter
  twice per pass, so the buttons are numbered 1, 3, 5, …. Every odd choice
  has a button and no even choice does. Pressing button k picks favourite
  2k+1, because `Int32.TryParse` reads back what `ToString` wrote. Any
  favourite can still be picked by typing its number.
- **Reverse geocoding.** It only ever fills in a missing address. It never
  sets the street line and never changes anything else. A point shared
  through Facebook reaches the caller's `Place` with the same latitude and
  longitude.
- **Root dialog protocol.**
  - A branch reply must match a branch label exactly.
  - "New" from the favourites list restarts the dialog in the other-location
    branch, marked for saving.
  - The required-fields dialog runs at most once per branch start.
  - "Yes" at the final confirmation saves the location if and only if it was
    marked. "No" repeats the opening turn exactly, after the reset prompt.
- **Yes/no dialog.** Invalid replies never end it. The first yes or no ends
  it, and later replies are never read. Yes wins ties.
- **Node favourites store.** It never exceeds its capacity and never holds
  two names that differ only in case. Only a confirmed delete changes it.

## Model

| member | source | states |
|---|---|---|
| Common.Trim | CSharp/BotBuilderLocation/Dialogs/FavoriteLocationsDialog.cs:55 | the trimmed text is no longer than the input, and it neither starts nor ends with white space |
| Common.TrimIsSlice | CSharp/BotBuilderLocation/Dialogs/FavoriteLocationsDialog.cs:55 | the trimmed text is a slice of the input, and only white space is cut from either side |
| Common.TrimIdempotent | CSharp/BotBuilderLocation/LocationDialog.cs:216 | trimming already trimmed text changes nothing |
| Common.NatToString | CSharp/BotBuilderLocation/LocationCard.cs:68-69 | `i.ToString()` for a count: non-empty, decimal digits only, no leading zero |
| Common.ParseInt32 | CSharp/BotBuilderLocation/Dialogs/FavoriteLocationsDialog.cs:64 | on trimmed text, `int.TryParse` succeeds exactly when the text is an optional sign, then one or more digits whose value lies in the 32-bit range, then any number of U+0000 characters; it then gives that signed value |
| Common.DigitsValueOfZeros | CSharp/BotBuilderLocation/Dialogs/FavoriteLocationsDialog.cs:64 | leading zeros do not change the value of a numeral |
| Common.WithoutTrailingNulsIsPrefix | CSharp/BotBuilderLocation/Dialogs/FavoriteLocationsDialog.cs:64 | the numeral `int.TryParse` reads (`WithoutTrailingNuls`) is the text up to its trailing run of U+0000 characters: a prefix of it that does not end in U+0000, followed only by U+0000 |
| Common.ParseSignedDigits | CSharp/BotBuilderLocation/Dialogs/FavoriteLocationsDialog.cs:64 | any sign, any non-empty run of digits whose value is in range, and any number of trailing U+0000 characters parse to the signed value of the digits |
| Common.ParsedStartsWithSignOrDigit | CSharp/BotBuilderLocation/Dialogs/FavoriteLocationsDialog.cs:64 | text that `int.TryParse` accepts starts with a digit or a sign |
| Common.ParsePaddedNumeral | CSharp/BotBuilderLocation/Dialogs/FavoriteLocationsDialog.cs:64 | an explicit "+", a "-", leading zeros and trailing U+0000 characters are all accepted with the value kept: "+2", "02", "-1" and "2\0" read as 2, 2, -1 and 2 |
| Common.ParseNatToString | CSharp/BotBuilderLocation/Dialogs/FavoriteLocationsDialog.cs:64 | `int.TryParse` reads back every number `ToString` writes, up to Int32.MaxValue |
| Common.NatToStringInjective | CSharp/BotBuilderLocation/LocationCard.cs:68-69 | distinct numbers get distinct button texts |
| Common.EqualsIgnoreCaseCharwise | CSharp/BotBuilderLocation/Dialogs/LocationDialogFactory.cs:39 | two strings are equal under ordinal ignore-case exactly when they have the same length and each pair of characters is equal after upper-casing; characters that differ are both letters |
| Geo.PointOnlyLocation | CSharp/BotBuilderLocation/Channels/FacebookLocationDialog.cs:54-64 | the location has no type, no name and no address, and a point whose coordinates are exactly [latitude, longitude] |
| ClientLocationLists.UserData.constructor | CSharp/BotBuilderLocation/ClientLocationListManagerBase.cs:24 | a fresh user-data bag holds no entries |
| ClientLocationLists.GetList | CSharp/BotBuilderLocation/ClientLocationListManagerBase.cs:20-33 | the list stored under the key when present, and the empty list (never an error) when not |
| ClientLocationLists.AddToList | CSharp/BotBuilderLocation/ClientLocationListManagerBase.cs:13-18 | the entry at the key becomes the old list (empty if none) followed by the value, with no capacity or duplicate check; every other entry is unchanged |
| FavoritesManager.GetFavorites | CSharp/BotBuilderLocation/FavoritesManager.cs:18-21 | the list under the literal key "favorites", empty when nothing was stored |
| FavoritesManager.AddToFavorites | CSharp/BotBuilderLocation/FavoritesManager.cs:13-16 | the favourites become the previous favourites followed by the value; other entries are unchanged |
| LocationCard.LocationHeroCard | CSharp/BotBuilderLocation/LocationCard.cs:35-42 | the card's subtitle is the location's label; it has a map image, pinned with its 1-based number, exactly when the location has a point, and no buttons |
| LocationCard.HeroLabel | CSharp/BotBuilderLocation/LocationCard.cs:28 | the label ends with the formatted address; when numbered it starts with the digits of the number i, without leading zeros, followed by ". ", and otherwise it is the address alone |
| LocationCard.CreateLocationHeroCard | CSharp/BotBuilderLocation/LocationCard.cs:20-50 | fails with a null reference exactly when some location has no address; otherwise exactly one card per location in input order, card k labelled "k. address" when `alwaysShowNumericPrefix` is set or there are several locations and the bare address otherwise |
| LocationCard.NumberButtons | CSharp/BotBuilderLocation/LocationCard.cs:63-71 | no numbered buttons for a count of 0 or less, and (count + 1) / 2 of them otherwise |
| LocationCard.LabelButtons | CSharp/BotBuilderLocation/LocationCard.cs:73-81 | one button per additional label |
| LocationCard.CreateLocationKeyboardCard | CSharp/BotBuilderLocation/LocationCard.cs:59-86 | a single keyboard attachment whose buttons are the numbered buttons followed by one button per label, in order, title equal to value |
| LocationCard.NumberButtonValues | CSharp/BotBuilderLocation/LocationCard.cs:63-71 | the k-th numbered button has title equal to value, its value is the decimal text of 2k + 1 and parses back to 2k + 1, and 1 <= 2k + 1 <= count |
| LocationCard.OddOptionsHaveButtons | CSharp/BotBuilderLocation/LocationCard.cs:63-71 | every odd number from 1 to the count has a button |
| LocationCard.EvenOptionsHaveNoButton | CSharp/BotBuilderLocation/LocationCard.cs:63-71 | no button sends an even number, so the second, fourth, … options have none |
| FacebookLocation.FirstPlace | CSharp/BotBuilderLocation/Channels/FacebookLocationDialog.cs:48 | found exactly when some entity's type is "Place" (compared exactly), and it is the earliest such entity |
| FacebookLocation.MessageReceived | CSharp/BotBuilderLocation/Channels/FacebookLocationDialog.cs:44-72 | the dialog always completes on the first reply; with a location exactly when the first place has geo data with both latitude and longitude, and that location is the point [latitude, longitude] alone; otherwise with null |
| FacebookLocation.FirstPlaceOfPrefix | CSharp/BotBuilderLocation/Channels/FacebookLocationDialog.cs:48 | entities after the first place do not change which place is first |
| FacebookLocation.OnlyFirstPlaceCounts | CSharp/BotBuilderLocation/Channels/FacebookLocationDialog.cs:48-71 | once a place is present, later entities cannot change the dialog's result |
| DialogFactory.NewFactory | CSharp/BotBuilderLocation/Dialogs/LocationDialogFactory.cs:19-35 | succeeds exactly when api key, channel id and prompt are all present; otherwise an ArgumentNullException naming the first missing one, in that order |
| DialogFactory.CreateLocationRetrieverDialog | CSharp/BotBuilderLocation/Dialogs/LocationDialogFactory.cs:37-71 | branch names compared ignoring case, the other-location branch first: the native Facebook retriever exactly when the native control is enabled on the "facebook" channel (ignoring case), else the rich retriever with keyboard support exactly on Facebook; the favourites dialog for the favourite branch; an invalid-branch error for anything else |
| DialogFactory.BranchCaseDoesNotMatter | CSharp/BotBuilderLocation/Dialogs/LocationDialogFactory.cs:41-63 | two spellings of a branch that differ only in case produce the same dialog |
| FavoriteLocations.Choose | CSharp/BotBuilderLocation/Dialogs/FavoriteLocationsDialog.cs:55-67 | the reply is the new command exactly when its trimmed text equals the command ignoring case, and then nothing else is checked; a favourite is picked exactly when the trimmed text parses to n with 1 <= n <= count, and it is favourite n - 1 |
| FavoriteLocations.FavoriteLocationsDialog.constructor | CSharp/BotBuilderLocation/Dialogs/FavoriteLocationsDialog.cs:19-27 | keeps the api key and keyboard support, with an empty list |
| FavoriteLocations.FavoriteLocationsDialog.Prompt | CSharp/BotBuilderLocation/Dialogs/FavoriteLocationsDialog.cs:35-36 | the "none found" prompt exactly when there are no favourites, the "found" prompt otherwise |
| FavoriteLocations.FavoriteLocationsDialog.Start | CSharp/BotBuilderLocation/Dialogs/FavoriteLocationsDialog.cs:29-51 | loads the favourites; fails when one lacks an address; otherwise posts a carousel of count + 1 cards (numbered favourites in order, the new-command card last), then the prompt ("none found" exactly when the list is empty) as a keyboard card with the numbered and new-command buttons when the channel supports it and as text otherwise, and waits |
| FavoriteLocations.FavoriteLocationsDialog.MessageReceived | CSharp/BotBuilderLocation/Dialogs/FavoriteLocationsDialog.cs:53-75 | a message without text faults, as the trimming throws; otherwise it completes with the trimmed new command and no location, or with the chosen favourite; any other reply posts the invalid-choice message (the empty-list one when there are no favourites) and waits again |
| FavoriteLocations.KeyboardButtonPicksFavorite | CSharp/BotBuilderLocation/Dialogs/FavoriteLocationsDialog.cs:41-66 | pressing the k-th keyboard button picks favourite 2k (0-based), unless the new command equals that number |
| FavoriteLocations.TypedNumberPicksFavorite | CSharp/BotBuilderLocation/Dialogs/FavoriteLocationsDialog.cs:63-72 | typing n picks favourite n - 1 for every 1 <= n <= count, with or without a button, and 0 or a number past the end is refused |
| Orchestrator.AddressWithoutStreet | CSharp/BotBuilderLocation/LocationDialog.cs:318-325 | the new address copies country, admin district, admin district 2, locality and postal code, and leaves the street line (and formatted address) empty |
| Orchestrator.TryReverseGeocodeAddress | CSharp/BotBuilderLocation/LocationDialog.cs:304-328 | unchanged unless the option is on and the location has a point but no address; then a point with fewer than two coordinates throws ArgumentOutOfRange, a failing geocoder throws, a first result with an address fills in the address from it without its street line, and any other reply leaves the location as it was; only the address ever changes, and only from none to some |
| Orchestrator.CreatePlace | CSharp/BotBuilderLocation/LocationDialog.cs:364-395 | type and name copied; a postal address exactly when the location has an address (country from country/region, region from admin district, street from the address line, …); coordinates exactly when the point has coordinates, latitude first |
| Orchestrator.NativePointReachesPlace | CSharp/BotBuilderLocation/LocationDialog.cs:304-395 | a point shared through Facebook reaches the caller's Place with the same latitude and longitude; without reverse geocoding the place has no address, and with it, a first result with an address gives the place that address's country, region, locality and postal code and no street address; only a failing geocoder loses the point |
| Orchestrator.NewFromFavoritesIsNewCommand | CSharp/BotBuilderLocation/LocationDialog.cs:240-245 | typing the new command in the favourites list completes it with an answer the location dialog takes for the new command |
| Orchestrator.LocationDialog.constructor | CSharp/BotBuilderLocation/LocationDialog.cs:134-172 | the public constructor, which runs the internal one's field assignments first: keeps its arguments; the branches are the favourite and the other-location labels, in that order |
| Orchestrator.LocationDialog.BranchMenu | CSharp/BotBuilderLocation/LocationDialog.cs:329-357 | one hero card asking which branch, with no image and one button per branch, in branch order, title equal to value |
| Orchestrator.LocationDialog.Start | CSharp/BotBuilderLocation/LocationDialog.cs:180-197 | sets the branch to other-location and clears the favourite mark; goes straight into that branch when favourites are opted out of, and otherwise posts the branch menu and waits; the selected location is kept |
| Orchestrator.LocationDialog.StartCurrentBranch | CSharp/BotBuilderLocation/LocationDialog.cs:199-212 | every branch start forgets that the required-fields dialog was called and calls the factory's retriever for the branch |
| Orchestrator.LocationDialog.MessageReceived | CSharp/BotBuilderLocation/LocationDialog.cs:214-228 | a message without text ends the dialog in a fault with nothing posted, as the trimming throws; otherwise the trimmed reply starts the branch it equals exactly (case-sensitive); anything else posts the invalid-branch message and waits with the state unchanged |
| Orchestrator.LocationDialog.ResumeAfterChild | CSharp/BotBuilderLocation/LocationDialog.cs:237-262 | the new command sets the favourite mark and restarts the other-location branch without touching the selected location; any other answer is selected, reverse-geocoded when that applies, then goes to the required-fields dialog only if it was not yet called since the branch started and fields are required, else to the final confirmation |
| Orchestrator.LocationDialog.MakeFinalConfirmation | CSharp/BotBuilderLocation/LocationDialog.cs:264-288 | asks to confirm the selected location, with the confirmation retry message; fails when none is selected |
| Orchestrator.LocationDialog.ConfirmationAnswered | CSharp/BotBuilderLocation/LocationDialog.cs:270-285 | yes: the location is added to the favourites exactly when marked, the dialog completes with its Place, and the dialog's fields stay as they were; no: the reset prompt, then exactly the opening turn again, with the favourite mark cleared and the selected location kept; a prompt that gave up throws with nothing changed; user-data entries other than the favourites never change |
| Orchestrator.LocationDialog.PostProcessSelectedLocation | CSharp/BotBuilderLocation/LocationDialog.cs:290-297 | a marked location is appended to the favourites and confirmed; otherwise the user data is untouched and nothing is posted; no other user-data entry ever changes |
| NodeSession.ConfirmedResponse | Node/core/src/dialogs/confirm-dialog.ts:18-24 | the response carries `confirmed` and nothing else |
| NodeSession.Without | Node/core/lib/dialogs/delete-favorite-location-dialog.js:22 | keeps exactly the favourites with another name, never grows, and changes nothing when no favourite has the name |
| NodeSession.WithoutFiltersInOrder | Node/core/lib/dialogs/delete-favorite-location-dialog.js:22 | removal works element by element and keeps order and multiplicity: removing from a concatenation removes from each part, a favourite with the name is dropped and any other is kept once |
| NodeSession.WithoutKeepsNamesUnique | Node/core/lib/dialogs/delete-favorite-location-dialog.js:22 | deleting keeps the favourite names unique up to case |
| NodeSession.FavoritesStore.constructor | Node/core/lib/dialogs/add-favorite-location-dialog.js:18 | an empty store with the given capacity |
| NodeSession.FavoritesStore.MaxCapacityReached | Node/core/lib/dialogs/add-favorite-location-dialog.js:19 | in a valid store, full means holding exactly the capacity |
| NodeSession.FavoritesStore.IsFavorite | Node/core/lib/dialogs/add-favorite-location-dialog.js:19 | some favourite holds a location equal to the given one |
| NodeSession.FavoritesStore.IsFavoriteLocationName | Node/core/lib/dialogs/add-favorite-location-dialog.js:50 | some favourite has the name, ignoring case |
| NodeSession.NameIdentifiesOneFavorite | Node/core/lib/dialogs/add-favorite-location-dialog.js:50 | in a store with unique names, a name matches at most one favourite |
| NodeSession.FavoritesStore.Add | Node/core/lib/dialogs/add-favorite-location-dialog.js:58 | appends exactly when the store is not full and no favourite has the name (ignoring case), otherwise changes nothing; the store stays within capacity with unique names |
| NodeSession.FavoritesStore.Delete | Node/core/lib/dialogs/delete-favorite-location-dialog.js:22 | removes the favourites with the given one's name, keeping the rest in order and the store valid |
| NodeConfirm.ParseBoolean | Node/core/src/dialogs/confirm-dialog.ts:34-47 | on the trimmed, case-folded text: true exactly when yes matches, false exactly when only no matches, undefined when neither does |
| NodeConfirm.Begin | Node/core/src/dialogs/confirm-dialog.ts:11-14 | sends the confirmation prompt as given |
| NodeConfirm.OnDefault | Node/core/src/dialogs/confirm-dialog.ts:15-31 | a yes or no ends the dialog with `{confirmed: answer}` and sends nothing; anything else sends InvalidYesNo and stays |
| NodeConfirm.InvalidStep | Node/core/lib/dialogs/confirm-dialog.js:15-29 | a reply that is neither yes nor no sends InvalidYesNo and leaves the rest of the conversation to the following replies |
| NodeConfirm.InvalidPrefix | Node/core/lib/dialogs/confirm-dialog.js:15-29 | any run of invalid replies only puts one InvalidYesNo per reply in front of what the following replies produce |
| NodeConfirm.RepeatedInvalidInput | Node/core/lib/dialogs/confirm-dialog.js:15-29 | any number of invalid replies leaves the dialog waiting with no answer, having sent InvalidYesNo once per reply; there is no retry limit |
| NodeConfirm.FirstAnswerEnds | Node/core/lib/dialogs/confirm-dialog.js:16-26 | the first yes or no ends the dialog with that answer; replies after it are never read |
| NodeConfirm.YesWinsTies | Node/core/lib/dialogs/confirm-dialog.js:35-40 | a reply both expressions match is a yes |
| NodeConfirm.CaseDoesNotMatter | Node/core/lib/dialogs/confirm-dialog.js:32-34 | replies equal up to letter case and surrounding white space get the same answer |
| ConfirmSingleLocation.Begin | Node/core/lib/dialogs/confirm-single-location-dialog.js:10-13 | keeps the locations and asks SingleResultFound through the confirm dialog |
| ConfirmSingleLocation.AfterConfirm | Node/core/lib/dialogs/confirm-single-location-dialog.js:14-22 | always ends: a yes with the first location as the place, anything else (a missing response included) with a reset request, never both |
| ResolveBingLocation.Truncated | Node/core/lib/dialogs/resolve-bing-location-dialog.js:56-57 | the first min(5, n) locations, in order |
| ResolveBingLocation.Begin | Node/core/lib/dialogs/resolve-bing-location-dialog.js:42-48 | nothing when the prompt is skipped; otherwise the prompt followed by the title suffix, or alone when the suffix is skipped |
| ResolveBingLocation.OnDefault | Node/core/lib/dialogs/resolve-bing-location-dialog.js:49-62 | no candidates: LocationNotFound and keep waiting; otherwise show and end with the first at most five; a geocoder failure is a session error |
| ResolveBingLocation.Start | Node/core/lib/dialogs/resolve-bing-location-dialog.js:18-20 | begins the resolve dialog with the caller's arguments |
| ResolveBingLocation.AfterResolve | Node/core/lib/dialogs/resolve-bing-location-dialog.js:21-35 | one location goes to the single-location confirmation, any other present list (even an empty one) to the choice dialog, and no list passes the results on |
| ResolveBingLocation.QueryReachesConfirmOrChoice | Node/core/lib/dialogs/resolve-bing-location-dialog.js:23-30 | a query with one result reaches the confirmation, one with several reaches the choice among its first min(5, n) |
| ResolveBingLocation.SingleCandidateConfirmed | Node/core/lib/dialogs/confirm-single-location-dialog.js:14-17 | a single candidate confirmed with a yes ends the flow with that candidate, unchanged, as the place |
| DefaultLocation.ConstructCard | Node/src/dialogs/default-location-dialog.ts:75-88 | a card has a map image, pinned with the 0-based index, exactly when the location has a point |
| DefaultLocation.CardText | Node/src/dialogs/default-location-dialog.ts:77-78 | the card text ends with the formatted address and has a prefix exactly when there is more than one location |
| DefaultLocation.CardTextMatchesHeroLabel | Node/src/dialogs/default-location-dialog.ts:77-78 | the card text is "(index + 1). address" exactly when there are several locations, the same label the C# card builder writes |
| DefaultLocation.CreateLocationsCard | Node/src/dialogs/default-location-dialog.ts:63-73 | one card per location in order; a location without an address makes it throw |
| DefaultLocation.Begin | Node/src/dialogs/default-location-dialog.ts:43-44 | sends the prompt as given |
| DefaultLocation.OnDefault | Node/src/dialogs/default-location-dialog.ts:45-60 | no candidates: the string "LocationNotFound" (localized by the framework like any sent string) and keep waiting; otherwise the cards of the first at most five and end with them; a failure sends nothing and leaves the dialog waiting |
| DefaultLocation.Start | Node/src/dialogs/default-location-dialog.ts:17-19 | begins the resolve dialog with the caller's prompt only |
| DefaultLocation.AfterResolve | Node/src/dialogs/default-location-dialog.ts:20-34 | one location goes to the confirm dialog, any other present list to the choice dialog, and no list passes the results on |
| DefaultLocation.WaterfallsAgree | Node/src/dialogs/default-location-dialog.ts:22-33 | the earlier and the current waterfall route every result alike, to differently named children |
| AddFavoriteLocation.Begin | Node/core/lib/dialogs/add-favorite-location-dialog.js:14-27 | a full store or an existing favourite ends at once with an empty response; otherwise the place is kept and AddToFavoritesAsk is asked |
| AddFavoriteLocation.AfterConfirm | Node/core/lib/dialogs/add-favorite-location-dialog.js:30-39 | a yes begins the name dialog with the kept place; anything else passes the results on |
| AddFavoriteLocation.NameBegin | Node/core/lib/dialogs/add-favorite-location-dialog.js:44-47 | keeps the place and asks for a name |
| AddFavoriteLocation.NameOnDefault | Node/core/lib/dialogs/add-favorite-location-dialog.js:47-62 | a trimmed name already in use (ignoring case) is refused and nothing is added; otherwise exactly one favourite {place, name} is added (when there is room), confirmed, and the dialog ends with an empty response |
| DeleteFavoriteLocation.Begin | Node/core/lib/dialogs/delete-favorite-location-dialog.js:12-17 | keeps the arguments and the favourite, and asks for confirmation naming it |
| DeleteFavoriteLocation.AfterConfirm | Node/core/lib/dialogs/delete-favorite-location-dialog.js:19-33 | yes: deletes, confirms and replaces itself with the favourites list begun with the original arguments; no: says so and does the same without deleting; no answer: passes the results on; only yes changes the store |

## Left out

- The Bot Framework runtime is not part of this model. Posting, waiting, calling dialogs, ending dialogs and async/await become the returned posts and `Common.Action`. The persistence of dialog state between turns is not modelled.
- Several dialogs are not part of this model: the required-fields dialog, the rich retriever, the Facebook native retriever wrapper, the choose-location and choice dialogs, the retrieve-favourite dialog and `LocationDialogBase`. They appear only as the child values the modelled dialogs call, and the base dialog's special commands (reset, help, cancel) are not modelled.
- The Bing geocoder and the map-image URLs are HTTP calls. Their answers are parameters (`Orchestrator.GeocodeReply`, `ResolveBingLocation.QueryReply`), and a card's image is the number it is pinned with.
- Localized strings are opaque: C# resources are fields of `BotTypes.Resources`, and Node `gettext` strings are `NodeSession.StringId`. The final confirmation question and its formatted address are not modelled.
- Card rendering is left out: layouts, `imBack` action types and Facebook quick replies. Only labels, images, buttons and counts are kept.
- The Node favourites manager is not part of this model. `NodeSession.FavoritesStore` stands for its documented behaviour:
  - the capacity count;
  - equality of locations for `isFavorite`;
  - case-insensitive names;
  - `add` refusing when full or when the name is taken.
- NodeSession.FavoritesStore.Delete: removes by exact name, which is one reading of "the matching entry".
- Orchestrator.TryReverseGeocodeAddress: the source writes the new address into the location object in place. The model returns a new value and reassigns the selected location, so aliasing of that object (shared with the child's response) is not captured.
- Orchestrator.LocationDialog.MakeFinalConfirmation: `GetFormattedAddress` is not part of this model. A missing selected location is modelled as an exception (`Fault`).
- Orchestrator.LocationDialog.constructor: the null checks of api key, prompt, channel id and geospatial service are not modelled, because strings here are never null. The geospatial service is the `geocode` parameter of `ResumeAfterChild`.
- Orchestrator.LocationDialog.constructor: models the public constructor (LocationDialog.cs:134-145), which chains to the internal one (LocationDialog.cs:157-172). A dialog built with the internal constructor alone, which injects a geospatial service, has no branches and no favourites manager, so starting it would throw. That path is not modelled.
- FavoriteLocations.FavoriteLocationsDialog.constructor: the null check of the api key is not modelled, for the same reason.
- The C# sources mix two versions of the factory:
  - `LocationDialog` calls a static six-argument `CreateLocationRetrieverDialog`, while the factory declares an instance method taking only the branch. The model connects them through `DialogFactory.CreateLocationRetrieverDialog`, with a factory value built from the dialog's own fields.
  - The factory passes a `locationDialogFactory` argument that the favourites dialog's constructor does not take, so it is dropped.
- Orchestrator.LocationDialog.PostProcessSelectedLocation: the source does not await it. The model runs it to completion before the dialog completes, so the relative order of the favourite confirmation and completion is not captured.
- `GeocodePoint.HasCoordinates` is not part of this model. It is taken to mean exactly two coordinates.
- Coordinates are `real`s standing for doubles. They are only copied, so no floating-point behaviour is modelled.
- Common.Trim: one white-space set serves both languages: Unicode white space, U+0085 and U+FEFF. C#'s `Trim` does not remove U+FEFF. JavaScript's `trim` does not remove U+0085 (NEL), so a Node reply such as "yes\u0085" reaches the yes/no matchers and the favourite-name check with the NEL cut off in the model and kept in the source.
- LocationCard.CreateLocationKeyboardCard: the counter is a 32-bit `int` in the source. For a count of Int32.MaxValue it wraps after the last button and the loop never ends. The model stops after (count + 1) / 2 buttons; no 32-bit wrap-around is modelled.
- Absent text fields of Bing locations (null in C#) are modelled as "". For a Facebook point, `CreatePlace` therefore gives the place a type and a name of "" where the source gives null. In Node, `DefaultLocation.CardText` concatenates an absent `formattedAddress` as the text "undefined"; the model gives the prefix alone.
- Common.EqualsIgnoreCaseCharwise: ordinal ignore-case comparison and the `i` flag of the yes/no regular expressions are modelled on ASCII letters only. Case folding of other letters is not modelled.
- NodeConfirm.ParseBoolean: the localized regular expressions are abstract predicates on the trimmed, case-folded reply.
- Common.ParseInt32: models `int.TryParse` on text that is already trimmed. Culture-specific signs are not modelled. White space inside the text is not modelled either, for example the space in "2 \0", which the .NET parser skips before the U+0000 run. `FavoriteLocations.Choose` inherits both gaps.
- JavaScript truthiness is modelled only for the values these dialogs see: `confirmed` is an optional boolean, and a present `locations` array is truthy even when empty.
- `LocationRequiredFields` flags are a set, with `None` as the empty set.
