# Study City — a Dafny model of the study-reward and city-state logic

Study City is a React app that turns study sessions into buildings of a virtual
city. Each subject is a city. A finished session adds one building to it. How
the session went against its goal decides the building's height, the coins
earned and the rooms it unlocks. Coins buy decorations for buildings.

This project models that logic as immutable datatypes and pure functions, and
proves properties of it. The modules follow the app's files:

- `Reward`: the reward rule inside `completeStudySession`. It covers completion,
  coins, height and rooms.
- `Progression`: the main page's state and its four operations: create a city,
  complete a study session, delete a city, purchase a decoration. It also has
  the headline building count.
- `StudyTimer`: the timer's state machine (tick, pause/resume, Finish), the
  `H:MM:SS` / `M:SS` display with a reader that inverts it, the progress value
  and the goal-met test.
- `StartStudyModal`: the goal slider's domain and default, the reward preview
  and `handleStart`.
- `CityStats`: per-city figures derived from a city's buildings. The completed
  count and the tree/carousel thresholds appear on both the city card and the
  city view. The room total is the card's, and the study-hours figure (from
  the minute total) is the view's.
- `CityCard` and `CityView`: skyline truncation, icon and rendered heights,
  building classification and widths.
- `DecorationShop`: what the two decoration shops share. This is the catalog
  lookup, the purchase guard and the button state.
- `BuildingDecorationModal`: the building dialog's catalog and its
  current-decorations badges.
- `RoomDecorator`: the room decorator's placement table and placement rule.
- `CreateCityModal`: the create-city dialog's palette, trimmed-name guard and
  resets.
- `Text`: the string functions the model needs. Decimal digits, two-digit zero
  padding and JavaScript's `trim` are the app's own. Splitting on a character
  exists only so that the clock display can be read back.
- `Flows`: how the pieces fit together. It holds the state invariant every
  operation keeps, purchases routed through the guard, the timer's Finish
  feeding `completeStudySession`, and the create-city dialog feeding
  `createCity`.

Identifiers the page takes from `Date.now()` are parameters. Every React
sequence of `set…` calls is one update from the old state to the new.
Heights, hours and progress are exact reals.

The code always writes a residential building, and `purchaseDecoration` neither
checks ownership nor looks the building up. The model follows the code.

## Model

| member | source | states |
|---|---|---|
| Reward.Height | src/pages/Index.tsx:96 | A building is 30 to 100 high. Its height is 100 exactly when the goal is met. Otherwise it is at least the studied share of the goal in percent, and equal to that share whenever it is above the 30 floor. |
| Reward.ComputeReward | src/pages/Index.tsx:87-97 | Completed iff actual ≥ goal. Coins are actual div 5, plus 10 exactly when completed. Height bounds as above. Rooms are 0 when not completed, and otherwise the whole 30-minute blocks of the session. |
| Reward.HeightMonotone | src/pages/Index.tsx:96 | Against the same goal, a longer session never gives a lower building. |
| Reward.RewardMonotone | src/pages/Index.tsx:87-97 | Against the same goal, more minutes never give fewer coins, a lower building or fewer rooms. |
| Reward.ScenarioGoalMet | src/pages/Index.tsx:87-97 | 50 minutes against a 45-minute goal give a completed building of height 100, 20 coins and 1 room. |
| Reward.ScenarioGoalMissed | src/pages/Index.tsx:87-97 | 20 minutes against 60 give an incomplete building of height 100/3, 4 coins and no room. |
| Reward.ScenarioEmptySession | src/pages/Index.tsx:96 | A session of 0 minutes against a positive goal stands at the 30 floor and earns nothing. |
| Progression.NewBuilding | src/pages/Index.tsx:91-100 | The new building carries the given id and both durations, has no decorations, is residential and has the reward rule's completion, height and rooms. |
| Progression.CreateCity | src/pages/Index.tsx:70-78 | Exactly one city is appended, with the given id, name and gradient, no buildings and 0 coins. The existing cities keep their order, and the global totals are unchanged. |
| Progression.SettleMatching | src/pages/Index.tsx:102-110 | Every city with the id gets the building appended and the coins credited. Every other city is unchanged, and the list keeps its length. |
| Progression.CompleteStudySession | src/pages/Index.tsx:86-113 | A matching city keeps its id, name and gradient, gains the new building at the end and the coins in its own wallet. Other cities are unchanged. The global coins grow by the coins earned and the hours by actual/60, even when no city matches. |
| Progression.RemoveCity | src/pages/Index.tsx:118 | The filter drops exactly as many cities as carry the id, and nothing when none does. |
| Progression.RemoveCityMembers | src/pages/Index.tsx:118 | A city survives the filter iff it was present and carries another id. |
| Progression.DeleteCity | src/pages/Index.tsx:117-119 | Survivors are exactly the cities with other ids. An unknown id changes nothing. The global coins and hours never change. |
| Progression.RemoveCityAppend | src/pages/Index.tsx:118 | The filter distributes over concatenation, so survivors keep their relative order. |
| Progression.DeleteIdempotent | src/pages/Index.tsx:117-119 | Deleting an id twice equals deleting it once. |
| Progression.DeleteUndoesCreate | src/pages/Index.tsx:117-119 | Deleting a just-created city's id gives the same state as deleting that id before the creation. |
| Progression.CreateThenDeleteFresh | src/pages/Index.tsx:70-78 | With an id no city carries, creating and then deleting that city restores the original state. |
| Progression.Decorate | src/pages/Index.tsx:125-128 | A building with the id gets the decoration appended. Every other field, and every other building, is unchanged. |
| Progression.DecorateBuildings | src/pages/Index.tsx:125-129 | Each building of the list is decorated in place, and the length is kept. |
| Progression.DecorateCities | src/pages/Index.tsx:123-130 | Each city keeps everything but its buildings, which are decorated in place. |
| Progression.PurchaseDecoration | src/pages/Index.tsx:121-133 | When the wallet covers the cost, it drops by exactly the cost and every building with the id gets the decoration, even if none matches. Otherwise the state is unchanged. City wallets, names, ids and building counts never change. A non-negative wallet stays non-negative. |
| Progression.BuildingCount | src/pages/Index.tsx:220 | The headline count is at least the size of every city's building list, and 0 exactly when no city has a building. |
| Progression.BuildingCountAppend | src/pages/Index.tsx:220 | The headline building count of two lists of cities is the sum of their counts. |
| Progression.CreateKeepsBuildingCount | src/pages/Index.tsx:220 | Creating a city leaves the headline building count unchanged. |
| Progression.SettleAddsBuildings | src/pages/Index.tsx:102-110 | Settling a session adds one building per city with the id to the headline count. |
| Progression.CompleteAddsBuildings | src/pages/Index.tsx:220 | A finished session raises the headline count by the number of cities carrying the id: one for a unique id, none for an unknown one. |
| Progression.RemoveNeverAddsBuildings | src/pages/Index.tsx:220 | Deleting cities never raises the headline count. |
| Progression.DecorateKeepsBuildingCount | src/pages/Index.tsx:220 | A purchase leaves the headline count unchanged. |
| StudyTimer.Tick | src/components/StudyTimer.tsx:20-30 | A tick adds one second only while the timer runs and is not completed. Otherwise it changes nothing. It never changes the flags. |
| StudyTimer.Toggle | src/components/StudyTimer.tsx:55-57 | Pause/resume flips `running` and keeps elapsed time and completion. |
| StudyTimer.CurrentMinutes | src/components/StudyTimer.tsx:60 | The whole minutes m satisfy 60m ≤ elapsed < 60(m+1). |
| StudyTimer.HandleFinish | src/components/StudyTimer.tsx:48-53 | Finish reports the whole minutes elapsed, marks the timer completed, stops it and keeps the elapsed time. |
| StudyTimer.FinishEnabled | src/components/StudyTimer.tsx:173 | The Finish button is enabled iff at least 5 × 60 seconds have elapsed. |
| StudyTimer.GoalMet | src/components/StudyTimer.tsx:61 | The goal counts as met iff the elapsed seconds reach 60 × the goal. |
| StudyTimer.PressFinish | src/components/StudyTimer.tsx:169-174 | The Finish press acts iff at least 300 seconds have passed. When it acts, it is `handleFinish` and reports at least 5 minutes. |
| StudyTimer.Progress | src/components/StudyTimer.tsx:43-46 | Progress lies in 0..100 for a positive goal. It is 100 iff elapsed ≥ 60·goal. Below 100 it is exactly 100·elapsed/(60·goal). |
| StudyTimer.ProgressFullIffGoalMet | src/components/StudyTimer.tsx:59-61 | The progress is full exactly when the goal-met test holds. |
| StudyTimer.FinishedRewardMatchesGoalMet | src/components/StudyTimer.tsx:59-61 | The minutes Finish reports complete the goal under the reward rule exactly when the timer showed it as met. |
| StudyTimer.RunBounds | src/components/StudyTimer.tsx:20-30 | Over any run of ticks, toggles and Finish presses, elapsed time never decreases. It grows by at most the number of ticks. |
| StudyTimer.StartCountsTicks | src/components/StudyTimer.tsx:16-18 | From the initial state (0 seconds, running, not completed), elapsed never exceeds the number of ticks, so Finish is enabled only after at least 300 ticks. |
| StudyTimer.CompletedIsFrozen | src/components/StudyTimer.tsx:20-30 | Once completed, the timer stays completed and its elapsed time never changes. |
| StudyTimer.RunningCountsEveryTick | src/components/StudyTimer.tsx:20-30 | A running timer counts every one of n ticks. |
| StudyTimer.SplitSeconds | src/components/StudyTimer.tsx:32-35 | h·3600 + m·60 + s equals the input, with m < 60 and s < 60. |
| StudyTimer.FormatTime | src/components/StudyTimer.tsx:32-41 | The display splits at its colons into three digit fields from 3600 seconds on and two below. Every field after the first is exactly two digits. From one hour on the fields hold s div 3600 in plain decimal, then (s mod 3600) div 60 and s mod 60. Below one hour they hold s div 60 in plain decimal, then s mod 60. |
| StudyTimer.HourClockShape | src/components/StudyTimer.tsx:37-38 | From one hour on, the display is three fields: the hours without leading zeros, then the minutes and the seconds, each two digits wide and reading back as their values. |
| StudyTimer.MinuteClockShape | src/components/StudyTimer.tsx:40 | Below one hour, the display is two fields: the minutes without leading zeros, then the seconds two digits wide and reading back as their value. |
| StudyTimer.ParseHourClock | src/components/StudyTimer.tsx:37-38 | From one hour on, the display `H:MM:SS` reads back as h·3600 + m·60 + s. |
| StudyTimer.ParseMinuteClock | src/components/StudyTimer.tsx:40 | Below one hour, the display `M:SS` reads back as m·60 + s. |
| StudyTimer.FormatParseRoundTrip | src/components/StudyTimer.tsx:32-41 | Reading the formatted time back gives the original number of seconds, so different seconds never show alike. |
| Text.Digits | src/components/StudyTimer.tsx:38 | A number prints as a non-empty run of digits, one digit exactly below 10, with no leading zero from 10 on. |
| Text.PadStart2 | src/components/StudyTimer.tsx:38 | `padStart(2, '0')` keeps the string as its suffix, adds only zeros in front, and reaches length 2 unless already longer. |
| Text.ParseDigits | src/components/StudyTimer.tsx:38 | The decimal digits of a number read back as that number. |
| Text.PadDigits | src/components/StudyTimer.tsx:38 | A number below 100, padded to two digits, is exactly two characters and still reads back as itself. |
| Text.Trim | src/components/CreateCityModal.tsx:36 | The trimmed name is empty iff the name is all whitespace. Otherwise it is a contiguous slice that starts and ends with a non-whitespace character, and only whitespace surrounds it. |
| Text.TrimIdempotent | src/components/CreateCityModal.tsx:36-37 | Trimming a trimmed name changes nothing. |
| StartStudyModal.SliderGoals | src/components/StartStudyModal.tsx:57-63 | The slider has 11 positions from 30 to 180, each 15 more than the previous one. |
| StartStudyModal.SliderGoalsAreSelectable | src/components/StartStudyModal.tsx:57-63 | A goal is a slider position iff it lies in 30..180 on the 15-minute grid. |
| StartStudyModal.DefaultIsSelectable | src/components/StartStudyModal.tsx:22 | The default goal of 45 is a slider position. |
| StartStudyModal.RewardPreview | src/components/StartStudyModal.tsx:28-35 | The preview's coins and rooms for m minutes are those the reward rule gives a session of m minutes against a goal of m. |
| StartStudyModal.PreviewIsGuaranteed | src/components/StartStudyModal.tsx:28-35 | Any session reaching its goal completes the building and earns at least the previewed coins and rooms. |
| StartStudyModal.SelectableGoalPreview | src/components/StartStudyModal.tsx:28-35 | Every slider goal previews 16 to 46 coins and 1 to 6 rooms. |
| StartStudyModal.OpenedPreview | src/components/StartStudyModal.tsx:22-37 | Started at the default slider position, the dialog hands over 45 minutes and previews 19 coins and one room. |
| StartStudyModal.HandleStart | src/components/StartStudyModal.tsx:24-26 | The goal handed to the page is the slider's value unchanged. For every slider goal it previews at least one room. |
| CityStats.CompletedCount | src/components/CityCard.tsx:19 | The completed count is at most the number of buildings. It is 0 iff none is completed, and equals the number of buildings iff all are. |
| CityStats.TotalRooms | src/components/CityCard.tsx:20 | The room total is at least each building's rooms, and 0 exactly when no building unlocked a room. |
| CityStats.ShowTree | src/components/CityCard.tsx:90-92 | The tree needs more than 3 completed buildings, so it shows only for a city with more than 3 buildings. |
| CityStats.ShowCarousel | src/components/CityCard.tsx:93-95 | The carousel needs more than 5 completed buildings, so it shows only when the tree does, and only for more than 5 buildings. |
| CityStats.StudyHoursStat | src/components/CityView3D.tsx:140 | The study figure h satisfies 60h ≤ total session minutes < 60(h+1). |
| CityStats.TotalsAppend | src/components/CityCard.tsx:19-20 | Appending a building adds its completion to the completed count, its rooms to the room total and its minutes to the minute total. |
| CityStats.RoomsBoundedByMinutes | src/components/CityCard.tsx:20 | For buildings made by the reward rule, the total rooms are at most one per 30 minutes studied, and 0 when none is completed. |
| CityStats.SceneryGrows | src/components/CityCard.tsx:90-95 | Neither the tree nor the carousel disappears when a building is added. |
| CityCard.Skyline | src/components/CityCard.tsx:57 | The skyline is the first min(10, n) buildings, in order. |
| CityCard.MoreNote | src/components/CityCard.tsx:82-84 | "+k more" appears iff there are more than 10 buildings, and then k = n − 10 > 0. |
| CityCard.SkylineAccountsForAll | src/components/CityCard.tsx:82-84 | The drawn buildings plus the note's count equal the number of buildings. |
| CityCard.IconHeight | src/components/CityCard.tsx:58 | The icon height is the larger of 25 and 0.9 × height. |
| CityCard.IconHeightOfRuleBuildings | src/components/CityCard.tsx:58 | For heights of 30 to 100 the 25 floor never applies, so icons are 27 to 90. |
| CityCard.CardIcon | src/components/CityCard.tsx:59 | First match: a session of 60 minutes or more gives the tower. Otherwise a completed session gives a house, and an incomplete one gives the small houses. |
| CityView.GetBuildingType | src/components/CityView3D.tsx:14-19 | First match: skyscraper iff session ≥ 120; office iff 60 ≤ session < 120; house iff session < 60 and completed; small otherwise. Exactly one kind applies. |
| CityView.RenderedHeight | src/components/CityView3D.tsx:67 | The rendered height is the larger of 40 and 2 × height. |
| CityView.RenderedHeightOfRuleBuildings | src/components/CityView3D.tsx:67 | For heights of 30 to 100 the rendered height is 60 to 200. |
| CityView.Width | src/components/CityView3D.tsx:68 | Width is 32 iff skyscraper, 24 iff office, and 20 for a house or a small building. |
| CityView.WidthGrowsWithSession | src/components/CityView3D.tsx:66-68 | A longer session is never drawn narrower. |
| CityView.CardAgreesWithView | src/components/CityView3D.tsx:14-19 | The card's tower is the view's skyscraper or office, its house is the view's house, and its small houses are the view's small. |
| DecorationShop.FindIndex | src/components/BuildingDecorationModal.tsx:69 | The lookup finds the first catalog entry with the id, and finds nothing iff no entry has it. |
| DecorationShop.Find | src/components/BuildingDecorationModal.tsx:69 | A lookup succeeds iff some entry has the id, and returns the first catalog entry with that id. |
| DecorationShop.HandlePurchase | src/components/BuildingDecorationModal.tsx:44-48 | The guard forwards (id, cost) iff coins ≥ cost and the id is not owned. Otherwise it forwards nothing. |
| DecorationShop.ButtonDisabled | src/components/BuildingDecorationModal.tsx:94 | A button is disabled iff the guard would forward nothing for it. |
| DecorationShop.GuardKeepsOwnedDistinct | src/components/BuildingDecorationModal.tsx:45 | Appending what the guard forwards keeps a repeat-free decoration list repeat-free. |
| BuildingDecorationModal.CatalogWellFormed | src/components/BuildingDecorationModal.tsx:23-32 | The catalog has 8 entries with distinct ids and positive costs. |
| BuildingDecorationModal.CurrentDecorations | src/components/BuildingDecorationModal.tsx:67-78 | Every badge is a catalog entry whose id is owned, and there are no more badges than owned ids. |
| BuildingDecorationModal.Badges | src/components/BuildingDecorationModal.tsx:68-74 | The dialog's badges are entries of its own catalog for owned ids. |
| BuildingDecorationModal.CurrentDecorationsAppend | src/components/BuildingDecorationModal.tsx:68-74 | The badges of two runs of owned ids are the first run's badges followed by the second's, so owned order is kept. |
| BuildingDecorationModal.BadgeIffKnown | src/components/BuildingDecorationModal.tsx:68-74 | An id has a badge iff it is owned and the catalog knows it. |
| RoomDecorator.PositionsInsideRoom | src/components/RoomDecorator.tsx:13-22 | Every fixed spot has x and y within 0..100. |
| RoomDecorator.PlaceAll | src/components/RoomDecorator.tsx:45-49 | Everything drawn is an owned id that is both in the shop's catalog and in the table of spots, drawn at its spot. The entry drawn is the first catalog entry with that id, as `find` returns. |
| RoomDecorator.PlaceAllAppend | src/components/RoomDecorator.tsx:45-49 | The room for two runs of owned ids is the first run's placements followed by the second's, so placements follow owned order. |
| RoomDecorator.Placements | src/components/RoomDecorator.tsx:44-64 | With the component's own table, every drawn decoration is owned, available and inside the room. |
| RoomDecorator.PlacedIff | src/components/RoomDecorator.tsx:45-49 | An id is drawn iff it is owned, in the catalog and has a spot. Anything else is skipped. |
| RoomDecorator.EmptyRoomMessage | src/components/RoomDecorator.tsx:68 | The empty-room message shows iff no decoration id is owned. |
| RoomDecorator.EmptyMessageMeansBareRoom | src/components/RoomDecorator.tsx:67-76 | When the empty-room message shows, nothing is drawn. |
| RoomDecorator.RoomButtonForwardsIffEnabled | src/components/RoomDecorator.tsx:30-34 | A room button forwards the item's id and cost exactly when it is enabled. |
| CreateCityModal.PaletteWellFormed | src/components/CreateCityModal.tsx:19-28 | The palette has 8 colours with distinct values. The default is the first. |
| CreateCityModal.HandleSubmit | src/components/CreateCityModal.tsx:34-41 | The page receives a request iff the name has a non-whitespace character. The request carries the trimmed name and the chosen colour, and the form then resets to blank with the first colour. Otherwise the form is unchanged. |
| CreateCityModal.HandleClose | src/components/CreateCityModal.tsx:43-47 | Closing resets the name to empty and the colour to the first of the palette, whatever the input. |
| CreateCityModal.SubmitDisabled | src/components/CreateCityModal.tsx:101 | The Create button is disabled iff every character of the name is whitespace. |
| CreateCityModal.DisabledIffSubmitIgnored | src/components/CreateCityModal.tsx:101 | The Create button is disabled exactly when submitting would do nothing. |
| CreateCityModal.SubmittedNameIsClean | src/components/CreateCityModal.tsx:36-37 | A name handed to the page is non-empty, has no whitespace at either end and trims to itself. |
| Flows.InitialValid | src/pages/Index.tsx:30-38 | The empty starting state satisfies the state invariant. |
| Flows.CreatePreservesValid | src/pages/Index.tsx:70-80 | Creating a city keeps the invariant: a non-negative wallet, every building made by the reward rule with no decoration twice. |
| Flows.DeletePreservesValid | src/pages/Index.tsx:117-119 | Deleting a city keeps the invariant. |
| Flows.CompletePreservesValid | src/pages/Index.tsx:86-115 | A finished session keeps the invariant when the new building's id is fresh. |
| Flows.PurchaseKeepsCopiesAgree | src/pages/Index.tsx:121-133 | Buildings sharing an id still carry the same decorations after a purchase. |
| Flows.GuardedPurchase | src/components/BuildingDecorationModal.tsx:44-48 | A shop purchase for the shown building: when the wallet covers the cost and the building does not own the decoration, it is the page's `purchaseDecoration` (src/pages/Index.tsx:121-133) with that building's id, the decoration's id and its cost. Otherwise the state is unchanged. |
| Flows.GuardedPurchaseKeepsBuildingsValid | src/components/BuildingDecorationModal.tsx:44-48 | A purchase the guard lets through leaves every building free of repeated decorations. |
| Flows.GuardedPurchasePreservesValid | src/pages/Index.tsx:121-133 | A purchase made through the shop's guard keeps the wallet non-negative and every building's decorations free of repeats. |
| Flows.CollidingIdsDefeatTheGuard | src/pages/Index.tsx:125-127 | When two buildings share an id, a guarded purchase leaves one of them owning the same decoration twice. |
| Flows.StartSession | src/pages/Index.tsx:82-84 | The session records the chosen city and the dialog's goal unchanged. |
| Flows.FinishSession | src/pages/Index.tsx:156-158 | Pressing Finish yields a new state iff the Finish button is enabled. That state is `completeStudySession` for the session's city, the whole minutes elapsed and the session's goal. |
| Flows.FinishedSessionBuilding | src/components/StudyTimer.tsx:48-53 | A building added through Finish records at least 5 minutes and the session's goal. It is completed iff the timer showed the goal as met, and it earns at least one coin. |
| Flows.SubmitCity | src/components/CreateCityModal.tsx:34-41 | With a name that is not all whitespace, submitting the dialog is `createCity` with the trimmed name and the picked colour. Otherwise the state is unchanged. |
| Flows.SubmitCityKeepsNamesClean | src/components/CreateCityModal.tsx:34-41 | Cities created through the dialog never get a blank or untrimmed name, and the state invariant holds. |

## Left out

- Persistence through `localStorage` and `JSON.parse`/`parseInt`/`parseFloat` (src/pages/Index.tsx:41-68) is browser I/O. The model starts from the empty state.
- Timer scheduling through `setInterval` and the effect cleanup is not modelled. One tick is one discrete transition.
- React's batching of the direct and `prev =>` updates in `completeStudySession` is not modelled. Each operation is one sequential update.
- `Date.now()` identifiers are parameters. Their uniqueness is not assumed, because the code does not guarantee it: two ids made in the same millisecond collide. `Flows.CollidingIdsDefeatTheGuard` shows what a collision does to the no-duplicate-decorations property.
- Floating-point rounding of heights, hours and progress is not modelled. The model uses exact reals.
- The header's minutes display `floor(totalStudyHours * 60)` (src/pages/Index.tsx:182) is left out. With exact reals it is the sum of the session minutes, and the floating-point rounding it is exposed to is not modelled.
- StudyTimer.Progress: requires a positive goal. With a goal of 0, `getProgress` gives `Math.min(100, Infinity)`, which is 100, once any time has elapsed, and `NaN` at 0 seconds. Exact reals cannot express `NaN`. No caller passes a goal of 0: the goal comes from the slider, whose minimum is 30 (src/components/StartStudyModal.tsx:61, src/pages/Index.tsx:155).
- Moving the slider is not modelled as an operation. The slider component itself keeps the value in 30..180 on the 15-minute grid, and `StartStudyModal.SliderGoals` states that domain.
- Presentation is left out: JSX, CSS classes, gradients, animations, the progress ring geometry and emoji glyph text. Icons and kinds are datatypes, and the decoration names carry no emoji.
- Prop-typing mismatches between components and their callers are not modelled: `cityColor` against `cityGradient`, and undeclared `onDeleteCity`, `totalCoins` and `onPurchaseDecoration` props.
- Flows.GuardedPurchase: assumes a wiring the code does not have. No component in src/ mounts `BuildingDecorationModal` or `RoomDecorator`, and `CityView3D` does not declare the `onPurchaseDecoration` prop the page passes it (src/components/CityView3D.tsx:8-11, src/pages/Index.tsx:143). Both shops' callback carries only `(decorationId, cost)`, with no building id. The composition supplies the shown building's id to `purchaseDecoration` itself. The lemmas built on it (`GuardedPurchaseKeepsBuildingsValid`, `GuardedPurchasePreservesValid`, `CollidingIdsDefeatTheGuard`) describe that intended wiring, not a path the app exercises today.
- The lookup in `DECORATION_POSITIONS` is a plain object access, so inherited JavaScript property names (such as `toString`) would also resolve. The model uses a finite map holding only the eight listed spots.
- `cancel` on the timer and the navigation state (`viewingCity`, `isCreateModalOpen`, and `activeStudySession`, which `completeStudySession` clears at src/pages/Index.tsx:114) only switch screens, and are not modelled.
