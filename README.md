# Campus route planner — verified model

This project models the route-planning core of a campus dashboard for students around
NYU Tandon (MetroTech Center, Brooklyn). It has three parts.

- **The local planner card** (module `Planner`).
  - A keyword parser scans the location catalog in order. It keeps each entry that has a
    keyword occurring in the lower-cased request, and drops an entry whose id is already kept.
  - A walking-time estimate looks up a directed pair key in a sparse table. The key uses
    `tandon` for the base and a slug of the name for every other location. On a miss it falls
    back to 20 minutes a mile plus 5.
  - Route assembly puts the base in front unless it was recognised. It appends the base on a
    return cue unless the route already ends there. It then adds up the legs.
  - The card's state (`input`, `route`, `totalTime`) is the `RoutePlanner` class.
    `PlanRoute`, `ClearRoute` and `SetInput` change that state.
- **The catalog** (module `Catalog`).
  - The base location and the two coffee shops are constants.
  - The catalog entries for attractions and restaurants are derived from their records by
    keyword rules: the lower-cased name, the words of the name, and the category or cuisine.
  - Also modelled: the combined catalog `AllLocations` and the walking-minutes table
    `RouteDistances`.
- **The delegated planner's own logic** (module `Delegated`).
  - The API-key gate.
  - The text the catalog is serialised into.
  - The chain that turns the model's reply into an array: parse the whole trimmed reply, else
    its first bracketed run, then insist on an array.

`Text` holds the JavaScript string operations these rely on: `trim`, `toLowerCase`,
`includes`, `split`, `join`, the two `replace` calls of the key slug, and decimal rendering.
`Wrappers` holds `Option` and `Result`.

A distance such as `"1.2 miles"` is held as a whole number of tenths of a mile (12).
`DistanceText` renders it back, and `ParseTenths` reads it the way `parseFloat` does. With
distances in tenths, the estimate `Math.round(|a - b| * 20 + 5)` is exactly `2|a - b| + 5`
(`FallbackIsRoundedEstimate`).

The parser and the route are defined over an arbitrary catalog `c`. Where a property needs
the catalog's shape, it requires `BaseFirst(c)`: the base first, and no other entry with its id.
`CatalogBaseFirst` proves that `AllLocations` has this shape. The class reads its catalog
through the constant field `catalog`, which the constructor sets to `AllLocations`, and its leg
timing through the constant field `legTime`, which the constructor sets to `WalkTime`. `Plan`
sums the legs of the route with whatever timing it is given, so the total stored by
`PlanRoute` is `TotalTime` of the route.

Two consequences of the code are worth stating, because the data and the comments around it
suggest otherwise:

- **The coffee shops' table entries are never read.** The table holds `tandon-coffee1` = 4 and
  `coffee1-dumbo` = 14 (src/mockData.js:208, 218), and ten more keys that name a coffee shop by
  its id. `getWalkTime` builds the key of a coffee shop from its name (`starbucks-metrotech`,
  src/components/RoutePlannerCard.jsx:31-33), so none of those keys is ever looked up.
  - `CoffeeIdKeysUnreached` proves that no walk between two catalog locations builds one of
    those twelve keys.
  - `CoffeeLegsUseFallback` proves that every leg from or to a coffee shop uses the estimate.
  - `CoffeeThenDumbo` proves that base → first coffee shop → DUMBO totals 9 + 17 = 26 minutes,
    not the 4 + 14 the table lists.
- **The delegated ids are not checked.** The array returned at src/services/claudeService.js:148
  is never compared with the catalog, so ids it does not know pass through. `ParsedArrayUnchanged`
  states that the returned array is the parsed value itself.

The data is held in constants (they are values, not operations, so they have no row below):

- `Catalog.Attractions` and `Catalog.Restaurants`: the records of src/mockData.js:20-57 and 59-115,
  with the distances in tenths of a mile.
- `Catalog.Base` and `Catalog.CoffeeShops`: src/mockData.js:173-180 and 183-204.
- `Catalog.AllLocations`: the combined catalog of src/mockData.js:239-262, built by
  `MapAttractions` and `MapRestaurants`.
- `Catalog.RouteDistances`: the table of src/mockData.js:207-236.
- `Catalog.CoffeeIdKeys`: the twelve keys of that table that name a coffee shop by id.

## Model

| member | source | states |
|---|---|---|
| Text.IsSpace | src/components/RoutePlannerCard.jsx:31 | the white space of `\s` and of `trim`: the ECMAScript WhiteSpace and LineTerminator code points (used again at line 48) |
| Text.LowerChar | src/components/RoutePlannerCard.jsx:11 | one character of `toLowerCase`: an ASCII capital becomes its small letter, anything else is kept |
| Text.Lower | src/components/RoutePlannerCard.jsx:11 | `toLowerCase`, character by character (properties in `LowerIsLower` and `LowerAppend`) |
| Text.LowerIsLower | src/components/RoutePlannerCard.jsx:11 | lower-casing leaves no upper-case letter, keeps the length, is idempotent and leaves lower-case text alone |
| Text.LowerAppend | src/components/RoutePlannerCard.jsx:31 | lower-casing distributes over concatenation |
| Text.Trim | src/components/RoutePlannerCard.jsx:48 | the result is no longer than the input, and is empty or starts and ends with a character that is not white space |
| Text.TrimIsSlice | src/components/RoutePlannerCard.jsx:48 | trimming keeps a slice of the input and cuts only white space off both ends |
| Text.TrimEmptyIffBlank | src/components/RoutePlannerCard.jsx:48 | a text trims to nothing exactly when it is all white space |
| Text.Includes | src/components/RoutePlannerCard.jsx:17-19 | `includes` is true exactly when the pattern occurs at some position of the text |
| Text.IncludesInSlice | src/components/RoutePlannerCard.jsx:17-19 | a pattern found in a slice of a text is found in the text |
| Text.IndexOf | src/services/claudeService.js:134 | the position of the first occurrence of a character |
| Text.Split | src/mockData.js:247 | the pieces of a split re-join to the input and hold no separator |
| Text.SplitUnique | src/mockData.js:247 | split is the only separator-free cutting that re-joins to the input |
| Text.SplitKeepsLower | src/mockData.js:247 | the words of a lower-case name are lower case |
| Text.Join | src/services/claudeService.js:30-38 | `Array.prototype.join`: the parts with the separator between neighbours (properties in `JoinEmptyIff`, `JoinSnoc` and `JoinSix`) |
| Text.JoinEmptyIff | src/services/claudeService.js:30-36 | a join with a non-empty separator is empty exactly for no parts or a single empty part |
| Text.JoinSnoc | src/services/claudeService.js:38 | appending a part appends the separator and the part |
| Text.CollapseSpaces | src/components/RoutePlannerCard.jsx:31 | `replace(/\s+/g, '-')`: a left-to-right scan that turns each white-space run into one `-` (properties in the `Collapse` lemmas) |
| Text.CollapseHasNoSpace | src/components/RoutePlannerCard.jsx:31 | replacing white-space runs by `-` leaves no white space |
| Text.CollapseNoSpace | src/components/RoutePlannerCard.jsx:31 | text without white space is left unchanged |
| Text.CollapseSpaced | src/components/RoutePlannerCard.jsx:31 | one space between two words becomes one `-` |
| Text.CollapseKeepsLower | src/components/RoutePlannerCard.jsx:31 | the replacement introduces no upper-case letter |
| Text.CollapseAppend | src/components/RoutePlannerCard.jsx:31 | the replacement works piece by piece, carrying only whether a white-space run is open |
| Text.RemoveChar | src/components/RoutePlannerCard.jsx:31 | removing apostrophes leaves none, never lengthens, and changes nothing without one |
| Text.RemoveCharKeeps | src/components/RoutePlannerCard.jsx:31 | removing characters keeps a text free of white space and of upper case |
| Text.RemoveCharAppend | src/components/RoutePlannerCard.jsx:31 | removal distributes over concatenation |
| Text.NatToString | src/services/claudeService.js:31 | a number renders as a non-empty string of digits without a leading zero |
| Text.DecimalRoundTrip | src/services/claudeService.js:31 | reading the rendered digits back gives the number |
| Catalog.DistanceText | src/mockData.js:25 | how the data writes a distance of t tenths: the digits of t / 10, a point, the last digit, ` miles` |
| Catalog.ParseTenths | src/components/RoutePlannerCard.jsx:41-42 | `parseFloat` in tenths on a distance "digits, point, digit"; `DistanceRoundTrip` reads every `DistanceText` back |
| Catalog.DistanceRoundTrip | src/components/RoutePlannerCard.jsx:41-42 | `parseFloat` of a rendered distance "X.Y miles" gives back its tenths |
| Catalog.FromAttraction | src/mockData.js:242-251 | an attraction's entry keeps its id, name, description and distance, and gets the type `attraction` |
| Catalog.FromRestaurant | src/mockData.js:252-261 | a restaurant's entry keeps its id, name, address and distance, and gets the type `restaurant` |
| Catalog.AttractionKeywords | src/mockData.js:245-249 | an attraction's keywords: the lower-cased name, its words, the lower-cased category (shape in `AttractionKeywordsShape`) |
| Catalog.RestaurantKeywords | src/mockData.js:255-259 | a restaurant's keywords: the lower-cased name, the lower-cased cuisine, the name's words (shape in `RestaurantKeywordsShape`) |
| Catalog.MapAttractions | src/mockData.js:242-251 | `attractionsData.map(...)`: one entry per record, in order |
| Catalog.MapRestaurants | src/mockData.js:252-261 | `restaurantsData.map(...)`: one entry per record, in order |
| Catalog.AttractionKeywordsShape | src/mockData.js:245-249 | an attraction's keywords are the lower-cased name, its words in order, then the category, all lower case |
| Catalog.RestaurantKeywordsShape | src/mockData.js:255-259 | a restaurant's keywords are the lower-cased name, the cuisine, then the name's words in order, all lower case |
| Catalog.CatalogLayout | src/mockData.js:239-262 | the catalog is the base, the 2 coffee shops, the 4 mapped attractions and the 5 mapped restaurants, in that order |
| Catalog.CatalogKinds | src/mockData.js:239-262 | the type tag at each catalog position |
| Catalog.BaseIdOnlyAtZero | src/mockData.js:173-262 | only index 0, the base, carries the id `tandon` |
| Catalog.RecordIds | src/mockData.js:20-115 | attractions are numbered 1 to 4 and restaurants 1 to 5 |
| Catalog.SharedNumericIds | src/mockData.js:239-262 | attraction k and restaurant k share the id k, for k from 1 to 4 |
| Catalog.CatalogKeywordsLowerCase | src/mockData.js:173-262 | every keyword in the catalog is lower case |
| Catalog.TableValuesPositive | src/mockData.js:207-236 | every table value is positive, so the truthiness test fails only on a missing key |
| Catalog.TableSymmetricBaseCoffee | src/mockData.js:208-211 | the base–coffee-shop legs are listed both ways with equal minutes |
| Catalog.TableSymmetricBaseOthers | src/mockData.js:212-233 | the other legs from the base are listed both ways with equal minutes |
| Catalog.TableSymmetricDumbo | src/mockData.js:218-225 | the legs into DUMBO are listed both ways with equal minutes |
| Catalog.TableSymmetricRest | src/mockData.js:226-235 | the remaining legs are listed both ways with equal minutes |
| Catalog.TableKeys | src/mockData.js:207-236 | the table holds exactly the 28 keys of the four symmetry lemmas, so together they cover every entry |
| Catalog.CoffeeIdKeysInTable | src/mockData.js:208-229 | the keys naming a coffee shop by id are all in the table |
| Catalog.CoffeeIdKeysShape | src/mockData.js:208-229 | each such key begins `c?f` or ends in the coffee shop's digit |
| Catalog.UnshapedKeyNotCoffeeId | src/mockData.js:208-229 | a key that neither starts `c?f` nor ends in `1` or `2` is not one of the keys naming a coffee shop by id |
| Catalog.TableKeysIndex9 | src/mockData.js:207-236 | no key beginning with `b` has an `r` at index 9 |
| Catalog.TableKeysLastChar | src/mockData.js:207-236 | no key ends in `h` or `y` |
| Catalog.TableKeysFirstChars | src/mockData.js:207-236 | no key begins `st` |
| Planner.NameSlug | src/components/RoutePlannerCard.jsx:31 | a name lower-cased, each white-space run replaced by `-`, apostrophes removed (properties in the `NameSlug` lemmas) |
| Planner.Slug | src/components/RoutePlannerCard.jsx:31-32 | `tandon` for the base's id, the name's fragment for any other location |
| Planner.WalkKey | src/components/RoutePlannerCard.jsx:33 | the two fragments joined by `-`, from first |
| Planner.NameSlugShape | src/components/RoutePlannerCard.jsx:31 | a name's key fragment has no white space, no apostrophe and no upper case |
| Planner.NameSlugAppend | src/components/RoutePlannerCard.jsx:31 | a plain word at either end of a name passes into the fragment only lower-cased |
| Planner.NameSlugSpaced | src/components/RoutePlannerCard.jsx:31 | a space between two words becomes one `-` in the fragment |
| Planner.NameSlugLastChar | src/components/RoutePlannerCard.jsx:31 | the fragment ends in the name's last character, lower-cased |
| Planner.NameSlugFirstChars | src/components/RoutePlannerCard.jsx:31 | the fragment begins with the name's first two characters, lower-cased |
| Planner.NameSlugIndex9 | src/components/RoutePlannerCard.jsx:31 | after an eight-letter first word, index 9 of the fragment is the second word's first letter |
| Planner.DistanceOf | src/components/RoutePlannerCard.jsx:41-42 | a location's distance in tenths, 0 when it has none (`DistanceOfParses` ties it to `parseFloat`) |
| Planner.DistanceOfParses | src/components/RoutePlannerCard.jsx:41-42 | a missing distance counts as 0, and a present one is what `parseFloat` reads from its text |
| Planner.FallbackMinutes | src/components/RoutePlannerCard.jsx:43 | the estimate is at least 5 minutes, and exactly 5 when both distances are equal |
| Planner.FallbackIsRoundedEstimate | src/components/RoutePlannerCard.jsx:43 | the integer estimate equals 20 times the absolute difference of the distances in miles, plus 5 |
| Planner.FallbackSymmetric | src/components/RoutePlannerCard.jsx:43 | the estimate does not depend on the direction of the walk |
| Planner.WalkTimeIn | src/components/RoutePlannerCard.jsx:30-44 | the walk time is the table entry for the pair key when that entry is truthy, else the estimate, and always positive |
| Planner.WalkTime | src/components/RoutePlannerCard.jsx:30-44 | against `routeDistances`, a key in the table gives its entry and any other key the estimate |
| Planner.KeyEndingMisses | src/mockData.js:207-236 | a key ending in `h` or `y` is not in the table |
| Planner.KeyStartMisses | src/mockData.js:207-236 | a key beginning `st` is not in the table |
| Planner.KeyIndex9Misses | src/mockData.js:207-236 | a key beginning with `b` with `r` at index 9 is not in the table |
| Planner.WalkToNameEndingMisses | src/components/RoutePlannerCard.jsx:31-36 | a walk to a location whose name ends in `h` or `y` finds no table entry |
| Planner.WalkFromNameStartMisses | src/components/RoutePlannerCard.jsx:31-36 | a walk from a location whose name begins `st` finds no table entry |
| Planner.WalkFromSecondWordMisses | src/components/RoutePlannerCard.jsx:31-36 | a walk from a location named like `Brooklyn Roasting …` finds no table entry |
| Planner.Coffee1NameEnding | src/mockData.js:185-186 | the first coffee shop's name ends in the word `MetroTech` |
| Planner.Coffee1NameStart | src/mockData.js:185-186 | the first coffee shop's name begins with the word `Starbucks` |
| Planner.Coffee2NameEnding | src/mockData.js:195-196 | the second coffee shop's name ends in the word `Company` |
| Planner.Coffee2NameStart | src/mockData.js:195-196 | the second coffee shop's name is `Brooklyn`, a space, then `Roasting Company` |
| Planner.Coffee2NameWords | src/mockData.js:196 | the two parts of that name: an eight-letter word beginning with `b`, and one beginning with `r` |
| Planner.CoffeeLegsUseFallback | src/components/RoutePlannerCard.jsx:31-43 | no walk from or to a coffee shop finds a table entry, so it always takes the estimate |
| Planner.NameSlugAvoidsCoffeeIdShape | src/components/RoutePlannerCard.jsx:31 | a name whose first three and last characters are letters, not starting `c?f`, gives a fragment that neither starts `c?f` nor ends in `1` or `2` |
| Planner.CoffeeNameAvoidsCoffeeIdShape | src/mockData.js:186-196 | each coffee shop's name has that shape |
| Planner.AttractionNameAvoidsCoffeeIdShape | src/mockData.js:23-50 | each attraction's name has that shape |
| Planner.RestaurantNameAvoidsCoffeeIdShape | src/mockData.js:62-106 | each restaurant's name has that shape |
| Planner.CatalogSlugsAvoidCoffeeIdShape | src/components/RoutePlannerCard.jsx:31-32 | no catalog location's fragment starts `c?f` or ends in `1` or `2` |
| Planner.JoinedSlugsAvoidCoffeeIdShape | src/components/RoutePlannerCard.jsx:33 | two such fragments joined by `-` give a key that neither starts `c?f` nor ends in `1` or `2` |
| Planner.CoffeeIdKeysUnreached | src/mockData.js:208-229 | no walk between two catalog locations builds a key that names a coffee shop by id, so those twelve entries are never read |
| Planner.ParsedUpTo | src/components/RoutePlannerCard.jsx:15-24 | the kept list after the first n catalog entries: an entry is pushed when it matches and no kept entry has its id (exactly characterised by `ParsedUpToKept`) |
| Planner.ParsedFrom | src/components/RoutePlannerCard.jsx:15-26 | the kept list after the whole catalog |
| Planner.Parsed | src/components/RoutePlannerCard.jsx:10-26 | `parseInput(text)`: the kept list over the catalog, matched against the lower-cased text |
| Planner.Matches | src/components/RoutePlannerCard.jsx:17-19 | `keywords.some(k => lowerText.includes(k))`: some keyword of the location occurs in the text |
| Planner.HasId | src/components/RoutePlannerCard.jsx:20 | some location of the list has the id, compared as `===` compares (the same test at line 59) |
| Planner.FirstOfItsIdExists | src/components/RoutePlannerCard.jsx:20 | every matching entry has a first matching entry with its id at or before it |
| Planner.KeptIndices | src/components/RoutePlannerCard.jsx:15-24 | the kept positions increase and are exactly those that match with no earlier match of their id |
| Planner.KeptStep | src/components/RoutePlannerCard.jsx:20 | the duplicate test against the kept list equals the test against all earlier matches |
| Planner.ParsedUpToKept | src/components/RoutePlannerCard.jsx:10-26 | the parser's result is the catalog restricted to those kept positions, in catalog order |
| Planner.ParseInput | src/components/RoutePlannerCard.jsx:10-26 | the loop over the catalog computes exactly the parser's result on the lower-cased text |
| Planner.ParsedFromElement | src/components/RoutePlannerCard.jsx:15-24 | every location returned is a catalog entry that is the first match of its id |
| Planner.ParsedFromMatches | src/components/RoutePlannerCard.jsx:16-22 | every location returned matches, and every matching entry's id is among those returned |
| Planner.ParsedFromIdsDistinct | src/components/RoutePlannerCard.jsx:20 | no two locations returned share an id |
| Planner.CatalogBaseFirst | src/mockData.js:239-240 | the catalog starts with the base, and no other entry has its id |
| Planner.ParsedFromBaseFirst | src/components/RoutePlannerCard.jsx:15-24 | when the base is returned it comes first |
| Planner.BaseKeywordsPickBase | src/mockData.js:177 | any text containing `tandon`, `school` or `回学校` puts the base first among the locations returned |
| Planner.RestaurantShadowed | src/components/RoutePlannerCard.jsx:20 | when attraction k matches, restaurant k, which shares its id, is never returned |
| Planner.RestaurantNotFirst | src/mockData.js:239-262 | a restaurant with id k is not the first match of that id once attraction k matches |
| Planner.ReturnCue | src/components/RoutePlannerCard.jsx:65 | the return cue of the regular expression: the text holds `回`, or `return` or `back` in any case |
| Planner.WithBase | src/components/RoutePlannerCard.jsx:57-62 | the base in front unless a location with its id is there; never empty |
| Planner.WithReturn | src/components/RoutePlannerCard.jsx:64-67 | the base appended on a cue unless the route already ends there |
| Planner.RouteFrom | src/components/RoutePlannerCard.jsx:50-67 | the route over a catalog: parse, put the base in front, add the return (properties in `AssemblyKeeps`, `RouteBases`) |
| Planner.RouteFor | src/components/RoutePlannerCard.jsx:50-67 | the route `handlePlanRoute` stores, over the planner's catalog |
| Planner.LegSum | src/components/RoutePlannerCard.jsx:70-73 | the sum over consecutive legs under a given timing (properties in `LegSumSnoc`, `LegSumBounds`, `LegSumThree`) |
| Planner.TotalTime | src/components/RoutePlannerCard.jsx:70-73 | the legs summed with `getWalkTime` (bounds in `TotalTimeBounds`) |
| Planner.LegSumSnoc | src/components/RoutePlannerCard.jsx:70-73 | adding a stop adds the leg from the previous last stop |
| Planner.LegSumBounds | src/components/RoutePlannerCard.jsx:70-73 | with positive legs, one stop takes 0 minutes and n stops at least n - 1 |
| Planner.TotalTimeBounds | src/components/RoutePlannerCard.jsx:70-73 | a single-stop route takes 0 minutes, and a route of n stops at least n - 1 |
| Planner.LegSumThree | src/components/RoutePlannerCard.jsx:70-73 | a three-stop route takes its two legs |
| Planner.CoffeeThenDumbo | src/components/RoutePlannerCard.jsx:70-73 | base → first coffee shop → DUMBO totals 26 minutes |
| Planner.AssemblyKeeps | src/components/RoutePlannerCard.jsx:58-67 | the route keeps the locations in order, prefixed by the base exactly when none has its id, plus at most a final base |
| Planner.AssemblyBases | src/components/RoutePlannerCard.jsx:58-67 | on a list with the base only in front and distinct ids, the route starts at the base, ends there on a cue, and never has two bases in a row |
| Planner.RouteBases | src/components/RoutePlannerCard.jsx:50-67 | every planned route starts at the base, ends there on a return cue, and has the base nowhere else |
| Planner.ReturnAddsLeg | src/components/RoutePlannerCard.jsx:65-73 | the return adds exactly the leg from the last stop back to the base |
| Planner.PrependBase | src/components/RoutePlannerCard.jsx:58-62 | the base is pushed first exactly when no recognised location has its id, and the locations follow in order |
| Planner.AppendReturn | src/components/RoutePlannerCard.jsx:65-67 | on a return cue the base is pushed unless the route already ends there; otherwise the route is unchanged |
| Planner.AssembleRoute | src/components/RoutePlannerCard.jsx:58-67 | the pushes and the spread build exactly the assembled route |
| Planner.SumLegs | src/components/RoutePlannerCard.jsx:70-73 | the `for` loop computes the sum of the legs' minutes |
| Planner.Plan | src/components/RoutePlannerCard.jsx:47-73 | blank input and no match are told apart and stop planning; otherwise the route of the text, starting at the base, and its total |
| Planner.RoutePlanner.constructor | src/components/RoutePlannerCard.jsx:5-7 | the state starts as `''`, `[]` and 0 over the full catalog |
| Planner.RoutePlanner.SetInput | src/components/RoutePlannerCard.jsx:5 | the input changes and the route and total do not |
| Planner.RoutePlanner.PlanRoute | src/components/RoutePlannerCard.jsx:47-77 | blank input or no match leaves route and total unchanged; otherwise the route of the input and its total are stored |
| Planner.RoutePlanner.ClearRoute | src/components/RoutePlannerCard.jsx:80-84 | input, route and total reset to `''`, `[]` and 0 |
| Delegated.UsableKey | src/services/claudeService.js:7 | the key is present, not empty and not the placeholder `your_api_key_here` |
| Delegated.CheckApiKey | src/services/claudeService.js:4-9 | the key passes exactly when present, non-empty and not the placeholder; otherwise the set-up error |
| Delegated.IdText | src/services/claudeService.js:31 | an id as the template literal shows it: a string id as it is, a numeric id in decimal |
| Delegated.DescriptionText | src/services/claudeService.js:34 | the description, else the address, else `No description` |
| Delegated.DistanceField | src/services/claudeService.js:35 | the distance written as in the data, else `on campus` |
| Delegated.KeywordsField | src/services/claudeService.js:30-36 | the keywords joined by `, `, else `none` when that is empty |
| Delegated.EntryLines | src/services/claudeService.js:31-36 | the six lines of one location's block |
| Delegated.LocationEntry | src/services/claudeService.js:31-36 | those six lines, one under the other (split back by `EntrySplitsIntoLines`) |
| Delegated.Entries | src/services/claudeService.js:28-37 | one entry block per location, in order |
| Delegated.LocationsList | src/services/claudeService.js:28-38 | `locationsList`: the blocks joined by a blank line (shape in `LocationsListShape`) |
| Delegated.FieldFallbacks | src/services/claudeService.js:30-36 | description, else address, else `No description`; the distance, else `on campus`; the keywords, else `none` |
| Delegated.JoinHasSeparator | src/services/claudeService.js:30 | a join of two or more keywords holds a comma |
| Delegated.JoinAvoids | src/services/claudeService.js:30 | a join of line-free keywords holds no line break |
| Delegated.RenderedHasNoNewline | src/services/claudeService.js:31-35 | a rendered id or distance holds no line break |
| Delegated.DigitsHaveNoNewline | src/services/claudeService.js:31 | a string of digits holds no line break |
| Delegated.FieldTextsAreSingleLine | src/services/claudeService.js:31-36 | no text standing in a field holds a line break when the fields do not |
| Delegated.EntryLinesAreSingleLines | src/services/claudeService.js:31-36 | none of an entry's six lines holds a line break |
| Delegated.JoinSix | src/services/claudeService.js:31-36 | six lines joined have one separator between each pair of neighbours |
| Delegated.EntrySplitsIntoLines | src/services/claudeService.js:31-36 | an entry splits back into exactly its ID, Name, Type, Description, Distance and Keywords lines |
| Delegated.LocationsListShape | src/services/claudeService.js:28-38 | the list is empty exactly when there are no locations, and each location adds its block after a blank line |
| Delegated.FirstBracketed | src/services/claudeService.js:134 | a match starts with `[`, ends with `]` and has no `]` inside |
| Delegated.FirstBracketedIsLeftmostShortest | src/services/claudeService.js:134 | the match is at the leftmost `[` and is the shortest run from there; no match exactly when no `]` follows a `[` |
| Delegated.ParseRouteIds | src/services/claudeService.js:128-148 | the parse chain: whole reply, else first bracketed run, then the array test (properties in the lemmas below) |
| Delegated.ParsedArrayUnchanged | src/services/claudeService.js:128-148 | a success is always a parsed array returned as it is: from the whole reply, or from its first bracketed run when the whole reply does not parse |
| Delegated.WholeReplyFirst | src/services/claudeService.js:129-131 | a reply that parses whole is never searched for brackets |
| Delegated.ReplyFailures | src/services/claudeService.js:132-139 | when the whole reply does not parse: no bracketed run fails with the could-not-parse message, and a run that does not parse fails with the parser's error |
| Delegated.BracketedRunDecides | src/services/claudeService.js:132-148 | when the whole reply does not parse and its first bracketed run parses to a value: an array is returned as it is, anything else fails with `Response is not an array` |
| Delegated.FailuresAreKnown | src/services/claudeService.js:128-144 | every failure is the could-not-parse error, the not-an-array error or the parser's error |
| Delegated.KeyGateComesFirst | src/services/claudeService.js:24-25 | an unusable key fails with the set-up error whatever the reply; a usable key leaves the outcome to the reply |
| Delegated.PlanRouteDelegated | src/services/claudeService.js:23-38 | `planRouteWithClaude`: the key gate, the catalog text and the request sent, the reply parsed (`KeyGateComesFirst`) |

## Left out

- JSX rendering, the Enter-key handler, `alert` and `console` output: presentation and I/O. The alert is the `NothingRecognised` outcome.
- The Anthropic client and `client.messages.create`: a network call. The reply is the parameter `respond` of `Delegated.PlanRouteDelegated`, applied to the serialised catalog and the request.
- The read of `import.meta.env`: environment access. The key is a parameter (`None` for an unset variable).
- The internals of `JSON.parse`: a library call. It is the uninterpreted parameter `parse`, where `None` stands for a throw. JSON numbers are held as integers, which the chain never inspects.
- The wording of the system prompt and of the request message (src/services/claudeService.js:40-107, 115-117): free text for a language model with no behaviour to state.
- The outer `try … catch` that logs and rethrows: it changes no outcome.
- A rejected `client.messages.create` (a network or authentication failure) is not modelled: `respond` always yields a reply text.
- The `TypeError` that `response.content[0].text` raises on an empty `content` is not modelled, for the same reason.
- JavaScript strings are sequences of UTF-16 code units, while a Dafny `string` holds Unicode scalar values, so a lone surrogate in a reply or a request cannot be represented.
- `walkMinutes`: the planner never reads it.
- `weatherData` and `transitData`: display-only data.
- `rating`, `image`, `priceRange`, `isOpen`, the attraction `category` and the restaurant `cuisine` field of a catalog entry: the planner and the serialiser never read them. The category and the cuisine still feed the keywords.
- Floating point in `parseFloat`, the `* 20` and `Math.round`: distances are whole tenths of a mile, which makes the estimate exact for the catalog's one-decimal distances.
- Text.LowerChar: models `toLowerCase` on ASCII letters only and leaves every other character unchanged. That is exact for the catalog's keywords and the `/i` cue, not for other alphabets.
- Catalog.ParseTenths: reads only the form "digits, a point, one digit" that the catalog's distances take, and is `None` otherwise.
- Delegated.ParseRouteIds: the ids inside the array are not checked against the catalog, because the code returns the array as it is.
