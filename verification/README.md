# Last.fm collage generator: a verified model of the layout core

This project models the parts of the collage generator that decide where
every album or artist image goes. It has four parts.

- **Varying-layout collage.** The template catalogue declares size classes
  per grid (3x3 "large", 2x2 "medium" and 1x1 "small" tiles) and, for some
  classes, hand-placed positions in several variants. `drawCollage`
  assigns the items to size classes in order. The leftovers become 1x1
  tiles. It then draws large, then medium, then small. When an image loads,
  its tile goes to its declared position, or to the first free square found
  by a row-major scan of a boolean occupancy grid.
- **Demo collage.** It has its own template table, a count-based fallback
  template and the same size-assignment loop.
- **Fixed-grid collage.** `arrangeImages` orders the items (unchanged,
  by brightness, or by hue). Item `idx` is drawn at row `floor(idx/col)`,
  column `idx % col`.
- **Form logic.** This covers the period-name normalisation, the settings
  validation, the conversion of validated settings, and the step machine of
  the multi-step form.

Modules:

- `OccupancyGrid` models the three grid helpers: a mutable `array2<bool>`
  and loops with invariants, proved against `CanPlace`, `Mark` and
  `FirstFit`.
- `Layouts` holds the template data model and the slot list it denotes.
- `Catalog` holds the three templates and the proofs that every declared
  variant is sound: in the grid, non-overlapping, with tiered footprints.
- `Planner` models the assignment loops of `drawCollage` (methods proved
  against `Phased`), the resolution of image callbacks (`Resolve`, with the
  grid updated in place by `ResolvePhase`) and the soundness of the
  resulting plan. Overlap of drawn tiles (`Planner.Disjoint`) is judged cell
  by cell on the occupancy grid.
- `PlanCoverage` proves that on a catalogue template every item whose image
  loads is drawn, by counting occupied cells.
- `Demo` holds the demo's templates, `getDynamicLayout`, its item count and
  its assignment loop.
- `ColorSort` holds `rgbToHsv`, the two in-place sorts and `sortImages`.
- `FixedGrid` holds `arrangeImages` and the row/column placement.
- `Settings` holds `transformPeriodFormat`, `validateCollageSettings` and
  `setCollageSettings`.
- `Wizard` holds the step graph and reducer of the multi-step form.

Side effects become inputs:

- Image loading becomes `loaded: seq<bool>`, one flag per item. `false` is
  the `onerror` path.
- The random variant choice becomes a `variant` parameter that satisfies
  `IsVariantChoice`.
- The average colour from the colour library becomes
  `colors: seq<Option<Rgb>>`. `None` is a failed load or extraction.

`sortImages` rejects the whole call as soon as one colour cannot be
extracted: `getAverageColor` rejects (src/utils/colorSort.tsx:28 and :32)
and `Promise.all` (src/utils/colorSort.tsx:88) passes the rejection on. The
model gives `None` for such a call.

## Model

| member | source | states |
|---|---|---|
| OccupancyGrid.EmptyCells | src/components/GenerateCollage/VaryingLayout/helpers.ts:116-118 | the fresh grid is a `rows x cols` rectangle in which every cell is free |
| OccupancyGrid.Mark | src/components/GenerateCollage/VaryingLayout/helpers.ts:58-72 | marking a block keeps the grid's shape (rows and row lengths) |
| OccupancyGrid.CanPlaceAtPosition | src/components/GenerateCollage/VaryingLayout/helpers.ts:36-56 | a block that sticks out of `maxCol x maxRow` is refused; otherwise the answer is true exactly when every covered cell is free, i.e. `CanPlace` on the grid's contents |
| OccupancyGrid.MarkCellsAsOccupied | src/components/GenerateCollage/VaryingLayout/helpers.ts:58-72 | afterwards every covered cell is occupied, every other cell is unchanged, and the new grid is `Mark` of the old |
| OccupancyGrid.FindAvailablePositionForSquare | src/components/GenerateCollage/VaryingLayout/helpers.ts:18-34 | the result is `FirstFit` of the grid; a found square lies inside the bounds on free cells; nothing is found exactly when no square fits anywhere |
| OccupancyGrid.FirstFitFromIsFirst | src/components/GenerateCollage/VaryingLayout/helpers.ts:24-33 | the row-major scan from a point returns a fitting square, and no earlier square (row-major) fits; `None` means no square from there on fits |
| OccupancyGrid.FirstFitIsFirst | src/components/GenerateCollage/VaryingLayout/helpers.ts:18-34 | the first fit of the whole grid fits and no square before it in row-major order fits; `None` exactly when no square fits |
| Layouts.PositionsFor | src/components/GenerateCollage/VaryingLayout/helpers.ts:136-143 | a class without positions gives none; a flat list is used as is; a keyed list with the chosen variant present gives exactly that variant's list, and none when the key is missing |
| Layouts.Slots | src/components/GenerateCollage/VaryingLayout/helpers.ts:134-164 | the slots a template offers, class after class; `ClassSlotsAt`, `SlotsSnoc` and `SlotsLength` state their order, contents and number |
| Layouts.ClassSlotsAt | src/components/GenerateCollage/VaryingLayout/helpers.ts:135-163 | a class contributes exactly `count` slots, slot `i` being its footprint with its `i`-th declared position |
| Layouts.SlotsSnoc | src/components/GenerateCollage/VaryingLayout/helpers.ts:134-164 | the slot list of the classes is the concatenation, class after class, of their slots |
| Layouts.SlotsLength | src/components/GenerateCollage/VaryingLayout/helpers.ts:134-164 | the number of slots equals the sum of the class counts |
| Layouts.FirstKeyed | src/components/GenerateCollage/VaryingLayout/helpers.ts:120-128 | the variant table comes from the first class with keyed positions (no earlier class is keyed), and there is none exactly when no class has keyed positions |
| Layouts.IsVariantChoice | src/components/GenerateCollage/VaryingLayout/helpers.ts:120-128 | the outcomes of the random key choice: a key of the first keyed map, none without one; `Catalog.CatalogVariantChoice` gives them for the catalogue |
| Catalog.CollageLayouts | src/components/GenerateCollage/VaryingLayout/layout.ts:3-120 | the three templates; `GridSizesAreCatalogKeys`, `CatalogCapacity` and `CatalogWellDeclared` state their keys, capacity and soundness |
| Catalog.GridSizesAreCatalogKeys | src/components/GenerateCollage/VaryingLayout/layout.ts:1-3 | the offered grid sizes are exactly the catalogue keys, and each template's grid is `g x g` |
| Catalog.CatalogPositionLists | src/components/GenerateCollage/VaryingLayout/layout.ts:27-120 | every declared position list has as many entries as its class count |
| Catalog.CatalogCapacity | src/components/GenerateCollage/VaryingLayout/layout.ts:4-120 | every template's class footprints fill its grid exactly and its counts add up to `imageCount` |
| Catalog.CatalogVariantChoice | src/components/GenerateCollage/VaryingLayout/helpers.ts:120-128 | a variant choice for a template is exactly one of the keys of its keyed positions |
| Catalog.WellDeclaredWithSmalls | src/components/GenerateCollage/VaryingLayout/layout.ts:23 | appending undeclared 1x1 slots keeps a slot list well declared |
| Catalog.Declared4Slots | src/components/GenerateCollage/VaryingLayout/layout.ts:8-21 | the medium class of the 4x4 template yields the declared slots of the chosen variant |
| Catalog.Declared4Sound | src/components/GenerateCollage/VaryingLayout/layout.ts:8-21 | both 4x4 variants place their medium tiles inside the grid without overlap |
| Catalog.Catalog4WellDeclared | src/components/GenerateCollage/VaryingLayout/layout.ts:4-25 | every variant of the 4x4 template is well declared |
| Catalog.Declared5Sound | src/components/GenerateCollage/VaryingLayout/layout.ts:31-58 | every 5x5 variant places its declared tiles inside the grid without overlap |
| Catalog.Declared5Slots | src/components/GenerateCollage/VaryingLayout/layout.ts:31-58 | the large and medium classes of the 5x5 template yield the declared slots of the chosen variant |
| Catalog.Catalog5WellDeclared | src/components/GenerateCollage/VaryingLayout/layout.ts:27-62 | every variant of the 5x5 template is well declared |
| Catalog.Declared6Sound | src/components/GenerateCollage/VaryingLayout/layout.ts:68-116 | every 6x6 variant places its declared tiles inside the grid without overlap |
| Catalog.Declared6Slots | src/components/GenerateCollage/VaryingLayout/layout.ts:68-116 | the large and medium classes of the 6x6 template yield the declared slots of the chosen variant |
| Catalog.Catalog6WellDeclared | src/components/GenerateCollage/VaryingLayout/layout.ts:64-120 | every variant of the 6x6 template is well declared |
| Catalog.CatalogWellDeclared | src/components/GenerateCollage/VaryingLayout/layout.ts:3-121 | for every catalogue template and every variant key, the declared tiles are in the grid, tiered and pairwise non-overlapping |
| Planner.EntryAt | src/components/GenerateCollage/VaryingLayout/helpers.ts:134-169 | item `k` takes template slot `k` (its footprint and declared position) while there is one, and after the last slot is an undeclared 1x1 tile |
| Planner.AllEntries | src/components/GenerateCollage/VaryingLayout/helpers.ts:134-169 | `n` entries; entry `k` is item `k` with slot `k`'s footprint and position, or an undeclared 1x1 tile past the last slot |
| Planner.ClassEntry | src/components/GenerateCollage/VaryingLayout/helpers.ts:145-163 | the `i`-th item of class `ci` gets that class's footprint and `i`-th declared position |
| Planner.BucketStep | src/components/GenerateCollage/VaryingLayout/helpers.ts:145-163 | pushing the next entry onto the list of its footprint keeps the three lists equal to the phase filters of the entries so far |
| Planner.AssignClass | src/components/GenerateCollage/VaryingLayout/helpers.ts:134-164 | after one class the counter is `min(n, slots so far)` and the three lists are the phase filters of the entries so far |
| Planner.AssignSizes | src/components/GenerateCollage/VaryingLayout/helpers.ts:130-169 | `largeItems`, `mediumItems`, `smallItems` are exactly the large, medium and small entries of items `0..n-1`, in item order (leftovers as 1x1) |
| Planner.AssignRest | src/components/GenerateCollage/VaryingLayout/helpers.ts:166-169 | leftover items become undeclared 1x1 entries appended to the small list |
| Planner.InPhaseMembers | src/components/GenerateCollage/VaryingLayout/helpers.ts:145-163 | a phase list holds exactly the entries of that phase |
| Planner.InPhaseCount | src/components/GenerateCollage/VaryingLayout/helpers.ts:145-169 | the three phase lists together are as long as the entry list |
| Planner.PhasedPermutation | src/components/GenerateCollage/VaryingLayout/helpers.ts:218-220 | the drawing order is a permutation of the entries |
| Planner.PhasedEntries | src/components/GenerateCollage/VaryingLayout/helpers.ts:218-220 | the drawing order has `n` entries, each the entry of an item below `n` |
| Planner.PhasedOrdered | src/components/GenerateCollage/VaryingLayout/helpers.ts:218-220 | in the drawing order large tiles precede medium tiles, which precede small tiles |
| Planner.PhasedDistinct | src/components/GenerateCollage/VaryingLayout/helpers.ts:218-220 | no item is drawn twice |
| Planner.ResolveAppend | src/components/GenerateCollage/VaryingLayout/helpers.ts:218-220 | resolving two phases one after the other is resolving their concatenation |
| Planner.ResolvePhase | src/components/GenerateCollage/VaryingLayout/helpers.ts:180-212 | resolving the callbacks of one phase on the mutable grid gives the same grid contents and placements as `Resolve` |
| Planner.PlanLayout | src/components/GenerateCollage/VaryingLayout/helpers.ts:116-220 | the placements the collage produces for a template are `Plan` of it |
| Planner.PlanCollage | src/components/GenerateCollage/VaryingLayout/helpers.ts:99-221 | the collage plans exactly for catalogue sizes, and then the plan is `Plan` and is sound |
| Planner.CommonCellOverlap | src/components/GenerateCollage/VaryingLayout/helpers.ts:191-197 | squares that do not overlap geometrically share no cell |
| Planner.FirstFitDisjoint | src/components/GenerateCollage/VaryingLayout/helpers.ts:182-189 | a square found free on the grid shares no cell with any tile already placed |
| Planner.DeclaredDisjoint | src/components/GenerateCollage/VaryingLayout/helpers.ts:182-197 | a declared position of a well-declared template is in the grid and disjoint from the declared tiles placed before it |
| Planner.MarkOccupies | src/components/GenerateCollage/VaryingLayout/helpers.ts:197 | after marking, the new tile and every earlier tile occupy their cells |
| Planner.Step | src/components/GenerateCollage/VaryingLayout/helpers.ts:180-212 | one image callback; `StepOutcome` and `StepSound` state when it changes nothing and that it adds at most its own tile, soundly |
| Planner.Resolve | src/components/GenerateCollage/VaryingLayout/helpers.ts:180-220 | the callbacks resolved in order; `ResolveAppend`, `ResolveKeeps` and `ResolveSound` state that phases compose, tiles are kept and soundness holds |
| Planner.Plan | src/components/GenerateCollage/VaryingLayout/helpers.ts:99-221 | the tiles a collage reserves; `PlanSound`, `PlanPlacesDeclared` and `PlanCoverage.CatalogPlanDrawsLoaded` state that they are sound and cover every loaded item |
| Planner.StepSound | src/components/GenerateCollage/VaryingLayout/helpers.ts:180-212 | one image callback keeps the plan sound and either changes nothing or appends exactly one tile for its item |
| Planner.ResolveSound | src/components/GenerateCollage/VaryingLayout/helpers.ts:180-220 | resolving a run of distinct entries, declared first, keeps the plan sound |
| Planner.PlanSound | src/components/GenerateCollage/VaryingLayout/helpers.ts:99-221 | for a well-declared template every drawn tile is in the grid, belongs to one item and agrees with its entry, and no two tiles share a cell or an item |
| Planner.CatalogPlanSound | src/components/GenerateCollage/VaryingLayout/helpers.ts:99-221 | every catalogue collage, for any random variant and any load outcome, is sound |
| Planner.StepOutcome | src/components/GenerateCollage/VaryingLayout/helpers.ts:180-212 | a callback changes nothing exactly when the image failed, or the item is undeclared and no free square fits |
| Planner.ResolveKeeps | src/components/GenerateCollage/VaryingLayout/helpers.ts:180-212 | placed tiles are never removed |
| Planner.ResolvePlacesDeclared | src/components/GenerateCollage/VaryingLayout/helpers.ts:182-197 | a loaded item with a declared position is always drawn |
| Planner.PlanPlacesDeclared | src/components/GenerateCollage/VaryingLayout/helpers.ts:99-221 | in the collage plan every loaded item with a declared position is drawn |
| PlanCoverage.MarkFill | src/components/GenerateCollage/VaryingLayout/helpers.ts:197 | marking a square of side `size` keeps the grid's shape and adds at most `size x size` occupied cells |
| PlanCoverage.FillEmpty | src/components/GenerateCollage/VaryingLayout/helpers.ts:116-118 | a fresh grid has no occupied cell |
| PlanCoverage.FreeCell | src/components/GenerateCollage/VaryingLayout/helpers.ts:182-189 | a grid with fewer than `rows x cols` occupied cells has a free cell |
| PlanCoverage.InPhaseArea | src/components/GenerateCollage/VaryingLayout/helpers.ts:145-169 | the three phase lists together cover as many cells as the entries they split |
| PlanCoverage.SlotsAreaIsArea | src/components/GenerateCollage/VaryingLayout/helpers.ts:134-164 | the slots of a template cover the sum of `count x size x size` over its classes |
| PlanCoverage.EntriesSlotsArea | src/components/GenerateCollage/VaryingLayout/helpers.ts:134-164 | while every item has a slot, the entries of items `0..n-1` cover what the first `n` slots cover |
| PlanCoverage.ResolveFill | src/components/GenerateCollage/VaryingLayout/helpers.ts:180-212 | the callbacks keep the grid's shape and add at most their footprints' area of occupied cells |
| PlanCoverage.FillBeforeSmall | src/components/GenerateCollage/VaryingLayout/helpers.ts:180-220 | before a 1x1 callback, on a template whose slots tile the grid, a cell is still free |
| PlanCoverage.StepPlacesSmall | src/components/GenerateCollage/VaryingLayout/helpers.ts:180-197 | the callback of a loaded item with a 1x1 tile, on a grid with a free cell, reserves a tile for it |
| PlanCoverage.SmallStepPlaces | src/components/GenerateCollage/VaryingLayout/helpers.ts:180-212 | the callback of a loaded 1x1 item in that situation reserves a tile for it |
| PlanCoverage.PlanDrawsLoaded | src/components/GenerateCollage/VaryingLayout/helpers.ts:99-221 | on a template whose slots tile the grid exactly and whose undeclared slots are 1x1, with no more items than slots, every loaded item is drawn |
| PlanCoverage.SlotSizes | src/components/GenerateCollage/VaryingLayout/helpers.ts:134-164 | classes with footprints 1 to 3 give slots with footprints 1 to 3 |
| PlanCoverage.CatalogSlotsCover | src/components/GenerateCollage/VaryingLayout/helpers.ts:99-128 | every catalogue template, under any variant the random choice can pick, has `imageCount` slots that tile the grid exactly and leaves only 1x1 slots undeclared |
| PlanCoverage.CatalogPlanDrawsLoaded | src/components/GenerateCollage/VaryingLayout/helpers.ts:99-221 | on every catalogue template and random variant, with at most `imageCount` items, every item whose image loads is drawn |
| Demo.DemoLayouts | src/components/Demo.tsx:28-56 | the demo table has exactly the sizes 4, 5 and 6, each an `n x n` grid |
| Demo.DemoCapacity | src/components/Demo.tsx:28-56 | each demo template fills its grid exactly and its counts add up to its image count |
| Demo.DynamicLayout | src/components/Demo.tsx:93-98 | the count-based template; `DynamicLayoutCases` states its three cases |
| Demo.DynamicLayoutCases | src/components/Demo.tsx:93-98 | up to 10 items the 4x4 template, 11 to 16 the 5x5 one, none beyond 16 |
| Demo.ChooseLayout | src/components/Demo.tsx:111 | the table template, else the count-based one; `ChooseLayoutFallback` states the choice |
| Demo.ChooseLayoutFallback | src/components/Demo.tsx:111 | table sizes use their own template, any other size the count-based one |
| Demo.MenuSizeSevenThrows | src/components/Demo.tsx:303 | menu entry 7 makes the demo item count as written fail |
| Demo.DemoImageCount | src/components/Demo.tsx:303 | the corrected count is 10 for a size missing from the table and agrees with the written one elsewhere |
| Demo.MenuSizesHaveLayouts | src/components/Demo.tsx:338 | with the corrected count every menu size gets a template; 7 falls back to 4x4 |
| Demo.Tier | src/components/Demo.tsx:130-146 | the demo's footprint for a class lies in the same phase as the class's size |
| Demo.DemoView | src/components/Demo.tsx:130-146 | the demo's view keeps the grid, the image count and every class's count and phase (large, medium, small), with a footprint of 1 to 3 and no declared positions |
| Demo.DemoBucketStep | src/components/Demo.tsx:133-139 | pushing the demo's tile of the next item keeps the three lists equal to the phase filters |
| Demo.DemoAssignClass | src/components/Demo.tsx:131-142 | after one class the counter is `min(n, slots so far)` and the lists are the phase filters |
| Demo.DemoSizeAssignments | src/components/Demo.tsx:130-149 | the demo's combined list is large, then medium, then small entries of items `0..n-1` |
| Demo.DemoAssignmentsArePermutation | src/components/Demo.tsx:130-149 | the combined list has `n` entries, a permutation of items `0..n-1`, undeclared, footprints 1–3, in phase order |
| Demo.SlotsUndeclared | src/components/Demo.tsx:130-146 | demo slots carry no positions and tiered footprints |
| ColorSort.RgbToHsv | src/utils/colorSort.tsx:39-55 | HSV of a colour; `AchromaticHue`, `HueRange`, `SaturationValue` and `HsvExtremes` state its ranges and its grey case |
| ColorSort.Max3 | src/utils/colorSort.tsx:43 | the result is one of the three and at least each |
| ColorSort.Min3 | src/utils/colorSort.tsx:44 | the result is one of the three and at most each |
| ColorSort.AchromaticHue | src/utils/colorSort.tsx:46-53 | a grey has hue 0 and saturation 0 |
| ColorSort.HueRange | src/utils/colorSort.tsx:46-52 | hue lies in `[0, 1)` |
| ColorSort.SaturationValue | src/utils/colorSort.tsx:53-54 | saturation and value lie in `[0, 1]`; `v*255` is the largest channel and `(1-s)*v*255` the smallest |
| ColorSort.HsvExtremes | src/utils/colorSort.tsx:39-55 | value and scaled minimum lie in `[0,1]`, ordered, and scale back to the largest and smallest channel |
| ColorSort.MethodOf | src/utils/colorSort.tsx:101-102 | hue sorting is chosen exactly for the name "hue" |
| ColorSort.SwapDown | src/utils/colorSort.tsx:62 | one swap exchanges two neighbours and keeps the multiset |
| ColorSort.InsertAt | src/utils/colorSort.tsx:62-66 | inserting the next element keeps the prefix sorted by the key, the suffix untouched and the multiset unchanged |
| ColorSort.SortOn | src/utils/colorSort.tsx:61-78 | the array ends sorted by the key and is a permutation of its old contents |
| ColorSort.SortBy | src/utils/colorSort.tsx:61-78 | brightness sorts by `r+g+b`, hue by HSV hue; the result is a sorted permutation |
| ColorSort.Attach | src/utils/colorSort.tsx:88-95 | item `i` gets exactly colour `i` as its colour and its own link as `src`, and keeps its link and title |
| ColorSort.ProjectAttach | src/utils/colorSort.tsx:88-105 | attaching colours and mapping back gives the items again |
| ColorSort.ProjectPermutation | src/utils/colorSort.tsx:101-105 | mapping back a permutation gives a permutation |
| ColorSort.SortImages | src/utils/colorSort.tsx:83-106 | fails exactly when some colour is missing; otherwise the result is a permutation of the items, sorted by the method's key |
| FixedGrid.ArrangeImages | src/components/GenerateCollage/FixedLayout/helpers.ts:141-155 | "brightness" and "hue" sort (failing exactly on a missing colour, otherwise a sorted permutation); any other name keeps the order (the copy in drawUtils.ts:99-113 is the same) |
| FixedGrid.CellOf | src/components/GenerateCollage/FixedLayout/helpers.ts:34-35 | row `floor(idx/col)`, column `idx % col`; `CellRoundTrip`, `CellInjective` and `CellInGrid` state the round trip, injectivity and the grid bound |
| FixedGrid.CellRoundTrip | src/components/GenerateCollage/FixedLayout/helpers.ts:34-35 | position and cell determine each other: `row*col + column` gives back the index |
| FixedGrid.CellInjective | src/components/GenerateCollage/drawUtils.ts:32-33 | distinct indices get distinct cells |
| FixedGrid.CellInGrid | src/components/GenerateCollage/FixedLayout/helpers.ts:34-35 | the first `row x col` indices land inside the grid |
| FixedGrid.SquareOnCanvas | src/components/GenerateCollage/FixedLayout/helpers.ts:19-37 | each square lies on the canvas |
| FixedGrid.SquaresDisjoint | src/components/GenerateCollage/drawUtils.ts:32-35 | squares of distinct indices do not overlap |
| FixedGrid.Tiles | src/components/GenerateCollage/drawUtils.ts:32-35 | tile `idx` is item `idx` in the arranged order, at the origin of cell (`floor(idx/col)`, `idx % col`); no two tiles overlap |
| FixedGrid.OriginsDisjoint | src/components/GenerateCollage/drawUtils.ts:32-35 | the squares drawn at two distinct positions `i < j` do not overlap |
| FixedGrid.TilesSound | src/components/GenerateCollage/FixedLayout/helpers.ts:17-37 | with at most `row x col` items every tile is on the canvas and no two overlap |
| Settings.RemoveSpaces | src/utils/index.tsx:2 | no whitespace survives |
| Settings.RemoveSpacesKeepsRest | src/utils/index.tsx:2 | only whitespace is removed: every other character keeps its number of occurrences |
| Settings.ToLower | src/utils/index.tsx:2 | no ASCII capital is left; capitals move down by 32 and the Kelvin sign becomes "k"; every other character is unchanged |
| Settings.ToUpperAscii | src/utils/index.tsx:2 | no ASCII lower-case letter is left; such letters move up by 32 and every other character is unchanged (used to state that the match ignores case) |
| Settings.TransformPeriodFormat | src/utils/index.tsx:1-18 | the period normalisation; `TransformIsValidDuration`, `TransformCases`, `TransformIgnoresSpace` and `TransformIgnoresCase` state its range, its cases and what it ignores |
| Settings.TransformIsValidDuration | src/utils/index.tsx:1-18 | every period maps to a valid duration |
| Settings.TransformCases | src/utils/index.tsx:2-17 | each duration results exactly from its normalised key; "7day" from "1week" and every unknown key |
| Settings.RemoveSpacesConcat | src/utils/index.tsx:2 | whitespace removal distributes over concatenation |
| Settings.TransformIgnoresSpace | src/utils/index.tsx:2 | inserting whitespace anywhere does not change the result |
| Settings.TransformIgnoresCase | src/utils/index.tsx:2 | upper-casing the ASCII letters of the input does not change the result |
| Settings.RemoveSpacesUpper | src/utils/index.tsx:2 | removing spaces and upper-casing commute |
| Settings.TransformWeekExamples | src/utils/index.tsx:3-4 | "1 Week" and "1WEEK" both become "7day" |
| Settings.TransformMonthsExample | src/utils/index.tsx:7-8 | "3 Months" becomes "3month" |
| Settings.TransformOnDurations | src/utils/index.tsx:1-18 | on a valid duration the transform returns "7day", "1month" and "overall" unchanged, and maps "3month", "6month" and "12month" to "7day" |
| Settings.TrimStart | src/utils/index.tsx:28 | drops exactly the leading whitespace |
| Settings.TrimEnd | src/utils/index.tsx:28 | drops exactly the trailing whitespace |
| Settings.TrimBlank | src/utils/index.tsx:28 | trimming gives "" exactly for blank strings; otherwise the ends are not whitespace |
| Settings.ValidateCollageSettings | src/utils/index.tsx:20-54 | the form check; `ValidateIff`, `ValidateUsernameFirst`, `ValidateDurationSecond` and `ValidateMessage` state when it passes and which message it reports |
| Settings.UsernameMissingIff | src/utils/index.tsx:28 | the username check fails exactly for blank usernames |
| Settings.ValidateUsernameFirst | src/utils/index.tsx:28-30 | the username message comes exactly for blank usernames |
| Settings.ValidateDurationSecond | src/utils/index.tsx:41-43 | a present username with an unknown duration gets the duration message |
| Settings.ValidateIff | src/utils/index.tsx:20-54 | valid exactly when the username is not blank, the duration is known and there are two integer entries in `0..9` |
| Settings.ValidateMessage | src/utils/index.tsx:20-54 | a message is present exactly when the settings are invalid |
| Settings.SetCollageSettings | src/utils/index.tsx:56-71 | the drawing settings; `SettingsAfterValidation` states what they hold after a successful check |
| Settings.SettingsAfterValidation | src/utils/index.tsx:56-71 | after validation: a trimmed, non-empty username, the same known duration, and row and column integers in `1..10` |
| Settings.TrimIdempotent | src/utils/index.tsx:65 | a string without surrounding whitespace trims to itself |
| Wizard.Route | src/components/GenerateCollage/MultiStepForm.tsx:38-94 | the `next` of each step; `RouteFollowsGraph`, `RouteByLayout` and `RouteConstant` state where it leads |
| Wizard.RouteFollowsGraph | src/components/GenerateCollage/MultiStepForm.tsx:38-94 | only the two collage steps have no next step; every other step moves to a successor in the step graph |
| Wizard.RouteByLayout | src/components/GenerateCollage/MultiStepForm.tsx:57-82 | the layout and overlay steps go to the size and varying steps exactly when the layout is "varying", else to the selector and fixed steps |
| Wizard.RouteConstant | src/components/GenerateCollage/MultiStepForm.tsx:38-94 | every other step ignores the settings |
| Wizard.Reduce | src/components/GenerateCollage/MultiStepForm.tsx:125-158 | the reducer; `UpdateOnlyField`, `NextBehaviour`, `PrevBehaviour` and `ReduceKeepsInv` state each action and the invariant it keeps |
| Wizard.UpdateOnlyField | src/components/GenerateCollage/MultiStepForm.tsx:127-130 | UPDATE sets one field and changes nothing else |
| Wizard.NextBehaviour | src/components/GenerateCollage/MultiStepForm.tsx:132-141 | NEXT is a no-op exactly when there is no next step or it is the current one; otherwise it pushes it with the direction of the move |
| Wizard.PrevBehaviour | src/components/GenerateCollage/MultiStepForm.tsx:143-153 | PREV is a no-op exactly with at most one history entry; otherwise it pops and returns to the previous entry, with the direction of the move |
| Wizard.InitialInv | src/components/GenerateCollage/MultiStepForm.tsx:109-123 | the initial state satisfies the invariant |
| Wizard.ReduceKeepsInv | src/components/GenerateCollage/MultiStepForm.tsx:125-158 | every action keeps the history a strictly increasing path ending in the current step |
| Wizard.Run | src/components/GenerateCollage/MultiStepForm.tsx:125-158 | any sequence of actions keeps the invariant |
| Wizard.HistoryIncreasing | src/components/GenerateCollage/MultiStepForm.tsx:132-153 | the history is strictly increasing |
| Wizard.HistoryBound | src/components/GenerateCollage/MultiStepForm.tsx:21-29 | the history never holds more than the nine steps |
| Wizard.ReachableDirections | src/components/GenerateCollage/MultiStepForm.tsx:132-153 | from the start, NEXT always moves forward and PREV backward |
| Wizard.NextThenPrev | src/components/GenerateCollage/MultiStepForm.tsx:132-153 | NEXT then PREV restores the step, history and settings |
| Wizard.InitialPath | src/components/GenerateCollage/MultiStepForm.tsx:109-123 | from the initial settings the NEXT path is steps 0,1,2,3,5,6,8 and then stops |

## Left out

- Canvas drawing is not modelled: clearing, sizing, `drawImage`, device-pixel ratio, the title overlay (`printName`) and the loading of images. Image outcomes are an input (`loaded`).
- `cellSize` and the canvas size of the varying layout are not modelled, because they only scale the grid to pixels.
- The random variant choice is a parameter, constrained by `IsVariantChoice`, because randomness cannot be modelled.
- The demo draws its tiles in its own drawing routine, which is not part of this model. Its grid helpers wrap footprints in `Math.ceil`, so they coincide with `OccupancyGrid` for the whole-number footprints used.
- `getAverageColor` and the colour library are an input, one `Option<Rgb>` per item, because they are a foreign call.
- Floating point: the HSV maths is over exact reals, so rounding is not modelled.
- Sorting: `Array.prototype.sort` is an insertion sort over an array here. The engine's algorithm is not modelled.
- SortOn: does not state stability (items with equal keys keep their input order, which `Array.prototype.sort` guarantees since ES2019); it states "sorted by the key and a permutation".
- SortBy: does not state stability, for the same reason as `SortOn`.
- ArrangeImages: does not state stability of the brightness and hue orders, for the same reason as `SortOn`.
- The fixed layout's own `./colorSort` module is not part of this model. Both `arrangeImages` copies are modelled with `ColorSort.SortImages`.
- Settings numbers are exact reals, so `NaN` and infinities are not modelled as inputs. `SetCollageSettings` gives `None` for the `NaN` that `row_col[0] + 1` yields when an entry is missing.
- `toLowerCase` is modelled for ASCII capitals and the Kelvin sign only; every other character is kept. U+0130 lowers to "i" followed by U+0307, a one-to-two mapping that is not modelled. Neither form occurs in a period label, so the label matched is the same.
- The network (the Last.fm fetchers), the React components, the console messages and the router are not modelled, because they are I/O and UI.
- Wizard.Reduce: requires the current step to be in range for NEXT. With an index of 9 or more the source reads `steps[state.currentIndex]` as `undefined`, and calling `.next(...)` on it throws a TypeError (src/components/GenerateCollage/MultiStepForm.tsx:133). The invariant rules such an index out.
- ColorSort.SortImages: states "some sorted arrangement", not the particular one the engine's sort yields, because stability is not modelled.

## Findings

| source | as written | input that shows it | evidently intended | confidence | as-written member | corrected member |
|---|---|---|---|---|---|---|
| src/components/Demo.tsx:303 | the item count reads `COLLAGE_LAYOUTS[gridSize].imageCount \|\| 10`, and the property access on `undefined` throws before the `\|\| 10` fallback | grid size 7 (offered in the menu at line 338) | fall back to 10 items, then to the count-based template | not executed | Demo.MenuSizeSevenThrows | Demo.MenuSizesHaveLayouts |
