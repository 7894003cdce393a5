# Contest judge validators, modelled in Dafny

This project models the checking core of a programming-contest judge. The
judge takes a contestant's submission text and a fixed problem instance, and
either accepts the submission or says why not. Six validators are modelled:

- **Drone routes, full version** (`validators/unicode24.py`). The map loader
  reads the dimensions, delivery points with an optional required visiting
  slot, walls (axis-aligned segments expanded into cells), two-way tunnels,
  and other drones whose cyclic moves are run-length encoded. Each step
  checks the map bounds in a fixed order, then relocates through a tunnel,
  then checks walls, then checks the other drones. A route's text is
  expanded from `\d+[><+-]` tokens and replayed step by step. A route's
  origin is kept as the integer tuple its line gives, of any length, and one
  that is not a pair fails where the source fails. The submission
  validator walks the route lines with a slot cursor, then checks the
  reported move total and that every point was covered.
- **Drone routes, intermediate version** (`validators/unicode24_medio.py`).
  One character is one move, and bounds are checked before moving. Tunnel
  records are compared with a position tuple, so tunnels never apply. The
  final coverage test compares a set with `{}` (an empty dict), so it never
  holds. The model follows the code in both places and proves the
  consequence: every submission whose routes pass is refused, either for its
  move count or for coverage.
- **Drone routes, easy version** (`validators/validador_facil.py`). Routes
  are chained from the initial cell, `+` increases y, each character is one
  move, and errors are raised rather than returned.
- **Class timetable** (`validators/unicode25.py`). This covers the output
  parser (day headers in strictly increasing order), the rule checks, the
  greedy per-student attendance score, and the theoretical maximum. The
  rule checks are: professor overlap, at most three contiguous hours, the
  8–20 window, one class of a subject at a time, required hours, no
  unassigned hours, and day coverage.
- **One Pizza** (`validators/onePizza.py`). A client scores when the pizza
  has everything they like and nothing they dislike.
- **Fibonacci** (`validators/fibonacci.py`). The recurrence check.

## Structure

- `wrappers.dfy`: `Option`/`Result`.
- `text.dfy`: the Python string operations the validators rely on (`strip`,
  `split(sep)`, `split()`, `int`, negative indexing, slicing, reading
  numbered lines).
- `py_dict.dfy`: insertion-ordered dictionaries as sequences of pairs.
- `grid.dfy`, `run_length.dfy`: cells, glyphs, wall segments, and the
  run-length move tokens.
- `unicode24_map.dfy`, `unicode24_sim.dfy`, `unicode24.dfy`: the full drone
  validator.
- `unicode24_medio.dfy`, `validador_facil.dfy`: the two earlier variants.
- `unicode25_parse.dfy`, `unicode25_render.dfy`, `unicode25_rules.dfy`,
  `unicode25_score.dfy`, `intervals.dfy`: the timetable checker.
- `one_pizza.dfy`, `fibonacci.dfy`.

Files are read as sequences of lines, and errors are values of error
datatypes rather than message strings.

## Model

| member | source | states |
|---|---|---|
| Fibonacci.IsFibonacciSequence | validators/fibonacci.py:4-12 | returns true exactly when the list has at least three terms and every term from the third on is the sum of the two before it |
| Fibonacci.GenerateRecurrence | validators/fibonacci.py:8-10 | the list generated from any two starting terms obeys the recurrence the checker tests |
| Fibonacci.AcceptedIffGenerated | validators/fibonacci.py:4-12 | a list is accepted exactly when it has at least three terms and equals the list generated from its first two terms |
| Fibonacci.Determined | validators/fibonacci.py:8-10 | two accepted lists of the same length with the same first two terms are equal |
| Fibonacci.PrefixAccepted | validators/fibonacci.py:8-10 | every prefix of an accepted list with at least three terms is accepted |
| Fibonacci.Extend | validators/fibonacci.py:8-10 | appending to an accepted list keeps it accepted exactly when the new term is the sum of the last two |
| OnePizza.GetsPointIff | validators/onePizza.py:39-48 | a client scores exactly when every liked ingredient is on the pizza and no disliked one is |
| OnePizza.ConflictedNeverScores | validators/onePizza.py:47-48 | a client who likes and dislikes the same ingredient never scores |
| OnePizza.ScoreBounds | validators/onePizza.py:51-64 | the score lies between 0 and the number of clients |
| OnePizza.ScoreAll | validators/onePizza.py:51-64 | the score equals the number of clients exactly when every client scores |
| OnePizza.ScoreNone | validators/onePizza.py:51-64 | the score is 0 exactly when no client scores |
| OnePizza.ScoreAppend | validators/onePizza.py:58-64 | the score of two groups of clients is the sum of their scores |
| OnePizza.ScoreBySet | validators/onePizza.py:39-64 | two pizzas with the same ingredients, in any order and with repeats, get the same score |
| OnePizza.IngredientsIff | validators/onePizza.py:19-20 | an ingredient is listed exactly when some client likes or dislikes it |
| OnePizza.ReadClientsCount | validators/onePizza.py:12-17 | reading n clients succeeds exactly when 2n lines are there, and yields n clients |
| OnePizza.ClientLine | validators/onePizza.py:14-17 | a client line with its line break is read back as its items, whatever its count token says |
| OnePizza.OutputIgnoresCount | validators/onePizza.py:30-36 | the output's leading count is dropped and never compared with the ingredients that follow |
| OnePizza.ParseInputShape | validators/onePizza.py:1-27 | the input parses exactly when its first line is an integer n and 2n more lines follow; it then holds n clients (none for n ≤ 0) and exactly the ingredients they mention |
| Text.Split | validators/unicode24.py:180 | `split(sep)` is never empty, no piece holds the separator, and joining the pieces with it gives back the text |
| Text.SplitJoin | validators/unicode24.py:180 | splitting joined separator-free pieces gives the pieces back |
| Text.StripSpec | validators/unicode24.py:184 | `strip` gives the empty text exactly when every character is white space as `str.isspace` defines it, Unicode space separators included |
| Text.IntStringRoundTrip | validators/unicode24.py:182 | `int` reads back the decimal rendering of any integer, also with white space around it |
| Text.WordsJoin | validators/unicode25.py:66 | `split()` of words joined by single spaces gives the words back, for words holding no `str.isspace` white space |
| Text.ParseInts | validators/unicode24.py:74 | parsing every piece succeeds exactly when each piece is an integer, with the values in order |
| Text.PyIndex | validators/unicode24.py:206 | Python indexing: defined exactly for -n ≤ i < n, with negative indices counting from the end |
| Text.PySlice | validators/validador_facil.py:28 | Python slicing: plain slicing for bounds inside the list, empty for crossed bounds, clamped at the end |
| Text.ReadBlock | validators/unicode24.py:55-64 | reading n lines from line k succeeds exactly when they all exist and parse, giving n values, each the parse of its line |
| Grid.WallCells | validators/unicode24.py:40-45 | a segment with equal columns covers as many cells as its row range has values, any other segment as many as its column range |
| Grid.WallCellsMembership | validators/unicode24.py:40-45 | a cell is blocked by a segment exactly when it lies on the segment's column between its rows (equal columns), or on its first row between its columns; a segment written backwards blocks nothing |
| Grid.WallListMembership | validators/unicode24.py:39-46 | the wall set holds exactly the cells that lie on some segment |
| RunLength.ExpandLength | validators/unicode24.py:161-164 | the expanded move list has as many moves as the token counts add up to |
| RunLength.ExpandAppend | validators/unicode24.py:164 | expansion works token by token, in order |
| RunLength.ExpandToken | validators/unicode24.py:164 | one token expands to exactly `count` copies of its glyph |
| RunLength.TokensEncode | validators/unicode24.py:161 | reading back the canonical text of a token list gives the same tokens |
| RunLength.TokensSkipNoise | validators/unicode24.py:161 | text without digits in front of a route adds no tokens |
| RunLength.TokensNoDigits | validators/unicode24.py:161 | text without digits holds no tokens |
| RunLength.DanglingCountSkipped | validators/unicode24.py:161 | a digit run followed by something other than a glyph is skipped together with that character |
| Unicode24Map.ParseCell | validators/unicode24.py:74-75 | a cell parses exactly when the text splits into two integers |
| Unicode24Map.ParsePoint | validators/unicode24.py:55-64 | a point line gives the cell of its first two fields, and a required slot exactly when it has a third field, which is that slot |
| Unicode24Map.ParseSegment | validators/unicode24.py:67-76 | a wall or tunnel line parses exactly when its first two parts are cells, and gives the segment between them |
| Unicode24Map.ParseDrone | validators/unicode24.py:78-98 | a drone starts at move index 0, and its moves are the expansion of the run-length tokens of its second field |
| Unicode24Map.TunnelKeys | validators/unicode24.py:47-50 | the tunnel table holds exactly the tunnel ends |
| Unicode24Map.TunnelsSymmetric | validators/unicode24.py:47-50 | when no two tunnels share an end, each tunnel leads from each of its ends to the other |
| Unicode24Map.TunnelsInvolution | validators/unicode24.py:47-50 | when no two tunnels share an end, following a tunnel twice returns to the start |
| Unicode24Map.Load | validators/unicode24.py:20-64 | a loaded map keeps its level, starts every drone at index 0, has walls and tunnels only from level 2 and drones only from level 3, and gives a point a slot exactly when its line has a third field |
| Unicode24Sim.MoveDrone | validators/unicode24.py:124-137 | a move succeeds exactly when the target cell is on the map, and returns that cell; otherwise it reports the first edge crossed, in the order x ≥ W, x < 0, y < 0, y ≥ H |
| Unicode24Sim.AdvanceDrone | validators/unicode24.py:104-110 | another drone takes the move at its index, stays on the map, and its index moves on by one modulo its cycle length; an empty cycle or a move off the map fails |
| Unicode24Sim.Collides | validators/unicode24.py:112-118 | a hit when the other drone's new cell is ours, or when both kept the same axis and its old cell is ours |
| Unicode24Sim.CheckDrones | validators/unicode24.py:121-122 | no hit is reported exactly when every drone advances and none hits ours; each drone is then advanced by exactly one move |
| Unicode24Sim.Step | validators/unicode24.py:141-155 | a step succeeds exactly when the target is on the map, is not a wall after relocation (level 2 on), and meets no other drone (level 3); it counts one move, and it ends on the map when every tunnel does |
| Unicode24Sim.ReplayMoves | validators/unicode24.py:155-164 | a successful replay counts one move per elementary move |
| Unicode24Sim.TraversePathMoves | validators/unicode24.py:158-168 | the move count of a traversed route is the sum of its token counts |
| Unicode24Sim.ReplayInBounds | validators/unicode24.py:141-155 | after at least one successful move the drone is on the map, wherever it started, when every tunnel leads onto the map |
| Unicode24Sim.ReplayAppend | validators/unicode24.py:164 | replaying two move lists in turn is replaying their concatenation |
| Unicode24Sim.ReplayAdvancesDrones | validators/unicode24.py:100-122 | in a level-3 replay each other drone advances exactly once per elementary move |
| Unicode24Sim.AdvanceTimesIsPositionAt | validators/unicode24.py:104-110 | after t ticks another drone is where its cycle leads in t moves from its index, with its index moved on by t |
| Unicode24Sim.ReplayWithoutTunnels | validators/unicode24.py:141-155 | without tunnels and drones, a replay succeeds exactly when the plain walk stays on free cells of the map, and then ends where the walk ends |
| Unicode24.ParseRoute | validators/unicode24.py:179-185 | a route line parses exactly when it has three `;` fields, an integer id and a `,`-separated tuple of integers of any length; the id and origin are those values, and the moves are the third field stripped |
| Unicode24.ParseRenderRoute | validators/unicode24.py:179-185 | the canonical text of a route, with an origin tuple of any non-zero length, is read back as that route |
| Unicode24.CheckRoute | validators/unicode24.py:206-223 | an accepted route names an existing point whose slot allows the cursor and has a pair as origin; it advances the cursor by one, records the id, and adds its token counts |
| Unicode24.CheckRouteOrder | validators/unicode24.py:206-223 | checks run in order: a missing point raises, a slot mismatch is reported before the replay, a replay error before the destination; an origin that is not a pair is reported as a wrong destination when the route has no elementary moves, and otherwise as the unpack error of line 125 that `traverse_path` catches (lines 163-166); a route is accepted exactly when all pass |
| Unicode24.RunRoutesSummary | validators/unicode24.py:196-223 | after a successful loop every non-blank line was a route, the cursor moved once per route, the visited ids are the route ids in order, and the total is their token counts |
| Unicode24.RunRoutesSlots | validators/unicode24.py:195-223 | after a successful loop the k-th route goes to a point whose slot, if any, is the starting cursor plus k |
| Unicode24.ContainsAllPoints | validators/unicode24.py:171-175 | coverage holds exactly when every id from 1 to n was visited; repeats and other ids do not matter |
| Unicode24.Finish | validators/unicode24.py:225-230 | the final checks pass exactly when the reported total matches and every point was visited; a mismatch is reported first with its distance; success returns the reported total |
| Unicode24.ValidateAccepts | validators/unicode24.py:189-230 | an accepted submission returns its first line's total, which equals its routes' token counts; its routes deliver, each replaying without error and ending on its point's cell; the k-th route meets any slot k+1; every point is a route's target |
| Unicode24.RunRoutesIff | validators/unicode24.py:196-223 | the route loop passes exactly when every non-blank line parses as a route and the routes deliver: each names an existing point whose slot allows it, replays among the drones the previous routes left, and ends on its point |
| Unicode24.ValidIff | validators/unicode24.py:189-230 | `validate_output` accepts exactly when the first line is an integer equal to the routes' summed token counts, every other non-blank line is a route, the routes deliver from slot 1, and every point id is some route's target; it then returns that integer |
| Unicode24.BlankLineSkipped | validators/unicode24.py:199-200 | a blank line changes nothing |
| Unicode24.SlotCheckedFirst | validators/unicode24.py:206-207 | a route whose point demands another slot is refused for that, whatever its moves |
| Unicode24.SizeBase | validators/unicode24.py:232-241 | only the four size names have a base, each at least 100 |
| Unicode24Medio.Load | validators/unicode24_medio.py:15-51 | loaded points are numbered 1, 2, …, and a point has a slot exactly when its line has a third `;` field |
| Unicode24Medio.Number | validators/unicode24_medio.py:44-50 | the i-th point gets id i+1 and keeps its cell and slot |
| Unicode24Medio.FindPoint | validators/unicode24_medio.py:68-70 | a point is found exactly when one carries the id, and the one found carries it |
| Unicode24Medio.FindNumbered | validators/unicode24_medio.py:68-70 | on loaded points exactly the ids 1..n are found, and id i is the i-th point |
| Unicode24Medio.RequiredSlot | validators/unicode24_medio.py:72-75 | an unknown id has no slot requirement; a known one has its point's slot |
| Unicode24Medio.CoordsOf | validators/unicode24_medio.py:119-121 | a cell is returned exactly for a known id, and it is that point's cell |
| Unicode24Medio.TunnelAt | validators/unicode24_medio.py:77-79 | no tunnel is ever found at a cell |
| Unicode24Medio.Step | validators/unicode24_medio.py:88-114 | a non-glyph fails as unexpected; each glyph tests its bound on the current cell (`X={W}`, `X=0`, `Y=0`, `Y={H}`); from a cell on the map a step succeeds exactly when the target is on the map and is not a wall |
| Unicode24Medio.Traverse | validators/unicode24_medio.py:84-116 | an empty route stays put, and from a cell on the map an accepted route ends on the map |
| Unicode24Medio.TraverseWalk | validators/unicode24_medio.py:84-116 | from a cell on the map a route is accepted exactly when it is all glyphs and its plain walk stays on free cells, and it ends where the walk ends |
| Unicode24Medio.TunnelsIgnored | validators/unicode24_medio.py:111-112 | the tunnels of a map never change a walk |
| Unicode24Medio.ParseRoute | validators/unicode24_medio.py:130-136 | a route line parses exactly when it has three `;` fields, an integer id and a `-`-separated tuple of integers of any length; the id and origin are those values, and the moves are the third field stripped |
| Unicode24Medio.CheckRoute | validators/unicode24_medio.py:153-170 | a slot mismatch is reported first; an origin that is not a pair is a wrong destination when the move text is empty and otherwise raises at the unpacking of line 90; a route is accepted exactly when its slot fits, its origin is a pair, and its walk succeeds and ends on its point; the remaining total drops by its text length and the cursor moves on |
| Unicode24Medio.UnknownIdRefused | validators/unicode24_medio.py:153-165 | a route to an unknown id is always refused; from a pair origin it is refused by its walk or as a wrong destination against no cell |
| Unicode24Medio.RunRoutesSummary | validators/unicode24_medio.py:147-170 | after a successful loop every line was a route, the cursor moved once per line, and the remaining total dropped by the summed move-text lengths |
| Unicode24Medio.ContainsAllPoints | validators/unicode24_medio.py:123-126 | the coverage test never holds |
| Unicode24Medio.Finish | validators/unicode24_medio.py:172-175 | a non-zero remainder is reported with its absolute value; a zero remainder ends in the coverage error |
| Unicode24Medio.Validate | validators/unicode24_medio.py:140-175 | every submission ends in an error |
| Unicode24Medio.ValidateAfterRoutes | validators/unicode24_medio.py:140-175 | when every route passes, a total different from the summed move-text lengths is refused with their distance, and a matching one still ends in the coverage error |
| Facil.ParsePointLine | validators/validador_facil.py:28-36 | a point line parses exactly when it holds at least two numbers; it has no required order exactly when it holds two, and otherwise the third number is the order |
| Facil.ReadPoints | validators/validador_facil.py:28-36 | the points are read from the Python slice `lines[3:3+count]`, one per line |
| Facil.ReadInput | validators/validador_facil.py:4-41 | the input reads exactly when its first two lines are `;`-separated integers, its third an integer count, and every point line of the slice parses; size and start are those integer tuples, of any length |
| Facil.ReadInputCount | validators/validador_facil.py:24-28 | a non-negative count reads exactly that many points, or every remaining line when the file is shorter |
| Facil.MatchRender | validators/validador_facil.py:65-78 | a rendered route followed by text that does not continue its glyphs matches back to the same route |
| Facil.ReadOutput | validators/validador_facil.py:44-86 | the output reads exactly when its first line is an integer and every later line matches the route pattern; the k-th later line gives the k-th route |
| Facil.BoundsCheck | validators/validador_facil.py:131-133 | the bounds test passes exactly when the size has two entries and the cell lies inside them; with a two-entry size any failure is the off-map error, while a shorter size raises once the `or` chain reaches the missing entry |
| Facil.Walk | validators/validador_facil.py:116-133 | a successful non-empty walk ends on the map, which then has a width and a height |
| Facil.WalkReference | validators/validador_facil.py:116-133 | a walk succeeds exactly when the route is all glyphs and the cell after every move is on the map; it ends where the glyphs lead |
| Facil.CheckRoute | validators/validador_facil.py:110-145 | a route whose start pair differs from the current position is refused for that; an accepted route starts on the current position, walks to its point, meets any required order, counts its moves, records its id and advances the order counter |
| Facil.DestinationBeforeOrder | validators/validador_facil.py:136-141 | a route ending on the wrong cell is refused for that, even when its point is also out of order |
| Facil.CheckRouteIff | validators/validador_facil.py:110-145 | a route is accepted exactly when it starts on the current position, its glyphs stay on the map and lead to its existing point, and its point's order, if any, is the counter; the position then becomes its end cell |
| Facil.RunRoutesSummary | validators/validador_facil.py:101-145 | after a successful loop the routes are chained from the start position, every move was counted, the order counter moved once per route, and the visited set holds the route ids |
| Facil.RunRoutesOrders | validators/validador_facil.py:107-145 | after a successful loop the k-th route meets any required order equal to the counter's start plus k |
| Facil.RunRoutesIff | validators/validador_facil.py:110-145 | the route loop passes exactly when the routes are chained from the current position, each stays on the map and ends on its point, and the k-th meets any order equal to the counter's start plus k |
| Facil.FirstUnvisited | validators/validador_facil.py:152-154 | none is found exactly when every id up to n was visited; otherwise it is the smallest unvisited id |
| Facil.ValidateAccepts | validators/validador_facil.py:89-154 | an accepted submission's routes are chained from the initial position, each stays on the map and ends on its point, their moves add up to the reported total, the k-th route meets any order k+1, and every point is visited |
| Facil.TotalBeforeCoverage | validators/validador_facil.py:148-154 | when every route passes, a wrong total is reported before coverage is looked at |
| Facil.ValidIff | validators/validador_facil.py:89-154 | `validate_output_data` raises nothing exactly when the routes are chained from the initial position, each stays on the map and ends on its point, the k-th meets any order k+1, the directions add up to the reported total, and every point is visited |
| Facil.Judge | validators/validador_facil.py:157-172 | an unreadable input is reported first, then an unreadable output |
| Unicode25Parse.Header | validators/unicode25.py:64-72 | a header reads exactly when the line holds two integers, and gives them |
| Unicode25Parse.ClassLine | validators/unicode25.py:91-102 | a class line reads exactly when it holds four integers, and gives them as professor, subject, start and end |
| Unicode25Parse.NewDay | validators/unicode25.py:75-80 | a day after every earlier day is appended as a new key, and keeps the days increasing |
| Unicode25Parse.ReadClasses | validators/unicode25.py:91-102 | when no class line fails, one class is read per line of the range |
| Unicode25Parse.DayBlock | validators/unicode25.py:59-104 | an accepted header announces a day after the last one, and parsing goes on 1 + n_classes lines further |
| Unicode25Parse.ParseFromIncreasing | validators/unicode25.py:58-106 | the schedule the loop returns has increasing, non-negative days |
| Unicode25Parse.ParseOutput | validators/unicode25.py:43-106 | a parsed schedule has increasing days, none negative |
| Unicode25Parse.BlankLineSkipped | validators/unicode25.py:59-62 | a blank line is skipped without changing anything |
| Unicode25Parse.MinusOneRereads | validators/unicode25.py:83-104 | a header announcing -1 classes sends the loop back to itself: the day is recorded with no classes and parsing stops as out of order |
| Unicode25Render.HeaderRoundTrip | validators/unicode25.py:64-69 | a rendered header reads back as its day and class count |
| Unicode25Render.ClassRoundTrip | validators/unicode25.py:91-98 | a rendered class line reads back as its class |
| Unicode25Render.ParseRendered | validators/unicode25.py:58-106 | from any line on, the rendering of the remaining days is parsed as those days, appended to the schedule so far |
| Unicode25Render.ParseRender | validators/unicode25.py:43-106 | every schedule with increasing, non-negative days is read back from its rendering unchanged and without a format error |
| Unicode25Rules.Range | validators/unicode25.py:181-189 | the range holds exactly the days from lo up to but excluding hi |
| Unicode25Rules.ProfDayPositive | validators/unicode25.py:118-124 | a professor's recorded intervals all have positive length |
| Unicode25Rules.NoOverlapIffDisjoint | validators/unicode25.py:132-136 | on intervals sorted by start, no adjacent overlap is reported exactly when no two intervals share an hour |
| Unicode25Rules.StretchStart | validators/unicode25.py:141-155 | the running stretch at an interval is the summed length of a back-to-back chain ending there |
| Unicode25Rules.NoStretchIffShortRuns | validators/unicode25.py:141-155 | no stretch is reported exactly when no back-to-back chain lasts more than three hours |
| Unicode25Rules.ProfDayRule3 | validators/unicode25.py:127-155 | a professor's day has no rule-3 error exactly when their sorted classes are pairwise disjoint and no back-to-back chain exceeds three hours |
| Unicode25Rules.BadDurationsIff | validators/unicode25.py:118-120 | no duration error is reported for a day exactly when every class starts before it ends |
| Unicode25Rules.DayProfIff | validators/unicode25.py:127-155 | a day has no rule-3 error exactly when no professor has one |
| Unicode25Rules.ProfErrorsIff | validators/unicode25.py:108-160 | the professor checks report nothing exactly when no day has a duration or rule-3 error |
| Unicode25Rules.CoverageIff | validators/unicode25.py:176-197 | no coverage error is reported exactly when the days are exactly 0..D-1 (with D > 0) or exactly 1..D |
| Unicode25Rules.WindowIff | validators/unicode25.py:213-216 | a class is reported outside hours exactly when it is on that day and does not lie within 8 to 20 |
| Unicode25Rules.SlotsClash | validators/unicode25.py:218-223 | a class of positive length is reported against no earlier slot exactly when it clashes with no earlier class |
| Unicode25Rules.DayClashes | validators/unicode25.py:211-223 | given clash-free earlier classes, no clash is reported exactly when all classes together are clash-free |
| Unicode25Rules.NoClashIff | validators/unicode25.py:211-223 | a day reports no subject clash exactly when no two of its positive classes of one subject share an hour |
| Unicode25Rules.ScheduleRulesDays | validators/unicode25.py:206-209 | the window and clash checks report only expected days, and report everything each expected day reports |
| Unicode25Rules.ScheduleRulesIff | validators/unicode25.py:206-223 | when every day is expected, the window and clash checks report nothing exactly when no day does |
| Unicode25Rules.DayRulesIff | validators/unicode25.py:206-223 | a day reports no window or clash error exactly when every class lies within 8 to 20 and the day is clash-free |
| Unicode25Rules.TaughtHours | validators/unicode25.py:115-124 | the taught-hours table has positive entries, one per key, and gives each professor–subject pair the summed length of its positive classes |
| Unicode25Rules.HoursErrorsIff | validators/unicode25.py:226-229 | no rule-1 error is reported exactly when every required pair was taught exactly its hours |
| Unicode25Rules.UnassignedIff | validators/unicode25.py:232-234 | no unassigned-hours error is reported exactly when every pair taught a positive number of hours is required |
| Unicode25Rules.HoursAgree | validators/unicode25.py:225-234 | the hours checks report nothing exactly when every pair is taught exactly its required hours (0 for pairs not required) |
| Unicode25Rules.DayIff | validators/unicode25.py:115-223 | a day reports no duration, rule-3, window or clash error exactly when it meets the reference conditions for a good day |
| Unicode25Rules.DaysChecked | validators/unicode25.py:199-223 | when the days are exactly the expected ones, the per-day checks report nothing exactly when every day is good |
| Unicode25Rules.ValidIff | validators/unicode25.py:163-236 | the validator reports no error exactly when the schedule covers the expected days, every day is good, and every pair is taught exactly its required hours |
| Unicode25Score.DayHoursLoop | validators/unicode25.py:261-282 | the nested greedy loop adds up the lengths of the classes the one-by-one greedy walk picks |
| Unicode25Score.PickChain | validators/unicode25.py:264-282 | the picked classes come from the list and each starts no earlier than the previous one ends |
| Unicode25Score.PickAfter | validators/unicode25.py:264-282 | on positive intervals every picked class starts at or after the starting end time |
| Unicode25Score.PickDisjoint | validators/unicode25.py:264-282 | on positive intervals no two picked classes share an hour |
| Unicode25Score.PickLongest | validators/unicode25.py:254-277 | on the sorted list, a picked class is at least as long as any class with the same start |
| Unicode25Score.AttendedEnrolled | validators/unicode25.py:250-282 | every attended class is a class of that day, of an enrolled subject, with positive length |
| Unicode25Score.PickSum | validators/unicode25.py:264-282 | a day's attended hours lie between 0 and the summed hours available |
| Unicode25Score.StudentBound | validators/unicode25.py:244-284 | a student's score is at most the hours taught of the subjects they take |
| Unicode25Score.ScoreWeight | validators/unicode25.py:238-288 | the total score is at most the hours taught, each weighted by the number of students enrolled in its subject |
| Unicode25Score.TaughtFromWeight | validators/unicode25.py:115-123 | weighting the taught-hours table equals weighting the positive classes themselves |
| Unicode25Score.SubjectTotalsSum | validators/unicode25.py:297-299 | summing required hours per subject keeps every weighted total |
| Unicode25Score.MaxByPairs | validators/unicode25.py:290-311 | the theoretical maximum is the required hours of each pair weighted by the students of its subject |
| Unicode25Score.ScoreBound | validators/unicode25.py:238-311 | on a schedule with no validation errors, the score never exceeds the theoretical maximum |
| Intervals.Sort | validators/unicode25.py:132 | the sort, here and at line 259, returns a permutation of its input, in order, and is stable: for every interval, the entries tied with it (the same start when sorting by start) appear in the output in their input order |
| Intervals.SortSum | validators/unicode25.py:259 | sorting keeps the summed durations |
| PyDict.PutGet | validators/unicode25.py:80 | after an assignment the key maps to the new value and every other key is unchanged |
| PyDict.AddToGet | validators/unicode25.py:123 | adding to a key's count raises that key by the amount and leaves the others alone |

## Left out

- The HTTP layer, file opening and printing are not part of this model.
  Files are given as lists of lines, and results are error values rather
  than printed text.
- Error texts are not modelled. Errors are datatypes with the fields the
  messages show. Tuple reprs and the exact wording are not modelled.
- The floating-point score of `validators/unicode24.py` (`pow(0.99, log10(...))`)
  is not modelled. Only its size-to-base mapping is (`Unicode24.SizeBase`).
  An unknown size, for which the source leaves the base unbound, gives
  `None`.
- Unicode24Map.ParseCell: cells are read as exactly two integers. The source
  builds a tuple of any length. For a wall, the source reads only the first
  two fields of the start and the first field of the end, plus the end's
  second field when the wall is vertical (`validators/unicode24.py:41-44`,
  `validators/unicode24_medio.py:29-32`). So it loads walls such as
  `1,2,9;1,5` (in `unicode24.py`'s notation), or a horizontal wall whose end is one field, and walls the
  intended cells. The model refuses any map whose wall ends, tunnel ends or
  cells have another field count.
- Unicode24Map.Load: the dimension line must hold at least two integers.
  The source accepts fewer and fails at the first move. The second line,
  the initial position, is kept as its `,`-separated text, as in the
  source; validation never uses it. The contract covers the points, the
  level and the drone indices, not every field of the loaded map.
- Unicode24Medio.Load: the model refuses two kinds of map the source
  loads. A dimension line with one integer, such as `5`, is refused; the
  source builds `(5,)` and reads the height only when a `-` move checks
  its bound (`validators/unicode24_medio.py:18`, `105-106`). Tunnel lines
  are read with two-integer cells, so a line such as `1;2;3:4;5` is
  refused; the source reads tuples of any length
  (`validators/unicode24_medio.py:35`, `53-66`) and never consults them,
  since `tunnel_at` never matches (`validators/unicode24_medio.py:77-79`).
- Unicode24Sim.AdvanceDrone: another drone that would leave the map, or
  whose move list is empty, ends the replay with one opaque `DroneFault`.
  The source fails there with an `IndexError` when the move list is empty
  (`validators/unicode24.py:105`), or with a `TypeError` when the move
  leaves the map and `None` is indexed (`validators/unicode24.py:106-107`).
  Drone state is threaded through the replay, not shared across requests.
- Text.ParseInt: `int` is modelled on ASCII digits. Other Unicode decimal
  digits (Arabic-Indic, full-width, ...) and underscores between digits are
  not accepted. The set of Unicode decimal digits depends on the Unicode
  database of the Python version, so it is not modelled.
- RunLength.Tokens: `\d` in `\d+[><+-]` is modelled as an ASCII digit. A
  count written in other Unicode decimal digits, such as `٣>`, is a token
  in the source and noise in the model.
- RunLength.TokensSkipNoise: "without digits" means without ASCII digits,
  for the reason above.
- RunLength.TokensNoDigits: "without digits" means without ASCII digits, for
  the reason above.
- Facil.MatchRoute: the three `\d+` groups are ASCII digit runs; a route
  number in other Unicode decimal digits is refused by the model and read
  by the source.
- The wall and tunnel lines of `validators/unicode24.py` are split on `;`
  between the ends and `,` inside a cell, as the code does.
- Unicode25Rules.ValidateSchedule: errors are a set, because `main` prints
  `sorted(set(errors))`. Their order and repeats are not modelled.
- `parse_input` of `validators/unicode25.py` is not modelled. The required
  hours and the enrollments are parameters. The required hours are assumed
  to have one entry per key, as a dict does (`DistinctKeys`).
- Unicode25Score.Score: adds the days in schedule order. The source adds
  them in sorted-day order. Only the order of the additions differs. Student
  ids are dropped: the students are a list of enrolled-subject sets.
- Unicode25Score.DayHoursLoop: its postcondition assumes every interval has
  positive length. That is always so for the lists the score builds.
- OnePizza.ParseInput: the ingredient list is modelled as a set. The order
  in which `list(set)` lists it is not modelled.
- `read_output_file` of `validators/validador_facil.py` reads route numbers
  as decimal digit runs. `int` of such a run is its value, so leading zeros
  are accepted, as in the source.
