# NYC Airbnb dashboard: the selected-boroughs state, in Dafny

The dashboard shows a clickable map of the five New York City boroughs. Next to it is a
comparison panel of the boroughs the user has selected. This project models the logic behind
that panel, plus the part of the room-type chart that depends on the selection.

- **The selection store** (`app.py`). It is a list of borough records. Each record holds the
  borough's name, the listings and tourism values from the click payload, and the crime and
  investment ranks from the static `BOROUGH_RANKS` table. A map click toggles the clicked
  borough: the borough is removed if selected, appended if not. A card's close button removes
  that borough, unless no button actually fired. When that happens the callback returns
  "no update". After every change three views are recomputed:
  - the cards, sorted by investment rank;
  - the single best-investment borough;
  - the list of names that restricts the charts.
- **The room-type chart** (`fig_room.py`). The model covers four pieces:
  - the SQL text built for a selection (an `IN (...)` clause is added only for a non-empty
    selection);
  - the whitelist of room types kept from the result rows;
  - the choice between one colour per borough and a single colour;
  - the default y-axis range.

Modules:

- `Boroughs` (`boroughs.dfy`): the five boroughs, their names, the name lookup, and the rank
  table.
- `Selection` (`selection.dfy`): records, the toggle, removal, the name list, and runs of
  clicks.
- `Views` (`views.dfy`): the best investment, the sorted cards, and the rendered views.
- `Dashboard` (`store.dfy`): the store as a class whose two methods are the two callbacks,
  plus worked scenarios.
- `RoomFigure` (`room_figure.dfy`): `create_room_figure`.
- `Options` (`options.dfy`): the Option type.

The store is the class `Dashboard.SelectionStore`. Its field `selections` is reassigned by
`OnMapClick` and `OnCloseButton`. Its invariant `Valid()` says two things: no borough appears
twice, and every record carries its table ranks. Each method states the new list as a pure
function of the old one (`Toggled`, `Without`) and states the views it returns
(`RenderView`). The properties are proved as lemmas about those functions.

The best investment follows the source step by step:

- build the dictionary comprehension `{name: investment_rank}` (keys in first-insertion order,
  each holding the last record's value);
- take Python's `min` by value (the first minimal item);
- take `next` over the list (the first record of that name).

The lemmas show that, on a list with unique names, this is the earliest record of least
investment rank.

## Model

| member | source | states |
|---|---|---|
| Boroughs.ParseBorough | app.py:402-403 | a name found in BOROUGH_RANKS is the name of the borough returned |
| Boroughs.ParseBoroughName | app.py:64-70 | the lookup finds every borough's name, and it finds only names of boroughs (any other name is a KeyError) |
| Boroughs.BoroughNameInjective | app.py:64-70 | two boroughs have the same name exactly when they are the same borough |
| Boroughs.RanksArePermutations | app.py:64-70 | the investment ranks, and separately the crime ranks, of the five boroughs are exactly 1..5, so no two boroughs share one |
| Boroughs.AllBoroughsComplete | app.py:64-70 | the table covers all five boroughs |
| Boroughs.BoroughName | app.py:64-70 | a borough's name is never empty and contains no single quote, so it cannot break out of the SQL string literal of fig_room.py:44-45 |
| Boroughs.Ranks | app.py:64-70 | every rank in the table is between 1 and 5 (RanksArePermutations adds that each column is a permutation) |
| Selection.MakeRecord | app.py:398-411 | the new record carries the clicked borough, the payload's listings and tourism values, and the table's two ranks for that borough |
| Selection.Toggled | app.py:416-419 | after a click the clicked borough is selected exactly when it was not before, and the list grows by at most one record (ToggleOn, ToggleOff and ToggleMembership give the rest) |
| Selection.ApplyToggles | app.py:416-419 | a run of n clicks grows the list by at most n records (ToggleParity and SizeAfterClicks give the set of selected boroughs and the length) |
| Selection.HasName | app.py:416 | `any(...)` holds exactly when some record has the given name |
| Selection.Without | app.py:417 | the comprehension keeps exactly the records whose name differs from the target, and no more records than before |
| Selection.Names | app.py:480-481 | the chart filter has one name per record, in list order |
| Selection.WithoutConcat | app.py:506 | removal keeps relative order: it distributes over concatenation |
| Selection.WithoutAbsent | app.py:506 | removing a borough that is not selected changes nothing |
| Selection.WithoutIdempotent | app.py:506 | removing the same borough twice gives the same list as removing it once |
| Selection.WithoutKeepsInvariant | app.py:506 | removal keeps names unique and ranks as in the table |
| Selection.NamesWithout | app.py:506-507 | after a removal the chart filter is the old filter with that name dropped, order kept |
| Selection.ToggleOn | app.py:398-419 | clicking an unselected borough appends exactly one record: that borough, with the payload's listings and tourism and the table's ranks; the earlier records are unchanged and keep their order |
| Selection.ToggleOff | app.py:416-417 | clicking a selected borough removes every record of that borough, keeps every other record, and shortens the list |
| Selection.ToggleMembership | app.py:416-419 | a toggle flips the clicked borough's membership and leaves every other borough's membership unchanged |
| Selection.ToggleKeepsInvariant | app.py:416-419 | if names are unique and ranks come from the table before a toggle, both still hold after it, and the list has between 0 and 5 records |
| Selection.ToggleKeepsUnique | app.py:416-419 | a toggle keeps names unique |
| Selection.UniqueAtMostFive | app.py:64-70 | a list with unique borough names has at most five records |
| Selection.ToggleTwice | app.py:416-419 | clicking an unselected borough twice gives back the original list |
| Selection.ToggleParity | app.py:416-419 | after a run of clicks, a borough's membership has flipped once per click on it |
| Selection.ApplyTogglesUnique | app.py:416-419 | a run of clicks keeps names unique, so the list has one record per selected borough |
| Selection.SizeAfterClicks | app.py:416-419 | starting from an empty list, the selected boroughs are exactly those clicked an odd number of times, and the list length is their number |
| Views.Upsert | app.py:422 | setting a dictionary key leaves the key set as the old keys plus that key, and that key then holds the new value |
| Views.RankDict | app.py:422 | the dictionary built over the list has exactly the selected boroughs as keys |
| Views.RankDictFrom | app.py:422 | the dictionary's keys are exactly the selected boroughs |
| Views.UpsertPresent | app.py:422 | setting a key that is already present gives its first item the new value in place and leaves every other item as it was, so the dictionary holds the last value set for a name |
| Views.UpsertAbsent | app.py:422 | setting a key that is not yet present adds it after the existing items |
| Views.RankDictFromUnique | app.py:422 | with unique names, the dictionary has one item per record, in list order |
| Views.MinRankIndex | app.py:423 | `min` by value returns an item of least rank, and no earlier item has that rank |
| Views.FirstNamed | app.py:425 | `next` finds a record exactly when the borough is selected, and then returns that borough's first record |
| Views.BestInvestment | app.py:421-425 | a best investment, when there is one, is a record of the selection (the lemmas below say which one) |
| Views.BestInvestmentNoneIff | app.py:421-425 | there is no best investment (the placeholder is shown) exactly when the selection is empty; when it is not empty, the lookup `next` cannot fail |
| Views.BestInvestmentIsFirstMinimum | app.py:421-425 | with unique names, the best investment is the earliest record of least investment rank |
| Views.BestInvestmentIsArgmin | app.py:513-517 | with unique names and a non-empty selection, the best investment is a selected record whose investment rank is at most every selected record's |
| Views.BestInvestmentStrict | app.py:64-70 | with table ranks there are no ties: the best investment's rank is strictly below that of every other selected record |
| Views.FirstMinimumUnique | app.py:423 | at most one position is the first position of least rank |
| Views.Insert | app.py:285 | inserting adds exactly the one record (as a multiset) and puts it first when nothing in front outranks it |
| Views.InsertSorted | app.py:285 | inserting into a list in non-decreasing investment-rank order keeps that order |
| Views.SortByInvestment | app.py:285 | the sorted cards are in non-decreasing investment-rank order and are a permutation of the selection |
| Views.SortedHead | app.py:285 | the first sorted card is the earliest record of least investment rank |
| Views.FirstCardIsBestInvestment | app.py:285 | with unique names, the first card is the record the best-investment panel shows |
| Views.CardsView | app.py:279-285 | an empty selection shows the prompt; otherwise the cards are sorted by investment rank and are a permutation of the selection |
| Views.DetailsView | app.py:421-425 | the details area shows the prompt exactly when nothing is selected; otherwise (with unique names) it shows a selected record of least investment rank |
| Views.RenderView | app.py:477-483 | the cards show their prompt exactly when the details show theirs; the chart filter has one name per record; with unique names and a non-empty list, the first card is the record the best-investment panel shows |
| Dashboard.AnyClicked | app.py:496-497 | `any(n_clicks)` holds exactly when some close button has a non-zero click count |
| Dashboard.SelectionStore.constructor | app.py:174 | the store starts empty and valid |
| Dashboard.SelectionStore.OnMapClick | app.py:389-419 | with no click event, the list is unchanged, the cards are those of the unchanged list, the details show the prompt and the charts are unfiltered; an unknown name fails and leaves the list unchanged; otherwise the list is toggled and the views are those of the new list; the invariant holds and at most five records remain |
| Dashboard.SelectionStore.OnCloseButton | app.py:495-507 | if no close button fired, or nothing was triggered, the result is "no update" and the list is unchanged; otherwise the pressed borough's records are removed and the views are those of the new list; the invariant holds |
| Dashboard.ChartFilterRestriction | app.py:480-481 | the room chart's query is restricted to exactly the selected names, in order, and is unrestricted for an empty selection or an absent click |
| Dashboard.ScenarioManhattanThenBrooklyn | app.py:416-425 | after selecting Manhattan and then Brooklyn, the list is [Manhattan, Brooklyn], Manhattan is the best investment, and the cards are in that order |
| Dashboard.ScenarioRemoveQueens | app.py:506-517 | after selecting Queens and Bronx and pressing Queens's close button, only Bronx is left and it is the best investment |
| Dashboard.ScenarioBrooklynTwice | app.py:381-483 | clicking Brooklyn twice empties the list; the cards and the details show their prompts and the chart filter is empty |
| Dashboard.ScenarioNothingFired | app.py:495-497 | close-button counts that are all zero give "no update" and leave the one-record list as it was |
| Dashboard.ScenarioUnknownName | app.py:402 | a click on a name outside BOROUGH_RANKS fails and the list stays empty |
| RoomFigure.HasSelection | fig_room.py:43 | Python's truth test of the argument: a list that is present and not empty (no contract of its own; BoroughClause, RoomBoxStyle and QueryRestriction state what depends on it) |
| RoomFigure.Join | fig_room.py:44 | names without quotes, joined with the separator, are read back as exactly those names |
| RoomFigure.BoroughClause | fig_room.py:43-45 | the query gets an added clause exactly when the selection is present and not empty |
| RoomFigure.RoomQuery | fig_room.py:24-45 | every query starts with the base query, which ends in `WHERE 1=1` and trailing whitespace, and the clause follows it |
| RoomFigure.SplitQuoteFree | fig_room.py:44 | a name without quotes is read back as a single name |
| RoomFigure.SplitAfterName | fig_room.py:44 | a name without quotes, followed by the separator, is read back as the first name |
| RoomFigure.QueryRestriction | fig_room.py:39-45 | a selection that is absent or empty gives an unrestricted query; a non-empty one gives a query ending in `AND b.borough_name IN ('...')` that lists exactly the selected names, in order |
| RoomFigure.KeepKnownRoomTypes | fig_room.py:51-52 | the rows kept are exactly the input rows whose room type is one of the four listed types |
| RoomFigure.KeepKnownRoomTypesConcat | fig_room.py:52 | the row filter keeps the rows' order |
| RoomFigure.RoomBoxStyle | fig_room.py:64-84 | boxes are coloured per borough exactly when the selection is non-empty; otherwise a single colour #9c9c7c is used |
| RoomFigure.YAxisRange | fig_room.py:87 | the y range is the given one when present, and [0, 1000] otherwise |
| RoomFigure.CreateRoomFigure | fig_room.py:10-87 | the chart's rows are exactly the whitelisted rows of the query's result; it colours per borough exactly when the selection is non-empty; the query starts with the base query and is longer exactly then; for quote-free names it restricts to exactly the selected names in order, and is otherwise unrestricted; the y range is the given one or [0, 1000] |

## Left out

- Dash layout, the `html.*` and `dcc.*` component trees, styling, `BOROUGH_COLORS`, the fig_room.py `custom_colors` map and the borough images: these are rendering only. The cards and the details panel are modelled by the records they show.
- Callback wiring and the JSON parsing of `ctx.triggered` (app.py:499-504) are transport. The removal target is a parameter: the `index` field of the first triggered button's id, which holds a borough name (app.py:292, 504), or None when nothing was triggered. The `clickData` payload is reduced to the `Click` datatype.
- Dashboard.SelectionStore.OnCloseButton: each `n_clicks` entry (None or an integer) is a `nat`, with None as 0. Both are falsy for `any`.
- Dashboard.SelectionStore.OnMapClick: the `current_selections is None` guard (app.py:413-414) is not modelled. The store's data starts as `[]` (app.py:174), so the guard cannot fire.
- The exceptions raised for an unknown borough (KeyError) and for PreventUpdate become the result values `UnknownBorough` and `NoUpdate`. Dash leaves the previous state in place in both cases, and so do the methods.
- Plotly figure building, pandas, SQLite connections, and running the query (fig_room.py:21, 47-48) are left out. The database is a function parameter from query text to rows in `RoomFigure.CreateRoomFigure`.
- `load_dotenv`, `os.getenv` and the `except` fallback to an error figure (fig_room.py:12-19, 124-137) are environment and I/O.
- `create_price_figure` (fig_price.py) receives the same name list as the room chart. fig_price.py is not part of this model. Neither are boxplot.py, map.py, fig_map.py, fig_crime.py, fig_potential.py and export_sqlite.py.
- The numeric type of `tourism` is `int`. It is only passed through and displayed. Prices are `real`, not floating point.
- Views.SortByInvestment: that records of equal rank keep their list order is proved only for the first card (Views.SortedHead). With the table's ranks no two records of a valid list tie.
- Views.BestInvestmentIsArgmin, Views.BestInvestmentIsFirstMinimum: these are stated for lists with unique names, the store's invariant. With duplicate names the dictionary would keep the last rank of a name, while `next` returns the first record of that name.
