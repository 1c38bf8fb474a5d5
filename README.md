# Roster-line diagrams (LigneDeRoulement) in Dafny

`app.py` is a Streamlit page over a table of train-schedule rows. The
operator picks service days (`Jour`), then roster lines (`Ligne Jour`) among
those the chosen days carry. The page shows the rows of a chosen day and a
chosen line. For each chosen (day, line) pair that has rows, it draws a
horizontal diagram:

- one box per leg (row), coloured by the train type;
- the train icon on the left of the first leg and, when the line has more
  than one leg, on the right of the last one: a one-leg line gets only the
  left icon;
- a `HH:MM -> HH:MM` label under every leg whose two times parsed;
- an arrow from a leg to the next one, carrying the gap in minutes, when
  the leg's `HeureD` time and the next leg's `HeureA` time both parsed.

Finally, when the chosen table has rows, it offers that table as Excel and
CSV downloads named after the chosen days; an empty chosen table gets no
downloads.

The model follows the script's structure:

- `wrappers.dfy` (`Wrappers`): the `Option` type used for absent times.
- `clock.dfy` (`Clock`):
  - the strict `%H:%M:%S` parse with failures coerced to an absent time;
  - the `%H:%M` rendering;
  - `int(seconds / 60)`, the minute count truncated toward zero.
- `schedule.dfy` (`Schedule`):
  - rows and the boolean masks (`isin`, `==`) as an order-preserving filter `Where`;
  - the chosen table `FinalTable`;
  - `unique()` as `Unique`, and the days and lines offered for selection.
- `builder.dfy` (`Builder`): the row loop (app.py:49-59) that fills the four parallel lists. It is a method with loop invariants, proved against the function `LegsOf`.
- `layout.dfy` (`Layout`):
  - the `enumerate` loop (app.py:70-100), as the method `Layout` and its loop `LayOutLegs`/`LegPass`;
  - the element list each pass hands to matplotlib, with the positions, the title and the fixed axis bounds. The function it is proved against is `LayoutOf`.
  - lemmas about what one leg receives and what the whole diagram holds.
- `export.dfy` (`Export`): `'_'.join(days)`, its inverse `split('_')`, and the two download names.
- `pipeline.dfy` (`Pipeline`):
  - the two selection guards;
  - the day loop around the line loop, with empty groups skipped (`DrawAll`, `DrawDay`);
  - the page as a whole (`Render`, proved against `ScreenOf`).

Conventions:

- A time is an `Option<int>` number of seconds since midnight.
- Positions are the `real` coordinates the script passes to matplotlib.
- Despite its name, `HeureA` fills `heures_depart` (app.py:57), and `HeureD` fills `heures_arrivee` (app.py:58). The label and the arrow read these lists, so `Legs.departs[i]` comes from `HeureA` and `Legs.arrivees[i]` from `HeureD`.
- The arrow after leg `i` uses `departs[i + 1] - arrivees[i]` (app.py:94-96).
- The gap is `int(duration)`, truncated toward zero, not floored: a gap of -90 seconds gives -1, not -2 (`Clock.MinutesTruncates`, `Clock.MinutesOfNegation`).

## Model

| member | source | states |
|---|---|---|
| Clock.ParseTime | app.py:57-58 | A cell parses exactly when it is eight characters `HH:MM:SS` with H < 24, M < 60, S < 60. A parsed time lies in [0, 86400). Any other cell gives `None` and never an error. |
| Clock.FormatOfParse | app.py:57-58 | Every accepted cell is the canonical `%H:%M:%S` spelling of the time it denotes. |
| Clock.ParseOfFormat | app.py:57-58 | Parsing the `%H:%M:%S` spelling of any time of day gives that time back. |
| Clock.FormatHMOfParse | app.py:91 | The `%H:%M` rendering of an accepted cell's time is the cell's first five characters. |
| Clock.MinutesTruncates | app.py:96-100 | The minute count is seconds / 60 with the fraction dropped toward zero: at or below the exact quotient for a gap of zero or more, at or above it for a negative gap. |
| Clock.MinutesOfNegation | app.py:96-100 | Truncation is symmetric in the sign of the gap. |
| Schedule.WhereKeeps | app.py:20 | A mask keeps only rows that satisfy it, and a row is kept exactly when it is in the table and satisfies the mask. |
| Schedule.WhereIndices | app.py:20 | A mask keeps an order-preserving subsequence: kept rows sit at strictly increasing table positions, and every satisfying position is among them. |
| Schedule.WhereWhere | app.py:20-28 | Applying two masks in turn is applying their conjunction. |
| Schedule.WhereAppend | app.py:20 | Masking a concatenation is concatenating the masked parts. |
| Schedule.FinalTableRows | app.py:20-28 | The chosen table is the day-and-line mask of the data. A row is in it exactly when it is a data row of a chosen day and a chosen line. |
| Schedule.GroupOfFinalTable | app.py:45 | For a chosen day and line, the group taken from the chosen table equals the group taken from the whole table. |
| Schedule.Unique | app.py:15 | `unique()` returns each value once, and exactly the values of the column. |
| Schedule.UniqueFirstAppearance | app.py:15 | `unique()` lists the values in the order of their first appearance. |
| Schedule.OfferedDaysSpec | app.py:15 | The days offered are distinct, and a day is offered exactly when some row carries it. |
| Schedule.OfferedLinesSpec | app.py:23 | The lines offered are distinct, and a line is offered exactly when a row of a chosen day carries it. |
| Builder.LegsOf | app.py:49-59 | The four lists built from a group have the group's length. Every present time is a time of day. |
| Builder.BuildLegs | app.py:49-59 | The row loop yields one entry per row in each list, in row order. The train comes from `TrainA` and the type from `TypeTrainA`. The depart time is parsed from `HeureA` and the arrivee time from `HeureD`. A time is absent exactly when its cell is malformed, and the row is kept. |
| Layout.ColourOf | app.py:72-77 | Green exactly for "Commercial", orange exactly for "Évolution", gray for every other type string. |
| Layout.LegPass | app.py:70-100 | One pass of the leg loop emits the elements of leg `i`, in emission order. |
| Layout.LayOutLegs | app.py:70-100 | The leg loop's element list is the concatenation of the passes of legs 0 to n-1. |
| Layout.Layout | app.py:62-104 | The diagram has the title at (-0.8, 1.2), text "Jour : {jour}\nLigne_de_roulement num : {ligne}", the elements of the leg loop, and axis bounds x in [-1, n], y in [-1, 1.5]. |
| Layout.ElementsInLegOrder | app.py:70 | Every element belongs to one of the n legs. Elements come grouped by leg, legs in increasing order. |
| Layout.OwnPass | app.py:70-100 | The elements of leg `i` in the diagram are exactly the elements its pass emits. |
| Layout.LegBox | app.py:72-81 | Each leg has exactly one box, at (i, 0), showing its train id and coloured by its type. |
| Layout.LegIcon | app.py:84-87 | Leg 0 gets the left icon over [-0.5, 0] x [-0.8, 0.8]. Leg n-1, when it is not leg 0, gets the right icon over [n-1, n-0.5] x [-0.8, 0.8]. Interior legs get none. |
| Layout.LegTimeLabel | app.py:90-91 | A leg has a time label exactly when both its times parsed. The label sits at (i, -0.4) and reads depart `HH:MM` + " -> " + arrivee `HH:MM`. |
| Layout.LegArrow | app.py:94-100 | An arrow leaves leg `i` exactly when a next leg exists and its depart time and leg `i`'s arrivee time both parsed. It runs from (i+0.2, 0) to (i+0.8, 0), labelled at (i+0.5, 0.2), and carries the truncated minute gap, possibly negative. |
| Layout.BoxesOfDiagram | app.py:80-81 | A diagram has exactly n boxes; box `i` is that of leg `i`. |
| Layout.IconsOfDiagram | app.py:84-87 | No icon without legs. A single leg has only the left icon. Longer lines have the left icon of leg 0 and the right icon of leg n-1. |
| Layout.ArrowCount | app.py:94 | A diagram of n legs has at most n-1 arrows, and exactly n-1 when every time parsed. |
| Layout.WithinBounds | app.py:63-104 | The title and every position given to an element lie inside the fixed axis bounds. |
| Layout.TimeLabelOfRow | app.py:57-91 | For two well-formed time cells, the label reads the first five characters of `HeureA`, " -> ", and the first five of `HeureD`. |
| Export.JoinOfSplit | app.py:126 | Joining the pieces of `split('_')` gives the string back. |
| Export.SplitOfJoin | app.py:126 | Splitting the underscore join of one or more underscore-free parts gives the parts back. |
| Export.NamesDifferOnlyInExtension | app.py:126-133 | The Excel and CSV names share the stem "Lignes_Roulement_" + joined days. They end in ".xlsx" and ".csv" and so differ. |
| Export.NameDeterminesDays | app.py:126 | For non-empty selections of underscore-free days, equal file names mean equal selections. |
| Pipeline.PairsOfDayMembers | app.py:43-47 | A pair of a day is visited exactly when its line is chosen and its group has rows. |
| Pipeline.VisitsMembers | app.py:42-47 | A pair gets a diagram exactly when its day and line are chosen and have rows in the chosen table. An empty group yields nothing. |
| Pipeline.PairsOfDayOrder | app.py:43 | With distinct lines, the pairs of one day follow the order of the chosen lines. |
| Pipeline.VisitsOrder | app.py:42-43 | With distinct days and lines, diagrams come days outer and lines inner, each pair at most once. |
| Pipeline.DrawDay | app.py:43-108 | The line loop of one day yields the diagram of each visited pair of that day, in order. |
| Pipeline.DrawAll | app.py:42-108 | The two loops yield the diagram of each visited pair, in visiting order. |
| Pipeline.Render | app.py:19-135 | The page script produces the screen `ScreenOf` describes. |
| Pipeline.EmptyTableVisits | app.py:35 | An empty chosen table has no pair to draw. |
| Pipeline.ScreenOfSelection | app.py:19-135 | Without days, the day warning. Without lines, the line warning and the distinct lines of the chosen days. Otherwise: the rows of a chosen day and a chosen line; one diagram per visited pair (the empty-table guard changes nothing about them); and the two download names exactly when the table has rows. |
| Pipeline.DiagramRows | app.py:42-81 | The k-th diagram belongs to a chosen day and line with rows, carries their title, and has one box per row of that pair in the whole table. The boxes are in table order and show the row's train and its type's colour. |

## Left out

- Loading the Excel file (app.py:9): the table is a parameter of the model.
- The Streamlit widgets and messages:
  - the two multiselects are the `days` and `lines` parameters;
  - the title, subheaders, warnings, dataframe display and `st.pyplot` are the `Screen` outcome only, not their text.
- The icon image read (app.py:40) and all pixel-level drawing: fonts, alignment, bounding-box style, colours as matplotlib names, `axis("off")`. The model stops at the list of elements and their positions.
- The text of the box is the `TrainA` value as a string. The arrow's text `"{n} min"` is not built: the arrow carries the integer `n`.
- The Excel and CSV serialisation and the download buttons (app.py:118-135). Only the file names are modelled.
- Every cell is a string. With non-string `Jour` or `Ligne Jour` values, such as integer line numbers read from Excel, the joins at app.py:31, 126 and 133 raise TypeError; that error path is not modelled.
- pandas `to_datetime` leniency: single-digit fields, non-string cells such as NaN or `datetime.time` values, and the implied 1900-01-01 date. The model uses a strict two-digit `HH:MM:SS` parser.
- Floating-point arithmetic for the gap (app.py:96). Times are whole seconds and the division by 60 is exact integer truncation. A non-integer quotient is at least 1/60 from an integer, so nothing is lost.
- `zip` truncation (app.py:70): the four lists always have equal length (`Builder.BuildLegs`), so it never drops a leg.
- Selections are sequences as the widgets return them. `Pipeline.VisitsOrder` assumes they are duplicate-free, as a multiselect gives them; the other results hold for any sequences.
- The structure of the nested loops is not kept as one body. The day loop is `Pipeline.DrawAll`, the line loop `Pipeline.DrawDay`, the leg loop `Layout.LayOutLegs`, and one pass of it `Layout.LegPass`. The order of the work is unchanged.
