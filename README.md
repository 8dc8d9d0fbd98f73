# Baguio route suitability map and location table, in Dafny

This project models the core of a small Streamlit application for a jeepney route in Baguio City.
The application has two pages.

**Route map page.** It reads rows of route data. Each row has a `Coordinates` text such as
`[16.4023,120.596]`, plus traffic, passenger frequency and landmark proximity. A reinforcement
learning model scores every row, and the page draws the route on a Folium map centred on Baguio.
Each row is coloured by its score (green, yellow, orange or red). Only the colours the user
selects are shown. Runs of five consecutive in-filter green rows are drawn as one larger cluster
marker at their mean position. Green rows left over before a non-green marker, or at the end, are
drawn one by one. A polyline joins every row of the route, filtered or not.

**Counter app page.** It keeps the location table in memory and adds or updates one entry at a
time. An entry is keyed by its coordinates text. Traffic is entered as a percentage and stored as
a fraction.

Modules:

- `Wrappers`: `Option` and `Result`.
- `Text`: Python's `str.strip(chars)` and `str.split(sep)` on strings, with their join/split
  round trips.
- `Suitability`: the colour of a score.
- `Clustering`: a reference definition of the markers drawn for a sequence of in-filter rows.
  The rows are cut into maximal green runs, each run into blocks of five plus single points.
  The module proves that this grouping is a partition of the rows, that every marker stands for
  the rows it was made from, and that the rows of each colour are conserved in the marker counts.
- `RouteMap`: `create_map` as a method with the original loop (route list, green buffer, flush).
  It is proved to draw exactly the reference markers. The proof goes through a recursive state
  machine `Emit` that mirrors one loop iteration per row.
- `Coordinates`: the decoding of the `Coordinates` column into latitude and longitude texts. This
  includes the column-wide rule of a pandas expanding split assigned to two columns.
- `LocationTable`: the session table as a class holding a sequence of rows, with the upsert as a
  method proved against a specification function `Upserted`.

The model scores are an input sequence of reals, one per row; the model itself is outside this
project. Coordinates are reals, and scores and means use exact real arithmetic.

## Model

| member | source | states |
|---|---|---|
| Suitability.GetColor | baguio_route.py:26-34 | green exactly when the score exceeds 0.8; yellow exactly for 0.6 < v <= 0.8; orange exactly for 0.4 < v <= 0.6; red exactly when v <= 0.4 |
| Suitability.RankCountsThresholds | baguio_route.py:27-34 | the colour's rank is the number of thresholds (0.4, 0.6, 0.8) the score strictly exceeds |
| Suitability.GetColorMonotone | baguio_route.py:27-34 | a higher score never gets a worse colour |
| Suitability.GetColorBoundaries | baguio_route.py:27-31 | every threshold belongs to the colour below it (strict `>` comparisons); values just above go to the colour above |
| Clustering.Mean | baguio_route.py:57 | the cluster position times the number of points is the sum of latitudes, and likewise for longitudes |
| Clustering.GreenRun | baguio_route.py:53-55 | the length of the maximal prefix of green rows |
| Clustering.Chunk | baguio_route.py:53-63 | a green run cut into groups that are all well formed (a cluster has exactly five points) |
| Clustering.Grouping | baguio_route.py:52-91 | the reference grouping of in-filter rows; every group is well formed |
| Clustering.GroupingPartition | baguio_route.py:52-91 | flattening the groups gives back the in-filter rows, in order, each exactly once |
| Clustering.MarkerStandsForRows | baguio_route.py:53-81 | every marker is either a cluster marker at the mean of five consecutive green rows, or a single marker at one row's position in that row's colour |
| Clustering.GroupingShortRun | baguio_route.py:84-91 | fewer than five trailing greens are drawn as single points |
| Clustering.GroupingLeadingCluster | baguio_route.py:55-63 | five buffered greens form a cluster and the buffer starts again |
| Clustering.MarkersAfterFullCluster | baguio_route.py:55-63 | five buffered greens draw one cluster marker, then the markers of what follows |
| Clustering.GroupingFlushBefore | baguio_route.py:64-81 | a non-green row first flushes the fewer-than-five buffered greens as single points, then is drawn itself |
| Clustering.MarkerCounts | baguio_route.py:52-91 | conservation: green rows = 5 x cluster markers + single green markers; each other colour has one single marker per row |
| RouteMap.Kept | baguio_route.py:47-52 | the in-filter rows tagged with their colour; never more than the input, and every colour is in the filter |
| RouteMap.Flush | baguio_route.py:65-73 | one green radius-5 marker per buffered point, in buffer order |
| RouteMap.EmitMatchesGrouping | baguio_route.py:47-91 | the loop's state machine, from any buffer of fewer than five greens, draws exactly the reference markers of the buffered greens followed by the remaining in-filter rows |
| RouteMap.BufferGreen | baguio_route.py:53-54 | buffering a green row does not change the rows the reference groups |
| RouteMap.CompleteCluster | baguio_route.py:55-63 | a fifth buffered green draws the cluster marker of the buffer, then the markers of the rest |
| RouteMap.FlushThenOwn | baguio_route.py:64-81 | an in-filter non-green row draws the flushed buffer, then its own marker, then the rest |
| RouteMap.DrawPending | baguio_route.py:65-73 | the flush loop draws exactly Flush of the buffer |
| RouteMap.CreateMap | baguio_route.py:37-97 | the map is centred on Baguio at zoom 13; its markers are exactly the reference markers of the in-filter rows; the route polyline holds every row in order, and is absent for an empty route |
| RouteMap.KeptCounts | baguio_route.py:52 | the number of kept rows of a colour is the number of rows of that colour if the colour is selected, else zero |
| RouteMap.RouteMarkerCounts | baguio_route.py:47-91 | conservation over the whole route, counted on the input scores |
| RouteMap.KeptAppend | baguio_route.py:47-52 | filtering distributes over concatenation of routes |
| RouteMap.FilteredRowIsInvisible | baguio_route.py:52 | deleting a row whose colour is not selected leaves the markers unchanged, so it neither flushes nor joins a green run |
| RouteMap.FiveGreensThenRed | baguio_route.py:47-81 | five greens then a red, all colours shown: one cluster marker of the five, then one red marker |
| Text.LeftEdge | baguio_route.py:13 | the index of the first character not in the stripped set |
| Text.RightEdge | baguio_route.py:13 | the index just past the last character not in the stripped set |
| Text.Strip | baguio_route.py:13 | the result is no longer than the input; it neither starts nor ends with a stripped character; it is empty exactly when every character is stripped |
| Text.StripUnique | baguio_route.py:13 | any split of a text into stripped-set prefix, core, and stripped-set suffix (core not starting or ending in the set) gives the core as the strip |
| Text.StripIdempotent | baguio_route.py:13 | stripping twice is stripping once |
| Text.Split | baguio_route.py:13 | at least one field, and no field contains the separator |
| Text.JoinSplit | baguio_route.py:13 | joining the fields with the separator gives back the text |
| Text.SplitJoin | baguio_route.py:13 | splitting a join of separator-free fields gives back the fields |
| Text.SplitFieldCount | baguio_route.py:13 | the number of fields is one more than the number of separators |
| Text.SplitAfterField | baguio_route.py:13 | a separator-free field followed by the separator splits off as the first field |
| Text.SplitSingleField | baguio_route.py:13 | a separator-free text is a single field |
| Coordinates.CellFields | baguio_route.py:13 | at least one comma-free field, and the fields rejoined with commas are the cell with its brackets stripped |
| Coordinates.Width | baguio_route.py:13 | the expanded split width is the most fields of any cell, attained by some cell; an empty column has width 0 |
| Coordinates.DecodeCell | baguio_route.py:13 | a one- or two-field cell decodes to comma-free texts that rejoin to the stripped cell; a one-field cell has no longitude |
| Coordinates.DecodeColumn | baguio_route.py:13 | error exactly when the split width is not two, and the error carries that width; on success one decoded pair per cell |
| Coordinates.DecodesUnique | baguio_route.py:13 | a cell has only one decoding |
| Coordinates.CellRoundTrip | baguio_route.py:13 | the cell "[lat,lon]" of two plain fields splits back into those fields |
| Coordinates.DecodeCellRoundTrip | baguio_route.py:13 | such a cell decodes to its latitude and longitude |
| Coordinates.WidthOfUniformColumn | baguio_route.py:13 | a non-empty column whose cells all have w fields has width w |
| Coordinates.ColumnRoundTrip | baguio_route.py:13 | a non-empty column of such cells decodes without error to every pair, in order |
| LocationTable.TrafficFraction | counter_app.py:26-36 | the stored traffic times 100 is the entered percentage; a percentage in 0..100 gives a fraction in 0..1 |
| LocationTable.Table.constructor | counter_app.py:5-6 | the table starts empty |
| LocationTable.Table.Upsert | counter_app.py:45-66 | the new rows are Upserted of the old rows and the entry; the outcome is Rejected exactly for blank coordinates, Updated exactly when a row already has those coordinates, and Added otherwise |
| LocationTable.BlankIsAllWhitespace | counter_app.py:46 | coordinates are blank exactly when every character is whitespace |
| LocationTable.UpsertBlankUnchanged | counter_app.py:45-66 | blank coordinates leave the table unchanged |
| LocationTable.UpsertUpdatesMatches | counter_app.py:48-53 | an existing key updates every matching row to the entry, leaves the other rows alone, and keeps the length |
| LocationTable.UpsertAppendsNew | counter_app.py:56-63 | a new key appends the entry at the end |
| LocationTable.UpsertKeepsOtherRows | counter_app.py:48-63 | no row is removed or rekeyed, and rows with other coordinates are unchanged |
| LocationTable.UpsertStoresEntry | counter_app.py:48-63 | after a non-blank upsert the entry is in the table |
| LocationTable.UpsertIdempotent | counter_app.py:45-63 | upserting the same entry twice is the same as once |

## Left out

- The Streamlit user interface is not modelled: titles, widgets, buttons, success and error
  messages, `st.cache_data`, `st.cache_resource` and session state. The upsert returns an
  outcome in place of the message.
- Loading and recompiling the Keras model (`load_dqn_model`) and `model.predict` are not
  modelled. The scores are an input, one per row.
- Folium rendering is abstract. A marker is its location, colour, radius and a cluster flag.
  Popup texts, `fill=True`, and the polyline's colour (`cadetblue`) and weight are not kept.
- CSV reading, upload, writing and the export button (counter_app.py:68-71) are file I/O and
  are not modelled.
- Float parsing of the decoded texts (`astype(float)`) is not modelled. Latitude and longitude
  stay as text in `Coordinates`, and the route uses real-valued points.
- Scores, traffic fractions and cluster means use exact reals, not IEEE doubles or `float32`.
  Rounding at the 0.4/0.6/0.8 thresholds and in `np.mean` is not captured.
- `Coordinates.DecodeColumn` models the NaN padding of a one-field cell as a missing
  longitude. The later failure of the float conversion on other texts is not modelled.
- `Coordinates.Width` gives width 0 for an empty column, so decoding an empty column is an
  error. How pandas treats an entirely empty frame is not modelled beyond this.
- `RouteMap.CreateMap` takes the decoded points directly. The float conversion that connects it to
  `Coordinates.DecodeColumn` is not modelled (see above).
- `LocationTable.Whitespace` is a finite set standing for the characters Python's `str.strip()`
  removes. Unicode categories are not consulted.
- Coordinates are compared as exact texts, as the source does. No normalisation of spacing or
  number format is modelled.
- The counter app's `number_input` bounds (0-100 for traffic, 0-1 for landmark proximity) are
  enforced by the widget, not by the upsert. `LocationTable.Table.Upsert` therefore accepts any
  integers.
- baguio_map.py, a route explorer page, is not part of this model. Neither is pages/Counter App.py,
  a variant of the counter app with a selectable grid and a map of the selected row.
- The `Coordinates` text is split at every comma, not only the first. A cell with more than one
  comma makes the whole column fail to decode, as `DecodeColumn` states.
