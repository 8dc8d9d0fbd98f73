/**
 * Decoding of the `Coordinates` column (`load_data`): each cell such as
 * "[16.4023,120.596]" has every leading and trailing bracket stripped and is
 * split at every comma; the column of field lists is then assigned to the two
 * columns Latitude and Longitude. Turning the field texts into floats is not
 * part of this model.
 */
module Coordinates {
  import opened Wrappers
  import opened Text

  const Brackets: set<char> := {'[', ']'}

  /** The fields of one cell: brackets stripped from both ends, then split at every comma. */
  function CellFields(cell: string): (fields: seq<string>)
    ensures |fields| >= 1
    ensures Join(fields, ',') == Strip(cell, Brackets)
    ensures forall k :: 0 <= k < |fields| ==> ',' !in fields[k]
  {
    JoinSplit(Strip(cell, Brackets), ',');
    Split(Strip(cell, Brackets), ',')
  }

  /** The text of one decoded row; a missing longitude is the NaN that pads a one-field row. */
  datatype LatLonText = LatLonText(latitude: string, longitude: Option<string>)

  /** Splitting must yield exactly two columns; otherwise the assignment fails with the column count. */
  datatype DecodeError = ColumnCountMismatch(columns: nat)

  /** `t` is the decoding of `cell`: comma-free fields that rejoin to the stripped cell. */
  ghost predicate Decodes(cell: string, t: LatLonText)
  {
    && ',' !in t.latitude
    && (t.longitude.Some? ==> ',' !in t.longitude.value)
    && Strip(cell, Brackets)
       == t.latitude + (if t.longitude.Some? then [','] + t.longitude.value else [])
  }

  /** The number of columns the split produces: the most fields of any cell. */
  function Width(cells: seq<string>): (w: nat)
    ensures forall k :: 0 <= k < |cells| ==> |CellFields(cells[k])| <= w
    ensures cells != [] ==> exists k :: 0 <= k < |cells| && |CellFields(cells[k])| == w
    ensures cells == [] ==> w == 0
    decreases |cells|
  {
    if cells == [] then 0
    else
      var here, rest := |CellFields(cells[0])|, Width(cells[1..]);
      if here >= rest then here else rest
  }

  function DecodeCell(cell: string): (t: LatLonText)
    requires |CellFields(cell)| <= 2
    ensures Decodes(cell, t)
  {
    var fields := CellFields(cell);
    if |fields| == 2 then
      assert Join(fields, ',') == fields[0] + [','] + fields[1];
      LatLonText(fields[0], Some(fields[1]))
    else
      LatLonText(fields[0], None)
  }

  /** Decodes the whole column; it fails unless the widest cell has exactly two fields. */
  function DecodeColumn(cells: seq<string>): (r: Result<seq<LatLonText>, DecodeError>)
    ensures r.Err? <==> Width(cells) != 2
    ensures r.Err? ==> r.error == ColumnCountMismatch(Width(cells))
    ensures r.Ok? ==> |r.value| == |cells| && forall k :: 0 <= k < |cells| ==> Decodes(cells[k], r.value[k])
  {
    if Width(cells) != 2 then Err(ColumnCountMismatch(Width(cells)))
    else Ok(seq(|cells|, k requires 0 <= k < |cells| => DecodeCell(cells[k])))
  }

  /** A decoding is unique: a stripped cell has only one split into comma-free fields. */
  lemma DecodesUnique(cell: string, t1: LatLonText, t2: LatLonText)
    requires Decodes(cell, t1) && Decodes(cell, t2)
    ensures t1 == t2
  {
    var s := Strip(cell, Brackets);
    var a, b := t1.latitude, t2.latitude;
    assert forall k :: 0 <= k < |a| ==> s[k] == a[k] != ',';
    assert forall k :: 0 <= k < |b| ==> s[k] == b[k] != ',';
    if t1.longitude.Some? { assert s[|a|] == ','; }
    if t2.longitude.Some? { assert s[|b|] == ','; }
    if t1.longitude.Some? && t2.longitude.Some? {
      assert |a| == |b|;
      assert a == s[..|a|] == b;
      assert t1.longitude.value == s[|a| + 1..] == t2.longitude.value;
    }
  }

  /** Number text as written by the map scripts: no comma and no bracket. */
  predicate PlainField(f: string)
  {
    forall k :: 0 <= k < |f| ==> f[k] != ',' && f[k] !in Brackets
  }

  /** The stored form of a coordinate pair, as in "[16.4023,120.596]". */
  function EncodeCell(lat: string, lon: string): string
  {
    "[" + lat + "," + lon + "]"
  }

  /** Decoding a stored pair gives back both fields. */
  lemma CellRoundTrip(lat: string, lon: string)
    requires PlainField(lat) && PlainField(lon)
    ensures CellFields(EncodeCell(lat, lon)) == [lat, lon]
  {
    var core := lat + [','] + lon;
    assert EncodeCell(lat, lon) == "[" + core + "]";
    assert core[0] !in Brackets by {
      if lat != [] { assert core[0] == lat[0]; } else { assert core[0] == ','; }
    }
    assert core[|core| - 1] !in Brackets by {
      if lon != [] { assert core[|core| - 1] == lon[|lon| - 1]; } else { assert core[|core| - 1] == ','; }
    }
    StripUnique(EncodeCell(lat, lon), "[", core, "]", Brackets);
    assert Join([lat, lon], ',') == core;
    SplitJoin([lat, lon], ',');
  }

  lemma WidthOfUniformColumn(cells: seq<string>, w: nat)
    requires cells != []
    requires forall k :: 0 <= k < |cells| ==> |CellFields(cells[k])| == w
    ensures Width(cells) == w
  {
  }

  /** Decoding a stored pair, as one cell of the column. */
  lemma DecodeCellRoundTrip(lat: string, lon: string)
    requires PlainField(lat) && PlainField(lon)
    ensures |CellFields(EncodeCell(lat, lon))| == 2
    ensures DecodeCell(EncodeCell(lat, lon)) == LatLonText(lat, Some(lon))
  {
    CellRoundTrip(lat, lon);
  }

  /** Decoding a non-empty column of stored pairs gives back every pair. */
  lemma ColumnRoundTrip(cells: seq<string>, lats: seq<string>, lons: seq<string>)
    requires |cells| == |lats| == |lons| > 0
    requires forall k :: 0 <= k < |cells| ==> PlainField(lats[k]) && PlainField(lons[k])
    requires forall k :: 0 <= k < |cells| ==> cells[k] == EncodeCell(lats[k], lons[k])
    ensures DecodeColumn(cells).Ok?
    ensures |DecodeColumn(cells).value| == |cells|
    ensures forall k :: 0 <= k < |cells| ==> DecodeColumn(cells).value[k] == LatLonText(lats[k], Some(lons[k]))
  {
    assert Width(cells) == 2 by {
      forall k | 0 <= k < |cells|
        ensures |CellFields(cells[k])| == 2
      {
        DecodeCellRoundTrip(lats[k], lons[k]);
      }
      WidthOfUniformColumn(cells, 2);
    }
    var decoded := DecodeColumn(cells).value;
    forall k | 0 <= k < |cells|
      ensures decoded[k] == LatLonText(lats[k], Some(lons[k]))
    {
      DecodeCellRoundTrip(lats[k], lons[k]);
      assert decoded[k] == DecodeCell(cells[k]);
    }
  }
}
