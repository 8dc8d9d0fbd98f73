/**
 * The location table of the data-entry page: rows keyed by the raw
 * `Coordinates` text, and the "Update/Add Entry" action that updates every
 * row with the entered key or appends a new row.
 */
module LocationTable {
  import opened Text

  /** The characters Python's `str.strip()` removes: those for which `str.isspace()` holds. */
  const Whitespace: set<char> := {
    '\t', '\n', '\U{000B}', '\U{000C}', '\r', '\U{001C}', '\U{001D}', '\U{001E}', '\U{001F}', ' ',
    '\U{0085}', '\U{00A0}', '\U{1680}', '\U{2000}', '\U{2001}', '\U{2002}', '\U{2003}', '\U{2004}',
    '\U{2005}', '\U{2006}', '\U{2007}', '\U{2008}', '\U{2009}', '\U{200A}', '\U{2028}', '\U{2029}',
    '\U{202F}', '\U{205F}', '\U{3000}'
  }

  datatype Row = Row(coordinates: string, traffic: real, passengerFrequency: int, landmarkProximity: int)

  /** Which message the action reports. */
  datatype Outcome = Updated | Added | Rejected

  /** Traffic is entered as a whole percentage and stored as a fraction. */
  function TrafficFraction(percentage: int): (traffic: real)
    ensures traffic * 100.0 == percentage as real
    ensures 0 <= percentage <= 100 ==> 0.0 <= traffic <= 1.0
  {
    percentage as real / 100.0
  }

  /** Entered coordinates that strip to nothing are refused. */
  predicate IsBlank(s: string)
  {
    Strip(s, Whitespace) == []
  }

  predicate HasKey(rows: seq<Row>, key: string)
  {
    exists k :: 0 <= k < |rows| && rows[k].coordinates == key
  }

  /** The row the form describes. */
  function Entry(coordinates: string, trafficPercentage: int, passengerFrequency: int, landmarkProximity: int): Row
  {
    Row(coordinates, TrafficFraction(trafficPercentage), passengerFrequency, landmarkProximity)
  }

  /** The table after the action, for entered row `e`. */
  function Upserted(rows: seq<Row>, e: Row): seq<Row>
  {
    if IsBlank(e.coordinates) then rows
    else if HasKey(rows, e.coordinates) then
      seq(|rows|, k requires 0 <= k < |rows| =>
        if rows[k].coordinates == e.coordinates
        then rows[k].(traffic := e.traffic, passengerFrequency := e.passengerFrequency,
                      landmarkProximity := e.landmarkProximity)
        else rows[k])
    else rows + [e]
  }

  class Table {
    var rows: seq<Row>

    /** A new session starts with an empty table. */
    constructor ()
      ensures rows == []
    {
      rows := [];
    }

    /** The "Update/Add Entry" button. */
    method Upsert(coordinates: string, trafficPercentage: int, passengerFrequency: int, landmarkProximity: int)
      returns (outcome: Outcome)
      modifies this
      ensures rows == Upserted(old(rows), Entry(coordinates, trafficPercentage, passengerFrequency, landmarkProximity))
      ensures outcome == Rejected <==> IsBlank(coordinates)
      ensures outcome == Updated <==> !IsBlank(coordinates) && HasKey(old(rows), coordinates)
      ensures outcome == Added <==> !IsBlank(coordinates) && !HasKey(old(rows), coordinates)
    {
      var traffic := TrafficFraction(trafficPercentage);
      var table := rows;
      if Strip(coordinates, Whitespace) != [] {
        var existing := seq(|table|, k requires 0 <= k < |table| => table[k].coordinates == coordinates);
        assert HasKey(table, coordinates) ==> true in existing by {
          if HasKey(table, coordinates) {
            var k :| 0 <= k < |table| && table[k].coordinates == coordinates;
            assert existing[k];
          }
        }
        if true in existing {
          var t0 := table;
          var t1 := seq(|t0|, k requires 0 <= k < |t0| =>
            if existing[k] then t0[k].(traffic := traffic) else t0[k]);
          var t2 := seq(|t1|, k requires 0 <= k < |t1| =>
            if existing[k] then t1[k].(passengerFrequency := passengerFrequency) else t1[k]);
          var t3 := seq(|t2|, k requires 0 <= k < |t2| =>
            if existing[k] then t2[k].(landmarkProximity := landmarkProximity) else t2[k]);
          rows := t3;
          outcome := Updated;
        } else {
          rows := table + [Row(coordinates, traffic, passengerFrequency, landmarkProximity)];
          outcome := Added;
        }
      } else {
        outcome := Rejected;
      }
    }
  }

  // ---------------------------------------------------------------------------
  // Properties of the action.

  /** Coordinates are blank exactly when every character is whitespace. */
  lemma BlankIsAllWhitespace(s: string)
    ensures IsBlank(s) <==> forall k :: 0 <= k < |s| ==> s[k] in Whitespace
  {
  }

  /** Blank coordinates leave the table unchanged. */
  lemma UpsertBlankUnchanged(rows: seq<Row>, e: Row)
    requires IsBlank(e.coordinates)
    ensures Upserted(rows, e) == rows
  {
  }

  /** An existing key: same number of rows, every matching row takes the entered values, the others are untouched. */
  lemma UpsertUpdatesMatches(rows: seq<Row>, e: Row)
    requires !IsBlank(e.coordinates) && HasKey(rows, e.coordinates)
    ensures |Upserted(rows, e)| == |rows|
    ensures forall k :: 0 <= k < |rows| && rows[k].coordinates == e.coordinates ==> Upserted(rows, e)[k] == e
    ensures forall k :: 0 <= k < |rows| && rows[k].coordinates != e.coordinates ==> Upserted(rows, e)[k] == rows[k]
  {
  }

  /** A new key: exactly one row, the entered one, is appended after all earlier rows. */
  lemma UpsertAppendsNew(rows: seq<Row>, e: Row)
    requires !IsBlank(e.coordinates) && !HasKey(rows, e.coordinates)
    ensures Upserted(rows, e) == rows + [e]
  {
  }

  /** No existing row changes its key, and rows with another key are not touched. */
  lemma UpsertKeepsOtherRows(rows: seq<Row>, e: Row)
    ensures |Upserted(rows, e)| >= |rows|
    ensures forall k :: 0 <= k < |rows| ==> Upserted(rows, e)[k].coordinates == rows[k].coordinates
    ensures forall k :: 0 <= k < |rows| && rows[k].coordinates != e.coordinates ==> Upserted(rows, e)[k] == rows[k]
  {
  }

  /** After an accepted action some row carries the entered key and values. */
  lemma UpsertStoresEntry(rows: seq<Row>, e: Row)
    requires !IsBlank(e.coordinates)
    ensures exists k :: 0 <= k < |Upserted(rows, e)| && Upserted(rows, e)[k] == e
  {
    var r := Upserted(rows, e);
    if HasKey(rows, e.coordinates) {
      var k :| 0 <= k < |rows| && rows[k].coordinates == e.coordinates;
      assert r[k] == e;
    } else {
      assert r[|rows|] == e;
    }
  }

  /** Pressing the button twice with the same form is the same as pressing it once. */
  lemma UpsertIdempotent(rows: seq<Row>, e: Row)
    ensures Upserted(Upserted(rows, e), e) == Upserted(rows, e)
  {
    if !IsBlank(e.coordinates) {
      var r := Upserted(rows, e);
      UpsertStoresEntry(rows, e);
      assert HasKey(r, e.coordinates);
      var r2 := Upserted(r, e);
      assert |r2| == |r|;
      forall k | 0 <= k < |r| ensures r2[k] == r[k] {
        if r[k].coordinates == e.coordinates {
          if k < |rows| { assert rows[k].coordinates == e.coordinates; }
        }
      }
    }
  }
}
